/** What the test-call engine does, in terms of messages, times and packets. */
module CallMeaning {
  import opened Wrappers
  import opened Calls

  // ---------------------------------------------------------------- requests

  /** A session of the table with the INVITE's Call-ID, From tag, number, Via and peer. */
  ghost predicate Repeats(sessions: seq<CallSession>, m: Message, peer: Address, i: nat)
  {
    && i < |sessions| && m.callId == Some(sessions[i].callId) && m.fromTag == Some(sessions[i].remoteTag)
    && m.cseq == Some(sessions[i].inviteCseq) && m.via == Some(sessions[i].inviteVia) && peer == sessions[i].peer
  }

  /** How an INVITE is answered: a repeated one as the first time; 486 when 16 calls stand or the Call-ID
      is taken; 488 without an acceptable offer; otherwise it is accepted if there are resources. */
  lemma InviteAnswered(sessions: seq<CallSession>, m: Message, peer: Address, available: bool)
    ensures var d := Decide(sessions, m, peer, available);
      && (d == Refuse(MissingCallId) <==> m.callId.None?)
      && (d == Refuse(MissingFromTag) <==> m.callId.Some? && m.fromTag.None?)
      && (d == Refuse(InvalidCSeq) <==> m.callId.Some? && m.fromTag.Some? && m.cseq.None?)
      && (d == Refuse(MissingVia) <==> m.callId.Some? && m.fromTag.Some? && m.cseq.Some? && m.via.None?)
      && (m.callId.Some? && m.fromTag.Some? && m.cseq.Some? && m.via.Some? ==>
            var busy := |sessions| >= 16 || exists i :: 0 <= i < |sessions| && m.callId == Some(sessions[i].callId);
            if exists i: nat :: Repeats(sessions, m, peer, i) then
              exists i: nat :: Repeats(sessions, m, peer, i) && d == Say(Reply(200, Some(sessions[i].answer)))
            else if busy then d == Say(Reply(486, None))
            else if m.offer.None? then d == Say(Reply(488, None))
            else d == if available then Accept else Refuse(Unavailable))
  {
    hide Position;
    var same := Position(sessions, (s: CallSession) => MatchesInvite(s, m, peer));
    forall i: nat | i < |sessions| ensures MatchesInvite(sessions[i], m, peer) <==> Repeats(sessions, m, peer, i) {
    }
    if same.Some? {
      assert Repeats(sessions, m, peer, same.value);
    }
    if m.callId.Some? {
      var taken := Position(sessions, (s: CallSession) => Carries(s, m.callId.value));
      if taken.Some? {
        assert m.callId == Some(sessions[taken.value].callId);
      }
    }
  }

  /** The call an acknowledgement, a BYE or a CANCEL is for: all of Call-ID, tags and peer agree; an
      acknowledgement has the INVITE's number, a BYE a greater one, a CANCEL number and Via. */
  lemma RequestsMatch(s: CallSession, m: Message, peer: Address)
    ensures var same := m.callId == Some(s.callId) && m.fromTag == Some(s.remoteTag) && peer == s.peer;
      && (MatchesAck(s, m, peer) <==> same && m.toTag == Some(s.localTag) && m.cseq == Some(s.inviteCseq))
      && (MatchesBye(s, m, peer) <==>
            same && m.toTag == Some(s.localTag) && m.cseq.Some? && m.cseq.value > s.inviteCseq)
      && (MatchesInvite(s, m, peer) <==> same && m.cseq == Some(s.inviteCseq) && m.via == Some(s.inviteVia))
  {
  }

  /** A new call: who it is with, its first answer, 32 seconds to be acknowledged, the first repetition
      after half a second, and media numbered from where it was told to begin. */
  lemma CallBegins(m: Message, peer: Address, now: nat, res: Resources)
    requires Callable(m)
    ensures var s := NewSession(m, peer, now, res);
      && Some(s.callId) == m.callId && Some(s.remoteTag) == m.fromTag && Some(s.inviteCseq) == m.cseq
      && Some(s.inviteVia) == m.via && Some(s.remoteRtp) == m.offer && s.peer == peer
      && s.localTag == res.localTag && s.answer == res.answer
      && !s.acked && s.expiresAt == now + 32_000_000_000 && s.nextResponse == now + 500_000_000
      && s.responseInterval == 500_000_000
      && s.sequence == res.sequence && s.timestamp == res.timestamp && s.ssrc == res.ssrc
      && s.packetCount == 0 == s.octetCount && s.nextRtp == now == s.nextRtcp
  {
  }

  // ---------------------------------------------------------------- a tick

  /** An unacknowledged call repeats its answer when that is due, and waits twice as long from then, at
      most four seconds; a send that fails changes nothing. */
  lemma AnswerRepeated(s: CallSession, now: nat, sends: Sends)
    requires !s.acked
    ensures var o := Stepped(s, Tick(now, sends));
      var wait := Min(2 * s.responseInterval, 4_000_000_000);
      if now >= s.nextResponse && sends.response then
        && o.sent == [Response(s.answer, s.peer)] && o.ok
        && o.session == s.(responseInterval := wait, nextResponse := now + wait)
      else o.session == s && o.sent == [] && (o.ok <==> now < s.nextResponse)
  {
  }

  /** The packet that is due: numbered, stamped and counted, 160 samples on, and the next due 20 ms later. */
  lemma PacketDue(s: CallSession, now: nat, sends: Sends)
    requires s.acked && now >= s.nextRtp && sends.rtp
    ensures var o := Stepped(s, Tick(now, sends));
      && o.sent != [] && o.sent[0] == Rtp(s.packetCount == 0, s.sequence, s.timestamp, s.ssrc)
      && Only(o.sent, RTPS) == [o.sent[0]]
      && o.session.sequence == (s.sequence + 1) % 0x1_0000
      && o.session.timestamp == (s.timestamp + 160) % 0x1_0000_0000
      && o.session.packetCount == (s.packetCount + 1) % 0x1_0000_0000
      && o.session.octetCount == (s.octetCount + 160) % 0x1_0000_0000
      && o.session.nextRtp == now + 20_000_000 && o.session.acked
  {
    hide Only;
    var media, report := RtpStep(s, now, sends), ReportStep(SentRtp(s, now), now, sends);
    assert media.sent == [RtpOf(s)];
    OnlyOne(RtpOf(s), RTPS);
    OnlyOne(ReportOf(SentRtp(s, now)), RTPS);
    OnlyAppend(media.sent, report.sent, RTPS);
    assert Stepped(s, Tick(now, sends)).sent == media.sent + report.sent;
  }

  /** No packet before it is due, and none when the send fails, which ends the tick. */
  lemma PacketNotDue(s: CallSession, now: nat, sends: Sends)
    requires s.acked && (now < s.nextRtp || !sends.rtp)
    ensures var o := Stepped(s, Tick(now, sends));
      && Only(o.sent, RTPS) == [] && o.session == s.(nextRtcp := o.session.nextRtcp)
      && (now >= s.nextRtp ==> o == Outcome(s, [], false))
  {
    var o := Stepped(s, Tick(now, sends));
    if o.sent != [] {
      OnlyOne(o.sent[0], RTPS);
      assert o.sent == [o.sent[0]];
    }
  }

  /** A report is sent exactly when it is due, the packets before it went out, and its send succeeds; it
      shows the counters behind the tick's packet, and the next is due five seconds later. */
  lemma ReportDue(s: CallSession, now: nat, sends: Sends)
    requires s.acked
    ensures var o := Stepped(s, Tick(now, sends));
      var due := now >= s.nextRtcp && (now < s.nextRtp || sends.rtp);
      && ((exists k :: 0 <= k < |o.sent| && o.sent[k].Report?) <==> due && sends.report)
      && (forall k :: 0 <= k < |o.sent| && o.sent[k].Report? ==>
            && o.sent[k].ssrc == s.ssrc
            && o.sent[k].timestamp == (o.session.timestamp - 160) % 0x1_0000_0000
            && o.sent[k].packets == o.session.packetCount && o.sent[k].octets == o.session.octetCount)
      && o.session.nextRtcp == (if due && sends.report then now + 5_000_000_000 else s.nextRtcp)
      && (o.ok <==> (now < s.nextRtp || sends.rtp) && (now < s.nextRtcp || sends.report))
  {
    var o := Stepped(s, Tick(now, sends));
    if ReportGoes(s, now, sends) {
      assert o.sent[|o.sent| - 1].Report?;
    }
  }

  predicate ReportGoes(s: CallSession, now: nat, sends: Sends)
  {
    now >= s.nextRtcp && (now < s.nextRtp || sends.rtp) && sends.report
  }

  /** An acknowledgement makes packet and report due at once. */
  lemma AckStarts(s: CallSession, now: nat)
    ensures Stepped(s, Ack(now)) == Outcome(s.(acked := true, nextRtp := now, nextRtcp := now), [], true)
  {
  }

  // ---------------------------------------------------------------- media on time

  /** An acknowledged call, ticked every 20 ms from the acknowledgement on. */
  function OnTime(life: Life, at: nat, n: nat): Life
  {
    if n == 0 then Grown(life, Ack(at))
    else Grown(OnTime(life, at, n - 1), Tick(at + 20_000_000 * (n - 1), Sends(true, true, true)))
  }

  /** Ticked on time, a call sends one packet per tick: the upper pace is attained. */
  lemma {:induction false} MediaOnTime(life: Life, at: nat, n: nat)
    ensures var s := Now(OnTime(life, at, n));
      && s.acked && s.nextRtp == at + 20_000_000 * n
      && |Only(Emitted(OnTime(life, at, n)), RTPS)| == |Only(Emitted(life), RTPS)| + n
    decreases n
  {
    hide Only, Stepped;
    var all := OnTime(life, at, n);
    if n == 0 {
      GrownIs(life, Ack(at));
      AckStarts(Now(life), at);
      assert Emitted(life) + [] == Emitted(life);
    } else {
      var before, step := OnTime(life, at, n - 1), Tick(at + 20_000_000 * (n - 1), Sends(true, true, true));
      MediaOnTime(life, at, n - 1);
      GrownIs(before, step);
      PacketDue(Now(before), step.now, step.sends);
      OnlyAppend(Emitted(before), Stepped(Now(before), step).sent, RTPS);
    }
  }

  lemma {:induction false} GrownIs(life: Life, step: Step)
    ensures Now(Grown(life, step)) == Stepped(Now(life), step).session
    ensures Emitted(Grown(life, step)) == Emitted(life) + Stepped(Now(life), step).sent
  {
    hide Stepped;
    assert Before(Grown(life, step)) == life;
  }

  // ---------------------------------------------------------------- the table under a tick

  /** The calls at these indexes, in ascending order, and they are the ones that stay. */
  ghost predicate KeptBy(sessions: seq<CallSession>, now: nat, kept: seq<CallSession>, chosen: seq<nat>)
  {
    && |chosen| == |kept|
    && (forall k :: 0 <= k < |chosen| ==> chosen[k] < |sessions| && kept[k] == sessions[chosen[k]])
    && (forall k, l :: 0 <= k < l < |chosen| ==> chosen[k] < chosen[l])
    && (forall i: nat :: i < |sessions| ==> (i in chosen <==> Stays(sessions[i], now)))
  }

  predicate Stays(s: CallSession, now: nat)
  {
    s.acked || now < s.expiresAt
  }

  lemma KeptSnoc(front: seq<CallSession>, x: CallSession, now: nat, kept: seq<CallSession>, chosen: seq<nat>)
    requires KeptBy(front, now, kept, chosen)
    ensures if Stays(x, now) then KeptBy(front + [x], now, kept + [x], chosen + [|front|])
            else KeptBy(front + [x], now, kept, chosen)
  {
    hide Stays;
    var all := front + [x];
    assert all[|front|] == x && forall i: nat :: i < |front| ==> all[i] == front[i];
  }

  lemma {:induction false} NothingKept(now: nat)
    ensures KeptBy([], now, Retained([], now), [])
  {
  }

  /** A tick keeps, in their order, exactly the calls that are acknowledged or not yet expired. */
  lemma {:induction false} KeptInOrder(sessions: seq<CallSession>, now: nat) returns (chosen: seq<nat>)
    ensures KeptBy(sessions, now, Retained(sessions, now), chosen)
    decreases |sessions|
  {
    hide KeptBy;
    if sessions == [] {
      chosen := [];
      NothingKept(now);
    } else {
      var front, x := sessions[..|sessions|-1], sessions[|sessions|-1];
      var before := KeptInOrder(front, now);
      KeptSnoc(front, x, now, Retained(front, now), before);
      assert sessions == front + [x] && Retained(front, now) + [] == Retained(front, now);
      chosen := if Stays(x, now) then before + [|front|] else before;
    }
  }

  /** A tick sends, call by call in the order of the table, what each call reached has due. */
  lemma {:induction false} SentInOrder(kept: seq<CallSession>, now: nat, sends: nat -> Sends, n: nat)
    requires n <= |kept|
    ensures SentBy(kept, now, sends, n)
      == Flatten(seq(n, i requires 0 <= i < n => Stepped(kept[i], Tick(now, sends(i))).sent))
  {
    hide Stepped;
    var parts := seq(n, i requires 0 <= i < n => Stepped(kept[i], Tick(now, sends(i))).sent);
    if n > 0 {
      var before := seq(n - 1, i requires 0 <= i < n - 1 => Stepped(kept[i], Tick(now, sends(i))).sent);
      SentInOrder(kept, now, sends, n - 1);
      assert parts == before + [parts[n - 1]];
      FlattenSnoc(before, parts[n - 1]);
    }
  }

  lemma {:induction false} FlattenSnoc<T>(parts: seq<seq<T>>, last: seq<T>)
    ensures Flatten(parts + [last]) == Flatten(parts) + last
  {
    if parts == [] {
      assert Flatten([last]) == last + Flatten([]);
    } else {
      assert (parts + [last])[1..] == parts[1..] + [last];
      FlattenSnoc(parts[1..], last);
    }
  }
}
