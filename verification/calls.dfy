/** The SIP test-call engine: its session table, retransmission timer and RTP counters, over abstract
    messages and an explicit clock in nanoseconds (apps/sip-engine/src/call.rs). */
module Calls {
  import opened Wrappers

  const MS: nat := 1_000_000
  const SECOND: nat := 1_000 * MS
  const RTP_INTERVAL: nat := 20 * MS
  const RTCP_INTERVAL: nat := 5 * SECOND
  const EXPIRY: nat := 32 * SECOND
  const FIRST_RESPONSE: nat := 500 * MS
  const LONGEST_RESPONSE: nat := 4 * SECOND
  const MAX_CALLS: nat := 16
  const TWO_16: nat := 0x1_0000
  const TWO_32: nat := 0x1_0000_0000
  const SAMPLES: nat := 160

  type u16 = x: int | 0 <= x < TWO_16
  type u32 = x: int | 0 <= x < TWO_32

  datatype Address = Address(host: string, port: nat)

  /** A request's headers; `offer` is the media address chosen from an acceptable session description. */
  datatype Message = Message(callId: Option<string>, fromTag: Option<string>, toTag: Option<string>, cseq: Option<u32>,
                             via: Option<string>, offer: Option<Address>)

  datatype Error = MissingCallId | MissingFromTag | InvalidCSeq | MissingVia | Unavailable

  datatype Reply = Reply(status: nat, answer: Option<string>)

  /** What the surroundings contribute to a new call; none when sockets or the response are unavailable. */
  datatype Resources = Resources(answer: string, localTag: string, sequence: u16, timestamp: u32, ssrc: u32)

  datatype CallSession = CallSession(
    callId: string, remoteTag: string, localTag: string, inviteCseq: u32, inviteVia: string, peer: Address,
    answer: string, acked: bool, expiresAt: nat, nextResponse: nat, responseInterval: nat, remoteRtp: Address,
    sequence: u16, timestamp: u32, ssrc: u32, packetCount: u32, octetCount: u32, nextRtp: nat, nextRtcp: nat)

  datatype Sent =
    | Response(answer: string, peer: Address)
    | Rtp(marker: bool, sequence: u16, timestamp: u32, ssrc: u32)
    | Report(ssrc: u32, timestamp: u32, packets: u32, octets: u32)

  // ---------------------------------------------------------------- one session

  /** Which sends of one tick succeed. */
  datatype Sends = Sends(response: bool, rtp: bool, report: bool)

  datatype Step = Ack(now: nat) | Tick(now: nat, sends: Sends)

  datatype Outcome = Outcome(session: CallSession, sent: seq<Sent>, ok: bool)

  function SentRtp(s: CallSession, now: nat): CallSession
  {
    s.(sequence := (s.sequence + 1) % TWO_16, timestamp := (s.timestamp + SAMPLES) % TWO_32,
       packetCount := (s.packetCount + 1) % TWO_32, octetCount := (s.octetCount + SAMPLES) % TWO_32,
       nextRtp := now + RTP_INTERVAL)
  }

  function RtpOf(s: CallSession): Sent
  {
    Rtp(s.packetCount == 0, s.sequence, s.timestamp, s.ssrc)
  }

  function ReportOf(s: CallSession): Sent
  {
    Report(s.ssrc, (s.timestamp - SAMPLES) % TWO_32, s.packetCount, s.octetCount)
  }

  /** The 200 OK again while unacknowledged. */
  function RetransmitStep(s: CallSession, now: nat, sends: Sends): Outcome
  {
    if now < s.nextResponse then Outcome(s, [], true)
    else if !sends.response then Outcome(s, [], false)
    else
      var interval := Min(2 * s.responseInterval, LONGEST_RESPONSE);
      Outcome(s.(responseInterval := interval, nextResponse := now + interval), [Response(s.answer, s.peer)], true)
  }

  function RtpStep(s: CallSession, now: nat, sends: Sends): Outcome
  {
    if now < s.nextRtp then Outcome(s, [], true)
    else if !sends.rtp then Outcome(s, [], false)
    else Outcome(SentRtp(s, now), [RtpOf(s)], true)
  }

  function ReportStep(s: CallSession, now: nat, sends: Sends): Outcome
  {
    if now < s.nextRtcp then Outcome(s, [], true)
    else if !sends.report then Outcome(s, [], false)
    else Outcome(s.(nextRtcp := now + RTCP_INTERVAL), [ReportOf(s)], true)
  }

  function Stepped(s: CallSession, step: Step): Outcome
  {
    match step
    case Ack(now) => Outcome(s.(acked := true, nextRtp := now, nextRtcp := now), [], true)
    case Tick(now, sends) =>
      if !s.acked then RetransmitStep(s, now, sends)
      else
        var media := RtpStep(s, now, sends);
        if !media.ok then media
        else
          var report := ReportStep(media.session, now, sends);
          Outcome(report.session, media.sent + report.sent, report.ok)
  }

  /** A session's past: how it was created, and every acknowledgement and tick since. */
  datatype Life = Life(born: nat, first: CallSession, steps: seq<Step>)

  ghost predicate Fresh(born: nat, s: CallSession)
  {
    && !s.acked && s.expiresAt == born + EXPIRY && s.nextResponse == born + FIRST_RESPONSE
    && s.responseInterval == FIRST_RESPONSE && s.packetCount == 0 && s.octetCount == 0
    && s.nextRtp == born && s.nextRtcp == born
  }

  function Before(life: Life): Life
    requires life.steps != []
  {
    life.(steps := life.steps[..|life.steps|-1])
  }

  function Last(life: Life): Step
    requires life.steps != []
  {
    life.steps[|life.steps|-1]
  }

  function Now(life: Life): CallSession
    decreases |life.steps|
  {
    if life.steps == [] then life.first else Stepped(Now(Before(life)), Last(life)).session
  }

  /** Everything a session has sent. */
  function Emitted(life: Life): seq<Sent>
    decreases |life.steps|
  {
    if life.steps == [] then [] else Emitted(Before(life)) + Stepped(Now(Before(life)), Last(life)).sent
  }

  function Clock(life: Life): nat
  {
    if life.steps == [] then life.born else Last(life).now
  }

  /** Time does not run backwards, and no tick finds the session expired, since it would be dropped. */
  ghost predicate Orderly(life: Life)
    decreases |life.steps|
  {
    && Fresh(life.born, life.first)
    && (life.steps != [] ==>
          && Orderly(Before(life)) && Clock(Before(life)) <= Last(life).now
          && (Last(life).Tick? ==> Now(Before(life)).acked || Now(Before(life)).expiresAt > Last(life).now))
  }

  /** The packets of one kind, in order. */
  function Only(sent: seq<Sent>, kind: Sent -> bool): (r: seq<Sent>)
    ensures forall i :: 0 <= i < |r| ==> kind(r[i])
  {
    if sent == [] then [] else Only(sent[..|sent|-1], kind) + (if kind(sent[|sent|-1]) then [sent[|sent|-1]] else [])
  }

  lemma {:induction false} OnlyAppend(a: seq<Sent>, b: seq<Sent>, kind: Sent -> bool)
    ensures Only(a + b, kind) == Only(a, kind) + Only(b, kind)
    decreases |b|
  {
    if b == [] {
      assert a + b == a;
    } else {
      OnlyAppend(a, b[..|b|-1], kind);
      assert (a + b)[..|a + b|-1] == a + b[..|b|-1];
    }
  }

  const RTPS: Sent -> bool := (p: Sent) => p.Rtp?
  const RESPONSES: Sent -> bool := (p: Sent) => p.Response?

  lemma OnlyOne(p: Sent, kind: Sent -> bool)
    ensures Only([p], kind) == if kind(p) then [p] else []
    ensures Only([], kind) == []
  {
    assert [p][..0] == [];
  }


  // ---------------------------------------------------------------- counters

  /** The counters stand for `n` packets sent since the session began. */
  ghost predicate CountersAt(first: CallSession, s: CallSession, n: nat)
  {
    && s.sequence == (first.sequence + n) % TWO_16 && s.timestamp == (first.timestamp + SAMPLES * n) % TWO_32
    && s.packetCount == n % TWO_32 && s.octetCount == (SAMPLES * n) % TWO_32 && s.ssrc == first.ssrc
  }

  lemma CountersStep(first: CallSession, s: CallSession, n: nat, now: nat)
    requires CountersAt(first, s, n)
    ensures CountersAt(first, SentRtp(s, now), n + 1)
  {
    ModAdd(first.sequence + n, 1, TWO_16);
    ModAdd(first.timestamp + SAMPLES * n, SAMPLES, TWO_32);
    ModAdd(n, 1, TWO_32);
    ModAdd(SAMPLES * n, SAMPLES, TWO_32);
  }

  lemma ModAdd(a: nat, b: nat, m: nat)
    requires m == TWO_16 || m == TWO_32
    ensures (a % m + b) % m == (a + b) % m
  {
  }

  /** The `k`-th packet of a session. */
  function Packet(first: CallSession, k: nat): Sent
  {
    Rtp(k % TWO_32 == 0, (first.sequence + k) % TWO_16, (first.timestamp + SAMPLES * k) % TWO_32, first.ssrc)
  }

  /** The sender report after `c` packets. */
  function ReportAfter(first: CallSession, c: nat): Sent
    requires c > 0
  {
    Report(first.ssrc, (first.timestamp + SAMPLES * (c - 1)) % TWO_32, c % TWO_32, (SAMPLES * c) % TWO_32)
  }

  lemma PacketSent(first: CallSession, s: CallSession, n: nat)
    requires CountersAt(first, s, n)
    ensures RtpOf(s) == Packet(first, n)
    ensures n > 0 ==> ReportOf(s) == ReportAfter(first, n)
  {
    if n > 0 {
      ModSub(first.timestamp + SAMPLES * n);
      assert first.timestamp + SAMPLES * n - SAMPLES == first.timestamp + SAMPLES * (n - 1);
    }
  }

  lemma ModSub(a: nat)
    ensures (a % TWO_32 - SAMPLES) % TWO_32 == (a - SAMPLES) % TWO_32
  {
  }

  /** What one step sends, by kind, and where it leaves the counters. */
  ghost predicate StepCounts(first: CallSession, s: CallSession, step: Step, n: nat)
  {
    var o := Stepped(s, step);
    var sent := Only(o.sent, RTPS);
    && |sent| <= 1 && CountersAt(first, o.session, n + |sent|)
    && (sent == [] || sent == [Packet(first, n)])
    && (|sent| == 1 ==> step.Tick? && s.acked && step.now >= s.nextRtp && o.session.nextRtp == step.now + RTP_INTERVAL)
    && (sent == [] && step.Tick? ==> o.session.nextRtp == s.nextRtp)
  }

  lemma CountStep(first: CallSession, s: CallSession, step: Step, n: nat)
    requires CountersAt(first, s, n)
    ensures StepCounts(first, s, step, n)
  {
    hide CountersAt, Only, SentRtp, Packet;
    var o := Stepped(s, step);
    match step {
      case Ack(now) =>
        CountersSame(first, s, o.session, n);
        OnlyOne(RtpOf(s), RTPS);
      case Tick(now, sends) =>
        if !s.acked {
          CountersSame(first, s, o.session, n);
          OnlyOne(Response(s.answer, s.peer), RTPS);
        } else {
          MediaCount(first, s, now, sends, n);
        }
    }
  }

  lemma CountersSame(first: CallSession, s: CallSession, t: CallSession, n: nat)
    requires CountersAt(first, s, n)
    requires s.sequence == t.sequence && s.timestamp == t.timestamp && s.packetCount == t.packetCount
    requires s.octetCount == t.octetCount && s.ssrc == t.ssrc
    ensures CountersAt(first, t, n)
  {
  }

  lemma MediaCount(first: CallSession, s: CallSession, now: nat, sends: Sends, n: nat)
    requires CountersAt(first, s, n) && s.acked
    ensures StepCounts(first, s, Tick(now, sends), n)
  {
    hide CountersAt, Only, SentRtp, Packet;
    var media := RtpStep(s, now, sends);
    var sentRtp := now >= s.nextRtp && sends.rtp;
    CountersStep(first, s, n, now);
    PacketSent(first, s, n);
    AfterSend(s, now);
    if media.ok {
      var report := ReportStep(media.session, now, sends);
      CountersSame(first, media.session, report.session, if sentRtp then n + 1 else n);
      OnlyAppend(media.sent, report.sent, RTPS);
      OnlyOne(ReportOf(media.session), RTPS);
    }
    OnlyOne(RtpOf(s), RTPS);
  }

  lemma AfterSend(s: CallSession, now: nat)
    ensures SentRtp(s, now).nextRtp == now + RTP_INTERVAL && SentRtp(s, now).acked == s.acked
    ensures SentRtp(s, now).nextRtcp == s.nextRtcp
  {
  }

  lemma FreshCounts(born: nat, s: CallSession)
    requires Fresh(born, s)
    ensures CountersAt(s, s, 0)
  {
    var sequence: u16, timestamp: u32 := s.sequence, s.timestamp;
    assert sequence % TWO_16 == sequence && timestamp % TWO_32 == timestamp;
  }

  /** Over a session's whole life its counters are the start plus the packets sent, modulo their
      widths, and its packets are numbered consecutively from the start. */
  lemma {:induction false} LifeCounts(life: Life)
    requires Orderly(life)
    ensures CountersAt(life.first, Now(life), |Only(Emitted(life), RTPS)|)
    ensures forall k :: 0 <= k < |Only(Emitted(life), RTPS)| ==> Only(Emitted(life), RTPS)[k] == Packet(life.first, k)
    decreases |life.steps|
  {
    hide CountersAt, Only, Packet, Stepped, Fresh;
    if life.steps == [] {
      FreshCounts(life.born, life.first);
      OnlyOne(Response("", Address("", 0)), RTPS);
    } else {
      var before, step := Before(life), Last(life);
      LifeCounts(before);
      CountStep(life.first, Now(before), step, |Only(Emitted(before), RTPS)|);
      OnlyAppend(Emitted(before), Stepped(Now(before), step).sent, RTPS);
    }
  }

  // ---------------------------------------------------------------- media only after the acknowledgement

  ghost predicate Acknowledged(life: Life)
  {
    exists k :: 0 <= k < |life.steps| && life.steps[k].Ack?
  }

  lemma AcknowledgedStep(life: Life)
    requires life.steps != []
    ensures Acknowledged(life) <==> Acknowledged(Before(life)) || Last(life).Ack?
  {
    if Acknowledged(Before(life)) {
      var k :| 0 <= k < |Before(life).steps| && Before(life).steps[k].Ack?;
      assert life.steps[k].Ack?;
    }
    if Acknowledged(life) && !Last(life).Ack? {
      var k :| 0 <= k < |life.steps| && life.steps[k].Ack?;
      assert Before(life).steps[k].Ack?;
    }
  }

  lemma AckedStep(s: CallSession, step: Step)
    ensures Stepped(s, step).session.acked <==> s.acked || step.Ack?
    ensures step.Ack? || !s.acked ==> forall p :: p in Stepped(s, step).sent ==> p.Response?
  {
  }

  /** A session sends RTP or reports only after an acknowledgement, whatever the ticks. */
  lemma {:induction false} NoMediaBeforeAck(life: Life)
    requires Orderly(life)
    ensures Now(life).acked <==> Acknowledged(life)
    ensures !Acknowledged(life) ==> forall p :: p in Emitted(life) ==> p.Response?
    decreases |life.steps|
  {
    hide Stepped, Acknowledged;
    if life.steps == [] {
      assert !Acknowledged(life) by { NothingAcknowledged(life); }
    } else {
      NoMediaBeforeAck(Before(life));
      AcknowledgedStep(life);
      AckedStep(Now(Before(life)), Last(life));
    }
  }

  lemma NothingAcknowledged(life: Life)
    requires life.steps == []
    ensures !Acknowledged(life)
  {
  }

  // ---------------------------------------------------------------- retransmissions

  /** The wait before retransmission `r + 1`, and the earliest moment for it after the call's start. */
  function Interval(r: nat): nat
  {
    if r == 0 then FIRST_RESPONSE else Min(2 * Interval(r - 1), LONGEST_RESPONSE)
  }

  function Due(r: nat): nat
  {
    if r == 0 then FIRST_RESPONSE else Due(r - 1) + Interval(r)
  }

  lemma {:induction false} DueValues(r: nat)
    ensures r == 9 ==> Due(r) == 31 * SECOND + 500 * MS
    ensures r >= 10 ==> Due(r) > EXPIRY
    ensures r >= 3 ==> Interval(r) == LONGEST_RESPONSE
    ensures r >= 3 ==> Due(r) == 7 * SECOND + 500 * MS + LONGEST_RESPONSE * (r - 3)
    decreases r
  {
    if r > 3 {
      DueValues(r - 1);
      assert LONGEST_RESPONSE * (r - 3) == LONGEST_RESPONSE * (r - 4) + LONGEST_RESPONSE;
    } else {
      assert Interval(1) == SECOND && Interval(2) == 2 * SECOND && Interval(3) == 4 * SECOND;
      assert Due(1) == SECOND + 500 * MS && Due(2) == 3 * SECOND + 500 * MS && Due(3) == 7 * SECOND + 500 * MS;
    }
  }

  /** The timer after `r` retransmissions of a call started at `born`. */
  ghost predicate TimerAt(born: nat, s: CallSession, r: nat)
  {
    s.responseInterval == Interval(r) && s.nextResponse >= born + Due(r) && s.expiresAt == born + EXPIRY
  }

  lemma TimerStep(born: nat, s: CallSession, step: Step, r: nat)
    requires TimerAt(born, s, r) && r <= 10 && (step.Tick? ==> s.acked || s.expiresAt > step.now)
    ensures var o := Stepped(s, step);
      && r + |Only(o.sent, RESPONSES)| <= 10 && TimerAt(born, o.session, r + |Only(o.sent, RESPONSES)|)
  {
    hide Only, Due, Interval, SentRtp, RtpOf, ReportOf;
    var o := Stepped(s, step);
    DueStep(r);
    DueValues(r);
    OnlyOne(Response(s.answer, s.peer), RESPONSES);
    if step.Tick? && s.acked {
      MediaTimer(s, step.now, step.sends);
    }
  }

  lemma DueStep(r: nat)
    ensures Interval(r + 1) == Min(2 * Interval(r), LONGEST_RESPONSE) && Due(r + 1) == Due(r) + Interval(r + 1)
  {
  }

  lemma MediaTimer(s: CallSession, now: nat, sends: Sends)
    requires s.acked
    ensures var o := Stepped(s, Tick(now, sends));
      && Only(o.sent, RESPONSES) == [] && o.session.responseInterval == s.responseInterval
      && o.session.nextResponse == s.nextResponse && o.session.expiresAt == s.expiresAt
  {
    hide Only;
    var media := RtpStep(s, now, sends);
    if media.ok {
      OnlyAppend(media.sent, ReportStep(media.session, now, sends).sent, RESPONSES);
      OnlyOne(ReportOf(media.session), RESPONSES);
    }
    OnlyOne(RtpOf(s), RESPONSES);
  }

  lemma FreshTimer(born: nat, s: CallSession)
    requires Fresh(born, s)
    ensures TimerAt(born, s, 0)
  {
  }

  /** A session retransmits its answer at most ten times, on any schedule of ticks. */
  lemma {:induction false} LifeRetransmits(life: Life)
    requires Orderly(life)
    ensures |Only(Emitted(life), RESPONSES)| <= 10
    ensures TimerAt(life.born, Now(life), |Only(Emitted(life), RESPONSES)|)
    decreases |life.steps|
  {
    hide TimerAt, Only, Stepped, Fresh;
    if life.steps == [] {
      FreshTimer(life.born, life.first);
      OnlyOne(Response("", Address("", 0)), RESPONSES);
    } else {
      var before, step := Before(life), Last(life);
      LifeRetransmits(before);
      TimerStep(life.born, Now(before), step, |Only(Emitted(before), RESPONSES)|);
      OnlyAppend(Emitted(before), Stepped(Now(before), step).sent, RESPONSES);
    }
  }

  /** Ticks at the earliest moments retransmit once each. */
  function Eager(born: nat, first: CallSession, n: nat): Life
  {
    Life(born, first, seq(n, i requires 0 <= i < n => Tick(born + Due(i), Sends(true, true, true))))
  }

  lemma {:induction false} DueOrder(r: nat)
    ensures Due(r) <= Due(r + 1)
    ensures r <= 9 ==> Due(r) < EXPIRY
    decreases r
  {
    hide Due, Interval;
    DueValues(r);
    DueStep(r);
    if r < 3 {
      DueEarly();
    }
  }

  lemma DueEarly()
    ensures Due(0) < EXPIRY && Due(1) < EXPIRY && Due(2) < EXPIRY
  {
    assert Due(0) == 500 * MS && Due(1) == SECOND + 500 * MS && Due(2) == 3 * SECOND + 500 * MS;
  }

  /** The bound is attained: eager ticks retransmit ten times before the call expires. */
  lemma {:induction false} TenAttained(born: nat, first: CallSession, n: nat)
    requires Fresh(born, first) && n <= 10
    ensures Orderly(Eager(born, first, n)) && |Only(Emitted(Eager(born, first, n)), RESPONSES)| == n
    ensures var s := Now(Eager(born, first, n));
      !s.acked && s.nextResponse == born + Due(n) && s.responseInterval == Interval(n) && s.expiresAt == born + EXPIRY
    decreases n
  {
    hide Only, Due, Interval;
    var life := Eager(born, first, n);
    if n == 0 {
      assert Due(0) == FIRST_RESPONSE && Interval(0) == FIRST_RESPONSE by { EagerStart(); }
      OnlyOne(Response("", Address("", 0)), RESPONSES);
    } else {
      TenAttained(born, first, n - 1);
      assert Before(life) == Eager(born, first, n - 1);
      DueStep(n - 1);
      DueOrder(n - 1);
      if n > 1 {
        DueOrder(n - 2);
      } else {
        assert Due(0) == FIRST_RESPONSE by { EagerStart(); }
      }
      var s := Now(Before(life));
      OnlyOne(Response(s.answer, s.peer), RESPONSES);
      OnlyAppend(Emitted(Before(life)), Stepped(s, Last(life)).sent, RESPONSES);
    }
  }

  lemma EagerStart()
    ensures Due(0) == FIRST_RESPONSE && Interval(0) == FIRST_RESPONSE
  {
  }

  // ---------------------------------------------------------------- reports and pacing

  /** Each report counts exactly the packets sent before it, of which there is at least one. */
  ghost predicate Accurate(first: CallSession, sent: seq<Sent>)
  {
    forall p :: 0 <= p < |sent| && sent[p].Report? ==> AccurateAt(first, sent, p)
  }

  ghost predicate AccurateAt(first: CallSession, sent: seq<Sent>, p: nat)
    requires p < |sent|
  {
    var c := |Only(sent[..p], RTPS)|;
    c > 0 && sent[p] == ReportAfter(first, c)
  }

  lemma {:induction false} AccurateSnoc(first: CallSession, sent: seq<Sent>, p: Sent)
    requires Accurate(first, sent)
    requires p.Report? ==> |Only(sent, RTPS)| > 0 && p == ReportAfter(first, |Only(sent, RTPS)|)
    ensures Accurate(first, sent + [p])
  {
    hide Only, ReportAfter;
    var more := sent + [p];
    forall q | 0 <= q < |more| && more[q].Report? ensures AccurateAt(first, more, q) {
      assert more[..q] == sent[..q];
      if q < |sent| {
        assert AccurateAt(first, sent, q);
      } else {
        assert sent[..q] == sent;
      }
    }
  }

  lemma {:induction false} ReportStepAccurate(first: CallSession, s: CallSession, sent: seq<Sent>, now: nat,
                                              sends: Sends)
    requires Accurate(first, sent) && s.acked && CountersAt(first, s, |Only(sent, RTPS)|)
    requires |Only(sent, RTPS)| == 0 ==> s.nextRtp <= s.nextRtcp
    ensures Accurate(first, sent + Stepped(s, Tick(now, sends)).sent)
  {
    hide Only, CountersAt, SentRtp, Packet, Accurate, ReportAfter;
    var n := |Only(sent, RTPS)|;
    var media := RtpStep(s, now, sends);
    PacketSent(first, s, n);
    CountersStep(first, s, n, now);
    AfterSend(s, now);
    OnlyOne(RtpOf(s), RTPS);
    OnlyAppend(sent, [RtpOf(s)], RTPS);
    AccurateSnoc(first, sent, RtpOf(s));
    assert sent + [] == sent;
    var paid := sent + media.sent;
    if media.ok && now >= s.nextRtcp && sends.report {
      var c := |Only(paid, RTPS)|;
      PacketSent(first, media.session, c);
      AccurateSnoc(first, paid, ReportOf(media.session));
      assert paid + [ReportOf(media.session)] == sent + (media.sent + [ReportOf(media.session)]);
    } else {
      assert media.sent + [] == media.sent;
    }
  }

  /** Until a packet is sent, the first packet is due no later than the first report. */
  lemma DueFirst(s: CallSession, step: Step)
    requires s.nextRtp <= s.nextRtcp && Only(Stepped(s, step).sent, RTPS) == []
    ensures Stepped(s, step).session.nextRtp <= Stepped(s, step).session.nextRtcp
  {
    hide Only, SentRtp;
    if step.Tick? && s.acked {
      var media := RtpStep(s, step.now, step.sends);
      OnlyOne(RtpOf(s), RTPS);
      if media.ok {
        OnlyAppend(media.sent, ReportStep(media.session, step.now, step.sends).sent, RTPS);
      }
    }
  }

  lemma {:induction false} LifeReports(life: Life)
    requires Orderly(life)
    ensures Accurate(life.first, Emitted(life))
    ensures Only(Emitted(life), RTPS) == [] ==> Now(life).nextRtp <= Now(life).nextRtcp
    decreases |life.steps|
  {
    hide Only, Stepped, CountersAt, Packet, Accurate;
    if life.steps == [] {
      NoReports(life.first);
    } else {
      var before, step := Before(life), Last(life);
      var s := Now(before);
      LifeReports(before);
      LifeCounts(before);
      OnlyAppend(Emitted(before), Stepped(s, step).sent, RTPS);
      if Only(Stepped(s, step).sent, RTPS) == [] && Only(Emitted(before), RTPS) == [] {
        DueFirst(s, step);
      }
      if step.Tick? && s.acked {
        ReportStepAccurate(life.first, s, Emitted(before), step.now, step.sends);
      } else {
        AnswersOnly(s, step);
        if Stepped(s, step).sent == [] {
          assert Emitted(life) == Emitted(before);
        } else {
          AccurateSnoc(life.first, Emitted(before), Stepped(s, step).sent[0]);
          assert Emitted(life) == Emitted(before) + [Stepped(s, step).sent[0]];
        }
      }
    }
  }

  lemma NoReports(first: CallSession)
    ensures Accurate(first, [])
  {
  }

  lemma AnswersOnly(s: CallSession, step: Step)
    requires !(step.Tick? && s.acked)
    ensures var sent := Stepped(s, step).sent; sent == [] || (|sent| == 1 && sent[0].Response?)
  {
  }

  /** When the last acknowledgement came, and the packets sent since. */
  function SinceAck(life: Life): (p: (nat, nat))
    decreases |life.steps|
  {
    if life.steps == [] then (life.born, 0)
    else if Last(life).Ack? then (Last(life).now, 0)
    else (SinceAck(Before(life)).0,
      SinceAck(Before(life)).1 + |Only(Stepped(Now(Before(life)), Last(life)).sent, RTPS)|)
  }

  /** At most one packet per 20 ms since the last acknowledgement, plus the first. */
  lemma {:induction false} LifePaced(life: Life)
    requires Orderly(life)
    ensures var (since, n) := SinceAck(life);
      && Now(life).nextRtp >= since + RTP_INTERVAL * n
      && (n > 0 ==> Clock(life) >= since + RTP_INTERVAL * (n - 1))
    decreases |life.steps|
  {
    hide Only, Stepped, CountersAt, StepCounts;
    if life.steps != [] {
      var before, step := Before(life), Last(life);
      LifePaced(before);
      LifeCounts(before);
      PaceStep(life.first, Now(before), step, |Only(Emitted(before), RTPS)|);
    }
  }

  lemma PaceStep(first: CallSession, s: CallSession, step: Step, n: nat)
    requires CountersAt(first, s, n)
    ensures var m := |Only(Stepped(s, step).sent, RTPS)|;
      && m <= 1
      && (m == 1 ==> step.Tick? && step.now >= s.nextRtp && Stepped(s, step).session.nextRtp == step.now + RTP_INTERVAL)
      && (m == 0 && step.Tick? ==> Stepped(s, step).session.nextRtp == s.nextRtp)
      && (step.Ack? ==> Stepped(s, step).session.nextRtp == step.now)
  {
    hide Only, CountersAt;
    CountStep(first, s, step, n);
  }

  // ---------------------------------------------------------------- the session table

  ghost predicate Distinct(sessions: seq<CallSession>)
  {
    forall i, j :: 0 <= i < j < |sessions| ==> sessions[i].callId != sessions[j].callId
  }

  /** A session of the table and its past. */
  ghost predicate Lived(life: Life, s: CallSession, clock: nat)
  {
    Orderly(life) && Now(life) == s && Clock(life) <= clock && life.first.callId == s.callId
  }

  predicate MatchesInvite(s: CallSession, m: Message, peer: Address)
  {
    m.callId == Some(s.callId) && m.fromTag == Some(s.remoteTag) && m.cseq == Some(s.inviteCseq)
      && m.via == Some(s.inviteVia)
    && s.peer == peer
  }

  predicate MatchesAck(s: CallSession, m: Message, peer: Address)
  {
    m.callId == Some(s.callId) && s.peer == peer && m.fromTag == Some(s.remoteTag) && m.toTag == Some(s.localTag)
    && m.cseq == Some(s.inviteCseq)
  }

  predicate MatchesBye(s: CallSession, m: Message, peer: Address)
  {
    m.callId == Some(s.callId) && s.peer == peer && m.fromTag == Some(s.remoteTag) && m.toTag == Some(s.localTag)
    && m.cseq.Some? && m.cseq.value > s.inviteCseq
  }

  /** The first session that satisfies a condition. */
  function Position(sessions: seq<CallSession>, matches: CallSession -> bool): (p: Option<nat>)
    ensures p.Some? ==> p.value < |sessions| && matches(sessions[p.value])
    ensures p.None? ==> forall i :: 0 <= i < |sessions| ==> !matches(sessions[i])
  {
    if sessions == [] then None
    else if matches(sessions[0]) then Some(0)
    else
      var p := Position(sessions[1..], matches);
      if p.Some? then Some(p.value + 1) else None
  }

  function NewSession(m: Message, peer: Address, now: nat, res: Resources): (s: CallSession)
    requires Callable(m)
    ensures Fresh(now, s) && s.callId == m.callId.value
  {
    CallSession(m.callId.value, m.fromTag.value, res.localTag, m.cseq.value, m.via.value, peer, res.answer,
                false, now + EXPIRY, now + FIRST_RESPONSE, FIRST_RESPONSE, m.offer.value,
                res.sequence, res.timestamp, res.ssrc, 0, 0, now, now)
  }

  datatype Decision = Refuse(error: Error) | Say(reply: Reply) | Accept

  predicate Carries(s: CallSession, callId: string)
  {
    s.callId == callId
  }

  /** What an INVITE is answered with. */
  function Decide(sessions: seq<CallSession>, m: Message, peer: Address, available: bool): (d: Decision)
    ensures d.Accept? ==> Callable(m) && available
    ensures d.Accept? ==>
      |sessions| < MAX_CALLS && forall i :: 0 <= i < |sessions| ==> sessions[i].callId != m.callId.value
  {
    if m.callId.None? then Refuse(MissingCallId)
    else if m.fromTag.None? then Refuse(MissingFromTag)
    else if m.cseq.None? then Refuse(InvalidCSeq)
    else if m.via.None? then Refuse(MissingVia)
    else
      var same := Position(sessions, (s: CallSession) => MatchesInvite(s, m, peer));
      if same.Some? then Say(Reply(200, Some(sessions[same.value].answer)))
      else if |sessions| >= MAX_CALLS || Position(sessions, (s: CallSession) => Carries(s, m.callId.value)).Some?
        then Say(Reply(486, None))
      else if m.offer.None? then Say(Reply(488, None))
      else if !available then Refuse(Unavailable)
      else Accept
  }

  /** The INVITE carries everything a new call needs. */
  predicate Callable(m: Message)
  {
    m.callId.Some? && m.fromTag.Some? && m.cseq.Some? && m.via.Some? && m.offer.Some?
  }

  predicate SameDialog(s: CallSession, t: CallSession)
  {
    && s.callId == t.callId && s.remoteTag == t.remoteTag && s.localTag == t.localTag && s.inviteCseq == t.inviteCseq
    && s.inviteVia == t.inviteVia && s.peer == t.peer && s.answer == t.answer
  }

  /** Acknowledgements and ticks never change who a session talks to, or its answer. */
  lemma {:induction false} DialogStays(life: Life)
    ensures SameDialog(Now(life), life.first)
    decreases |life.steps|
  {
    if life.steps != [] {
      DialogStays(Before(life));
      StepDialog(Now(Before(life)), Last(life));
      hide Stepped;
    }
  }

  lemma StepDialog(s: CallSession, step: Step)
    ensures SameDialog(Stepped(s, step).session, s)
  {
  }

  lemma {:induction false} PositionUnique(sessions: seq<CallSession>, matches: CallSession -> bool, i: nat)
    requires i < |sessions| && matches(sessions[i])
    requires forall j :: 0 <= j < |sessions| && matches(sessions[j]) ==> j == i
    ensures Position(sessions, matches) == Some(i)
  {
    var p := Position(sessions, matches);
    assert p.Some? && p.value == i;
  }

  /** As long as a call is in the table, whatever happened to it and to the others, its INVITE sent again
      gets the first answer again and changes nothing, table full or not. */
  lemma InviteIdempotent(sessions: seq<CallSession>, i: nat, life: Life, clock: nat, m: Message, peer: Address,
                         res: Resources, available: bool)
    requires Distinct(sessions) && i < |sessions| && Lived(life, sessions[i], clock)
    requires Callable(m) && life.first == NewSession(m, peer, life.born, res)
    ensures Decide(sessions, m, peer, available) == Say(Reply(200, Some(res.answer)))
  {
    hide Orderly;
    DialogStays(life);
    PositionUnique(sessions, (s: CallSession) => MatchesInvite(s, m, peer), i);
  }

  /** As long as a call is in the table, the acknowledgement of its answer finds it, and so does a BYE
      with a greater number, but no BYE whose number does not exceed the INVITE's. */
  lemma {:induction false} DialogFound(sessions: seq<CallSession>, i: nat, life: Life, clock: nat, m: Message,
                                       peer: Address, res: Resources, number: u32)
    requires Distinct(sessions) && i < |sessions| && Lived(life, sessions[i], clock)
    requires Callable(m) && life.first == NewSession(m, peer, life.born, res)
    ensures var ack := m.(toTag := Some(res.localTag));
      var bye := ack.(cseq := Some(number));
      && Position(sessions, (s: CallSession) => MatchesAck(s, ack, peer)) == Some(i)
      && Position(sessions, (s: CallSession) => MatchesBye(s, bye, peer))
        == (if number > m.cseq.value then Some(i) else None)
  {
    hide Orderly;
    DialogStays(life);
    var ack := m.(toTag := Some(res.localTag));
    var bye := ack.(cseq := Some(number));
    var byes := (s: CallSession) => MatchesBye(s, bye, peer);
    PositionUnique(sessions, (s: CallSession) => MatchesAck(s, ack, peer), i);
    if number > m.cseq.value {
      PositionUnique(sessions, byes, i);
    } else {
      forall j | 0 <= j < |sessions| ensures !byes(sessions[j]) {
        assert j != i ==> sessions[j].callId != sessions[i].callId;
      }
    }
  }

  /** The sessions a tick keeps: acknowledged, or not yet expired. */
  function Retained(sessions: seq<CallSession>, now: nat): (kept: seq<CallSession>)
    ensures |kept| <= |sessions|
    ensures forall s :: s in kept <==> s in sessions && (s.acked || s.expiresAt > now)
  {
    if sessions == [] then []
    else
      var last := sessions[|sessions|-1];
      Retained(sessions[..|sessions|-1], now) + (if last.acked || last.expiresAt > now then [last] else [])
  }

  lemma {:induction false} RetainedDistinct(sessions: seq<CallSession>, now: nat)
    requires Distinct(sessions)
    ensures Distinct(Retained(sessions, now))
    decreases |sessions|
  {
    if sessions != [] {
      var front, last := sessions[..|sessions|-1], sessions[|sessions|-1];
      RetainedDistinct(front, now);
      var kept := Retained(front, now);
      forall i | 0 <= i < |kept| ensures kept[i].callId != last.callId {
        assert kept[i] in front;
      }
    }
  }

  /** How many sessions a tick reaches: up to and including the first whose send fails. */
  function Reached(kept: seq<CallSession>, now: nat, sends: nat -> Sends, i: nat): (n: nat)
    requires i <= |kept|
    ensures i <= n <= |kept|
    ensures forall k :: i <= k < n - 1 ==> Stepped(kept[k], Tick(now, sends(k))).ok
    ensures n < |kept| ==> n > i && !Stepped(kept[n - 1], Tick(now, sends(n - 1))).ok
    decreases |kept| - i
  {
    if i == |kept| then i
    else if !Stepped(kept[i], Tick(now, sends(i))).ok then i + 1
    else Reached(kept, now, sends, i + 1)
  }

  function Ticked(kept: seq<CallSession>, now: nat, sends: nat -> Sends, n: nat): (t: seq<CallSession>)
    requires n <= |kept|
    ensures |t| == |kept|
  {
    seq(|kept|, i requires 0 <= i < |kept| => if i < n then Stepped(kept[i], Tick(now, sends(i))).session else kept[i])
  }

  function SentBy(kept: seq<CallSession>, now: nat, sends: nat -> Sends, n: nat): seq<Sent>
    requires n <= |kept|
  {
    if n == 0 then [] else SentBy(kept, now, sends, n - 1) + Stepped(kept[n - 1], Tick(now, sends(n - 1))).sent
  }

  function Grown(life: Life, step: Step): Life
  {
    life.(steps := life.steps + [step])
  }

  lemma {:induction false} LivedStep(life: Life, s: CallSession, clock: nat, step: Step)
    requires Lived(life, s, clock) && clock <= step.now && (step.Tick? ==> s.acked || s.expiresAt > step.now)
    ensures Lived(Grown(life, step), Stepped(s, step).session, step.now)
    ensures Emitted(Grown(life, step)) == Emitted(life) + Stepped(s, step).sent
  {
    hide Fresh, Stepped;
    assert Before(Grown(life, step)) == life;
    SameCall(s, step);
  }

  class CallEngine {
    var sessions: seq<CallSession>
    ghost var lives: map<string, Life>
    ghost var clock: nat

    /** The table's invariant over every run: at most 16 calls, no two with one Call-ID, and each
        session the outcome of an orderly life. */
    ghost predicate Valid()
      reads this
    {
      && |sessions| <= MAX_CALLS && Distinct(sessions)
      && TableLives(lives, sessions, clock)
    }

    constructor (ghost now: nat)
      ensures Valid() && sessions == [] && clock == now
    {
      sessions, lives, clock := [], map[], now;
    }

    method Invite(m: Message, peer: Address, now: nat, resources: Option<Resources>) returns (r: Result<Reply, Error>)
      requires Valid() && now >= clock
      modifies this
      ensures Valid() && clock == now
      ensures var d := Decide(old(sessions), m, peer, resources.Some?);
        && (d.Refuse? ==> r == Err(d.error))
        && (d.Say? ==> r == Ok(d.reply))
        && (!d.Accept? ==> sessions == old(sessions) && lives == old(lives))
        && (d.Accept? ==> r == Ok(Reply(200, Some(resources.value.answer))))
        && (d.Accept? ==> sessions == old(sessions) + [NewSession(m, peer, now, resources.value)])
        && (d.Accept? ==>
          lives == old(lives)[m.callId.value := Life(now, NewSession(m, peer, now, resources.value), [])])
    {
      hide Position, Lived, NewSession, TableLives, Distinct;
      ClockAdvances(sessions, lives, clock, now);
      clock := now;
      if m.callId.None? { return Err(MissingCallId); }
      if m.fromTag.None? { return Err(MissingFromTag); }
      if m.cseq.None? { return Err(InvalidCSeq); }
      if m.via.None? { return Err(MissingVia); }
      var same := Position(sessions, (s: CallSession) => MatchesInvite(s, m, peer));
      if same.Some? {
        return Ok(Reply(200, Some(sessions[same.value].answer)));
      }
      if |sessions| >= MAX_CALLS || Position(sessions, (s: CallSession) => Carries(s, m.callId.value)).Some? {
        return Ok(Reply(486, None));
      }
      if m.offer.None? { return Ok(Reply(488, None)); }
      if resources.None? { return Err(Unavailable); }
      var entry := NewSession(m, peer, now, resources.value);
      LifeBegins(entry, now);
      Joined(sessions, lives, clock, entry, Life(now, entry, []));
      lives := lives[entry.callId := Life(now, entry, [])];
      sessions := sessions + [entry];
      return Ok(Reply(200, Some(resources.value.answer)));
    }

    /** Starts the media of the session it acknowledges; anything else is ignored. */
    method Acknowledge(m: Message, peer: Address, now: nat)
      requires Valid() && now >= clock
      modifies this
      ensures Valid() && clock == now
      ensures var p := Position(old(sessions), (s: CallSession) => MatchesAck(s, m, peer));
        && (p.None? ==> sessions == old(sessions) && lives == old(lives))
        && (p.Some? ==> sessions == old(sessions)[p.value := Stepped(old(sessions)[p.value], Ack(now)).session])
        && (p.Some? ==> var id := old(sessions)[p.value].callId;
                        id in old(lives) && lives == old(lives)[id := Grown(old(lives)[id], Ack(now))])
    {
      hide Position, Lived, TableLives, Distinct;
      var p := Position(sessions, (s: CallSession) => MatchesAck(s, m, peer));
      if p.Some? {
        var s := sessions[p.value];
        TableAt(lives, sessions, clock, p.value);
        LivedStep(lives[s.callId], s, clock, Ack(now));
        ghost var grown := Grown(lives[s.callId], Ack(now));
        ClockAdvances(sessions, lives, clock, now);
        Replaced(sessions, lives, now, p.value, s.(acked := true, nextRtp := now, nextRtcp := now), grown);
        sessions := sessions[p.value := s.(acked := true, nextRtp := now, nextRtcp := now)];
        lives := lives[s.callId := grown];
      } else {
        ClockAdvances(sessions, lives, clock, now);
      }
      clock := now;
    }

    /** Ends exactly the session it names, and says goodbye on its control channel. */
    method Bye(m: Message, peer: Address) returns (status: nat, goodbye: Option<u32>)
      requires Valid()
      modifies this`sessions
      ensures Valid()
      ensures var p := Position(old(sessions), (s: CallSession) => MatchesBye(s, m, peer));
        && (p.None? ==> status == 481 && goodbye == None && sessions == old(sessions))
        && (p.Some? ==> status == 200 && goodbye == Some(old(sessions)[p.value].ssrc))
        && (p.Some? ==> sessions == old(sessions)[..p.value] + old(sessions)[p.value + 1..])
    {
      hide Position, Lived, TableLives, Distinct;
      var index := Position(sessions, (s: CallSession) => MatchesBye(s, m, peer));
      if index.None? {
        return 481, None;
      }
      var session := sessions[index.value];
      Left(sessions, lives, clock, index.value);
      sessions := sessions[..index.value] + sessions[index.value + 1..];
      return 200, Some(session.ssrc);
    }

    /** Answers whether the INVITE to cancel is known; nothing changes. */
    method Cancel(m: Message, peer: Address) returns (status: nat)
      requires Valid()
      ensures status == 200 <==> exists i :: 0 <= i < |sessions| && MatchesInvite(sessions[i], m, peer)
      ensures status == 200 || status == 481
    {
      var matched := Position(sessions, (s: CallSession) => MatchesInvite(s, m, peer));
      status := if matched.Some? then 200 else 481;
    }

    /** One session's part of a tick. */
    method TickSession(s: CallSession, now: nat, sends: Sends) returns (o: Outcome)
      ensures o == Stepped(s, Tick(now, sends))
    {
      var session, sent := s, [];
      if !session.acked {
        if now >= session.nextResponse {
          if !sends.response { return Outcome(session, sent, false); }
          sent := sent + [Response(session.answer, session.peer)];
          session := session.(responseInterval := Min(2 * session.responseInterval, LONGEST_RESPONSE));
          session := session.(nextResponse := now + session.responseInterval);
        }
        return Outcome(session, sent, true);
      }
      if now >= session.nextRtp {
        if !sends.rtp { return Outcome(session, sent, false); }
        sent := sent + [Rtp(session.packetCount == 0, session.sequence, session.timestamp, session.ssrc)];
        session := session.(sequence := (session.sequence + 1) % TWO_16);
        session := session.(timestamp := (session.timestamp + SAMPLES) % TWO_32);
        session := session.(packetCount := (session.packetCount + 1) % TWO_32);
        session := session.(octetCount := (session.octetCount + SAMPLES) % TWO_32);
        session := session.(nextRtp := now + RTP_INTERVAL);
      }
      if now >= session.nextRtcp {
        if !sends.report { return Outcome(session, sent, false); }
        var before := (session.timestamp - SAMPLES) % TWO_32;
        sent := sent + [Report(session.ssrc, before, session.packetCount, session.octetCount)];
        session := session.(nextRtcp := now + RTCP_INTERVAL);
      }
      return Outcome(session, sent, true);
    }

    /** Drops expired unacknowledged calls, then serves the others in order until a send fails. */
    method TickAll(now: nat, sends: nat -> Sends) returns (ok: bool, sent: seq<Sent>)
      requires Valid() && now >= clock
      modifies this
      ensures Valid() && clock == now
      ensures var kept := Retained(old(sessions), now);
        var n := Reached(kept, now, sends, 0);
        && sessions == Ticked(kept, now, sends, n) && sent == SentBy(kept, now, sends, n)
        && (ok <==> forall i :: 0 <= i < |kept| ==> Stepped(kept[i], Tick(now, sends(i))).ok)
        && LivesGrown(old(lives), lives, kept, now, sends, n)
    {
      hide Lived, Stepped, Reached, Served, Recorded, TableLives, Retained, Ticked, SentBy, LivesGrown, Distinct, Grown;
      ghost var before := lives;
      sessions, clock := Retained(sessions, now), now;
      ghost var kept := sessions;
      KeptRecorded(old(sessions), lives, old(clock), now, sends);
      sent, ok := [], true;
      ServedNothing(kept, now, sends);
      var i := 0;
      while i < |sessions| && ok
        invariant i <= |kept| && Served(kept, now, sends, i, sessions, sent, ok)
        invariant Recorded(before, lives, kept, sessions, now, sends, i)
        invariant |sessions| == |kept| <= MAX_CALLS && clock == now
        decreases |sessions| - i, ok
      {
        ServedAt(kept, now, sends, i, sessions, sent);
        var o := TickSession(sessions[i], now, sends(i));
        ServedStep(kept, now, sends, i, sessions, sent);
        RecordedStep(before, lives, kept, sessions, now, sends, i);
        lives := lives[kept[i].callId := Grown(lives[kept[i].callId], Tick(now, sends(i)))];
        sessions := sessions[i := o.session];
        sent := sent + o.sent;
        ok := o.ok;
        i := i + 1;
      }
      ServedAll(kept, now, sends, i, sessions, sent, ok);
      RecordedAll(before, lives, kept, sessions, now, sends, i);
    }
  }

  /** A tick has served the first `i` sessions; `ok` when every send so far succeeded. */
  ghost predicate Served(kept: seq<CallSession>, now: nat, sends: nat -> Sends, i: nat,
                         sessions: seq<CallSession>, sent: seq<Sent>, ok: bool)
    requires i <= |kept|
  {
    && sessions == Ticked(kept, now, sends, i) && sent == SentBy(kept, now, sends, i)
    && (ok ==> Reached(kept, now, sends, 0) == Reached(kept, now, sends, i))
    && (!ok ==> Reached(kept, now, sends, 0) == i && i > 0 && !Stepped(kept[i - 1], Tick(now, sends(i - 1))).ok)
    && (ok ==> forall k :: 0 <= k < i ==> Stepped(kept[k], Tick(now, sends(k))).ok)
  }

  lemma ServedNothing(kept: seq<CallSession>, now: nat, sends: nat -> Sends)
    ensures Served(kept, now, sends, 0, kept, [], true)
  {
    hide Stepped, Reached;
  }

  lemma ServedAt(kept: seq<CallSession>, now: nat, sends: nat -> Sends, i: nat, sessions: seq<CallSession>,
                 sent: seq<Sent>)
    requires i < |kept| && Served(kept, now, sends, i, sessions, sent, true)
    ensures i < |sessions| && sessions[i] == kept[i]
  {
    hide Stepped, Reached;
  }

  lemma ServedStep(kept: seq<CallSession>, now: nat, sends: nat -> Sends, i: nat, sessions: seq<CallSession>,
                   sent: seq<Sent>)
    requires i < |kept| && |sessions| == |kept| && Served(kept, now, sends, i, sessions, sent, true)
    ensures var o := Stepped(kept[i], Tick(now, sends(i)));
      Served(kept, now, sends, i + 1, sessions[i := o.session], sent + o.sent, o.ok)
  {
    hide Stepped;
    var o := Stepped(kept[i], Tick(now, sends(i)));
    assert Ticked(kept, now, sends, i + 1) == sessions[i := o.session];
  }

  lemma {:induction false} ServedAll(kept: seq<CallSession>, now: nat, sends: nat -> Sends, i: nat,
                                     sessions: seq<CallSession>, sent: seq<Sent>, ok: bool)
    requires i <= |kept| && Served(kept, now, sends, i, sessions, sent, ok) && (i == |kept| || !ok)
    ensures i == Reached(kept, now, sends, 0)
    ensures sessions == Ticked(kept, now, sends, i) && sent == SentBy(kept, now, sends, i)
    ensures ok <==> forall k :: 0 <= k < |kept| ==> Stepped(kept[k], Tick(now, sends(k))).ok
  {
    hide Stepped, Ticked, SentBy;
  }

  /** The table and its lives while a tick is under way. */
  ghost predicate Recorded(before: map<string, Life>, lives: map<string, Life>, kept: seq<CallSession>,
                           sessions: seq<CallSession>, now: nat, sends: nat -> Sends, i: nat)
    requires i <= |kept|
  {
    && |sessions| == |kept| && Distinct(sessions) && Distinct(kept) && TableLives(lives, sessions, now)
    && (forall k :: 0 <= k < |kept| ==> kept[k].acked || kept[k].expiresAt > now)
    && (forall k :: i <= k < |kept| ==> sessions[k] == kept[k])
    && LivesGrown(before, lives, kept, now, sends, i)
  }

  lemma {:induction false} KeptRecorded(sessions: seq<CallSession>, lives: map<string, Life>, clock: nat, now: nat,
                                        sends: nat -> Sends)
    requires clock <= now && Distinct(sessions) && TableLives(lives, sessions, clock)
    ensures var kept := Retained(sessions, now);
      Recorded(lives, lives, kept, kept, now, sends, 0)
  {
    hide Retained, Lived;
    RetainedDistinct(sessions, now);
    ClockAdvances(sessions, lives, clock, now);
    var kept := Retained(sessions, now);
    forall k | 0 <= k < |kept| ensures InLives(lives, kept[k], now) && (kept[k].acked || kept[k].expiresAt > now) {
      assert kept[k] in kept;
    }
  }

  lemma RecordedStep(before: map<string, Life>, lives: map<string, Life>, kept: seq<CallSession>,
                     sessions: seq<CallSession>, now: nat, sends: nat -> Sends, i: nat)
    requires i < |kept| && Recorded(before, lives, kept, sessions, now, sends, i)
    ensures kept[i].callId in lives
    ensures var step := Tick(now, sends(i));
      Recorded(before, lives[kept[i].callId := Grown(lives[kept[i].callId], step)], kept,
               sessions[i := Stepped(kept[i], step).session], now, sends, i + 1)
  {
    hide Stepped, LivesGrown, TableLives, Distinct, Lived, Grown;
    var step := Tick(now, sends(i));
    TableAt(lives, sessions, now, i);
    LivedStep(lives[kept[i].callId], kept[i], now, step);
    SameCall(kept[i], step);
    Replaced(sessions, lives, now, i, Stepped(kept[i], step).session, Grown(lives[kept[i].callId], step));
    GrownStep(before, lives, kept, now, sends, i);
  }

  lemma RecordedAll(before: map<string, Life>, lives: map<string, Life>, kept: seq<CallSession>,
                    sessions: seq<CallSession>, now: nat, sends: nat -> Sends, i: nat)
    requires i <= |kept| && Recorded(before, lives, kept, sessions, now, sends, i)
    ensures Distinct(sessions) && TableLives(lives, sessions, now) && LivesGrown(before, lives, kept, now, sends, i)
  {
  }

  /** A tick adds to the life of each session it reaches exactly the step it took, and to no other. */
  ghost predicate LivesGrown(before: map<string, Life>, after: map<string, Life>, kept: seq<CallSession>, now: nat,
                             sends: nat -> Sends, n: nat)
    requires n <= |kept|
  {
    && (forall i :: 0 <= i < |kept| ==> kept[i].callId in before && kept[i].callId in after)
    && (forall i :: 0 <= i < n ==> after[kept[i].callId] == Grown(before[kept[i].callId], Tick(now, sends(i))))
    && (forall i :: n <= i < |kept| ==> after[kept[i].callId] == before[kept[i].callId])
  }

  lemma GrownStep(before: map<string, Life>, after: map<string, Life>, kept: seq<CallSession>, now: nat,
                  sends: nat -> Sends, i: nat)
    requires i < |kept| && Distinct(kept) && LivesGrown(before, after, kept, now, sends, i)
    ensures LivesGrown(before, after[kept[i].callId := Grown(after[kept[i].callId], Tick(now, sends(i)))], kept, now,
      sends, i + 1)
  {
  }

  ghost predicate InLives(lives: map<string, Life>, s: CallSession, clock: nat)
  {
    s.callId in lives && Lived(lives[s.callId], s, clock)
  }

  ghost predicate TableLives(lives: map<string, Life>, sessions: seq<CallSession>, clock: nat)
  {
    forall i :: 0 <= i < |sessions| ==> InLives(lives, sessions[i], clock)
  }

  lemma TableAt(lives: map<string, Life>, sessions: seq<CallSession>, clock: nat, i: nat)
    requires i < |sessions| && TableLives(lives, sessions, clock)
    ensures sessions[i].callId in lives && Lived(lives[sessions[i].callId], sessions[i], clock)
  {
    hide Lived;
  }

  lemma ClockAdvances(sessions: seq<CallSession>, lives: map<string, Life>, clock: nat, now: nat)
    requires clock <= now && TableLives(lives, sessions, clock)
    ensures TableLives(lives, sessions, now)
    ensures forall s :: s in sessions ==> InLives(lives, s, now)
  {
  }

  lemma LifeBegins(s: CallSession, now: nat)
    requires Fresh(now, s)
    ensures Lived(Life(now, s, []), s, now)
  {
  }

  /** A session with a new Call-ID joins the table. */
  lemma Joined(sessions: seq<CallSession>, lives: map<string, Life>, clock: nat, s: CallSession, life: Life)
    requires Distinct(sessions) && TableLives(lives, sessions, clock) && Lived(life, s, clock)
    requires forall i :: 0 <= i < |sessions| ==> sessions[i].callId != s.callId
    ensures Distinct(sessions + [s]) && TableLives(lives[s.callId := life], sessions + [s], clock)
  {
    hide Lived;
    var more := sessions + [s];
    forall i | 0 <= i < |more| ensures InLives(lives[s.callId := life], more[i], clock) {
      if i < |sessions| {
        assert InLives(lives, sessions[i], clock);
      }
    }
  }

  /** A session leaves the table. */
  lemma Left(sessions: seq<CallSession>, lives: map<string, Life>, clock: nat, p: nat)
    requires p < |sessions| && Distinct(sessions) && TableLives(lives, sessions, clock)
    ensures Distinct(sessions[..p] + sessions[p + 1..]) && TableLives(lives, sessions[..p] + sessions[p + 1..], clock)
  {
    hide Lived;
    var fewer := sessions[..p] + sessions[p + 1..];
    forall i | 0 <= i < |fewer| ensures InLives(lives, fewer[i], clock) {
      assert fewer[i] == sessions[if i < p then i else i + 1];
    }
  }

  /** Replacing one session and its life keeps the table. */
  lemma Replaced(sessions: seq<CallSession>, lives: map<string, Life>, clock: nat, p: nat, s: CallSession, life: Life)
    requires p < |sessions| && Distinct(sessions) && TableLives(lives, sessions, clock)
    requires s.callId == sessions[p].callId && Lived(life, s, clock)
    ensures Distinct(sessions[p := s]) && TableLives(lives[s.callId := life], sessions[p := s], clock)
  {
    hide Lived;
    var changed := sessions[p := s];
    forall i | 0 <= i < |changed| ensures InLives(lives[s.callId := life], changed[i], clock) {
      if i != p {
        assert InLives(lives, sessions[i], clock);
      }
    }
  }

  lemma SameCall(s: CallSession, step: Step)
    ensures Stepped(s, step).session.callId == s.callId
  {
  }

  /** In every reachable table, each session has sent no media before its acknowledgement, at most ten
      retransmissions, consecutively numbered packets, and reports that count them. */
  lemma {:induction false} EverySession(life: Life, s: CallSession, clock: nat)
    requires Lived(life, s, clock)
    ensures !s.acked ==> forall p :: p in Emitted(life) ==> p.Response?
    ensures |Only(Emitted(life), RESPONSES)| <= 10
    ensures CountersAt(life.first, s, |Only(Emitted(life), RTPS)|) && Accurate(life.first, Emitted(life))
    ensures forall k :: 0 <= k < |Only(Emitted(life), RTPS)| ==> Only(Emitted(life), RTPS)[k] == Packet(life.first, k)
  {
    hide Stepped, Only, CountersAt, Accurate, Packet, Acknowledged, TimerAt;
    NoMediaBeforeAck(life);
    LifeRetransmits(life);
    LifeCounts(life);
    LifeReports(life);
  }
}
