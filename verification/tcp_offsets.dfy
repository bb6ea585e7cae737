/** Positions under loss: whatever holes are skipped, and with or without a SYN, `Reassembly` puts every
    segment at its place in the sender's stream, shifted by the offset of the first arrival, exactly as
    long as each arrival starts within half the sequence space of the position reached. */
module TcpOffsets {
  import opened Wrappers
  import opened TcpReassembly
  import TcpCoverage

  /** The sender's sequence number for a segment whose first byte has this offset behind the SYN; a SYN
      on the segment counts as one byte in front of it. */
  function OnWire(isn: u32, offset: int, syn: bool): u32
  {
    (isn + 1 + offset - (if syn then 1 else 0)) % TWO_32
  }

  /** What the sender put into each arrival. */
  ghost predicate SentAs(isn: u32, events: seq<Event>, sent: seq<Segment>)
  {
    var arrivals := Arrivals(events);
    && |sent| == |arrivals|
    && forall i :: 0 <= i < |sent| ==>
         && arrivals[i].Arrive? && arrivals[i].sequence == OnWire(isn, sent[i].at, arrivals[i].syn)
         && arrivals[i].data == sent[i].data && arrivals[i].meta == sent[i].meta
  }

  function Arrivals(events: seq<Event>): seq<Event>
  {
    if events == [] then []
    else Arrivals(events[..|events|-1]) + (if events[|events|-1].Arrive? then [events[|events|-1]] else [])
  }

  /** The position that the next sequence number is unwrapped around. */
  function Reference(s: State): int
  {
    if s.expected.Some? then s.expected.value else 0
  }

  predicate Reaches(s: State, at: int)
  {
    -I32_MAX <= at - Reference(s) <= I32_MAX + 1
  }

  /** Each arrival starts within half the sequence space of the position reached when it comes. The
      stream may be of any length. */
  ghost predicate InReach(events: seq<Event>, sent: seq<Segment>)
    requires |sent| == |Arrivals(events)|
    decreases |events|
  {
    events == [] ||
    var prefix, e := events[..|events|-1], events[|events|-1];
    if e.Arrive? then
      var before, g := sent[..|sent|-1], sent[|sent|-1];
      InReach(prefix, before) && Reaches(Run(prefix).state, g.at - sent[0].at)
    else InReach(prefix, sent)
  }

  /** Every arrival is in the history at its offset behind the first. */
  ghost predicate Placed(t: Trace, sent: seq<Segment>)
  {
    |t.history| == |sent| && forall i :: 0 <= i < |sent| ==>
      t.history[i] == Segment(sent[i].at - sent[0].at, sent[i].data, sent[i].meta)
  }

  /** An arrival lands at its offset behind the first one exactly when that is in reach. */
  lemma Lands(s: State, isn: u32, first: int, offset: int, syn: bool)
    requires s.anchor == Some(OnWire(isn, first, false))
    ensures PositionOf(s, OnWire(isn, offset, syn), syn) == offset - first <==> Reaches(s, offset - first)
  {
    var wire := (OnWire(isn, offset, syn) + if syn then 1 else 0) % TWO_32;
    WireIs(isn, offset, syn);
    var a := (isn + 1 + offset) / TWO_32;
    var b := (isn + 1 + first) / TWO_32;
    assert offset - first - (wire - s.anchor.value) == TWO_32 * (a - b);
    MultipleOf(a - b);
    if Reaches(s, offset - first) {
      UnwrapUnique(s.anchor.value, wire, Reference(s), offset - first);
    }
  }

  lemma WireIs(isn: u32, offset: int, syn: bool)
    ensures (OnWire(isn, offset, syn) + if syn then 1 else 0) % TWO_32 == (isn + 1 + offset) % TWO_32
    ensures OnWire(isn, offset, false) == (isn + 1 + offset) % TWO_32
  {
  }

  lemma PlacedFirst(isn: u32, g: Segment, e: Event)
    requires e.Arrive? && e.sequence == OnWire(isn, g.at, e.syn)
    ensures PositionOf(EMPTY, e.sequence, e.syn) == 0
    ensures PushState(EMPTY, e.sequence, e.syn, e.data, e.meta).0.anchor == Some(OnWire(isn, g.at, false))
  {
    hide StoreState;
    WireIs(isn, g.at, e.syn);
    var first := (e.sequence + if e.syn then 1 else 0) % TWO_32;
    UnwrapUnique(first, first, 0, 0);
    AnchorStays(EMPTY, e);
  }

  lemma AnchorStays(s: State, e: Event)
    requires e.Arrive?
    ensures PushState(s, e.sequence, e.syn, e.data, e.meta).0.anchor == OpenState(s, e.sequence, e.syn).anchor
  {
    hide StoreState, PositionOf;
    var open := OpenState(s, e.sequence, e.syn);
    var position := PositionOf(s, e.sequence, e.syn);
    var start := Stale(open, position, |e.data|);
    var counted := open.(
      retransmittedBytes := open.retransmittedBytes + start,
      lateBytes := if open.gaps > 0 then open.lateBytes + start else open.lateBytes);
    TcpCoverage.StoreOpen(counted, position + start, Chunk(e.data[start..], e.meta, false));
  }

  lemma OpenAnchor(s: State, e: Event)
    requires e.Arrive? && s.anchor.Some?
    ensures OpenState(s, e.sequence, e.syn).anchor == s.anchor
  {
  }

  lemma SentPrefix(isn: u32, events: seq<Event>, sent: seq<Segment>)
    requires SentAs(isn, events, sent) && events != []
    ensures var prefix, e := events[..|events|-1], events[|events|-1];
      if e.Arrive? then
        && sent != [] && SentAs(isn, prefix, sent[..|sent|-1])
        && e.sequence == OnWire(isn, sent[|sent|-1].at, e.syn)
        && e.data == sent[|sent|-1].data && e.meta == sent[|sent|-1].meta
      else SentAs(isn, prefix, sent)
  {
    var prefix, e := events[..|events|-1], events[|events|-1];
    if e.Arrive? {
      var all, before := Arrivals(events), sent[..|sent|-1];
      assert all[|before|] == e;
      assert forall i :: 0 <= i < |before| ==> before[i] == sent[i] && Arrivals(prefix)[i] == all[i];
    } else {
      assert Arrivals(events) == Arrivals(prefix);
    }
  }

  lemma NoneSent(isn: u32, sent: seq<Segment>)
    requires SentAs(isn, [], sent)
    ensures sent == []
  {
  }

  /** The first arrival fixes the anchor for good. */
  lemma {:induction false} AnchorIs(isn: u32, events: seq<Event>, sent: seq<Segment>)
    requires SentAs(isn, events, sent)
    ensures var s := Run(events).state;
      if sent == [] then s == EMPTY && Run(events).history == []
      else s.anchor == Some(OnWire(isn, sent[0].at, false))
    decreases |events|
  {
    hide SentAs, OnWire, PushState, SkipState;
    if events == [] {
      NoneSent(isn, sent);
    } else {
      var prefix, e := events[..|events|-1], events[|events|-1];
      SentPrefix(isn, events, sent);
      if !e.Arrive? {
        AnchorIs(isn, prefix, sent);
        FinishAnchor(Run(prefix).state);
      } else {
        var before := sent[..|sent|-1];
        AnchorIs(isn, prefix, before);
        if before == [] {
          PlacedFirst(isn, sent[0], e);
        } else {
          assert before[0] == sent[0];
          AnchorStays(Run(prefix).state, e);
          OpenAnchor(Run(prefix).state, e);
        }
      }
    }
  }

  lemma {:induction false} PositionIs(isn: u32, events: seq<Event>, sent: seq<Segment>, g: Segment, e: Event)
    requires SentAs(isn, events, sent) && e.Arrive? && e.sequence == OnWire(isn, g.at, e.syn)
    ensures var s, at := Run(events).state, g.at - (sent + [g])[0].at;
      PositionOf(s, e.sequence, e.syn) == at <==> Reaches(s, at)
  {
    hide SentAs, OnWire, Run, PositionOf;
    AnchorIs(isn, events, sent);
    if sent == [] {
      PlacedFirst(isn, g, e);
    } else {
      Lands(Run(events).state, isn, sent[0].at, g.at, e.syn);
    }
  }

  /** Every run, with loss, duplication, reordering, skipped holes and closes: the segments are where the
      sender put them exactly when each was in reach. */
  lemma {:induction false} RunPlaces(isn: u32, events: seq<Event>, sent: seq<Segment>)
    requires SentAs(isn, events, sent)
    ensures Placed(Run(events), sent) <==> InReach(events, sent)
    decreases |events|
  {
    hide SentAs, OnWire, PushState, PositionOf, FinishState, Reaches;
    if events != [] {
      var prefix, e := events[..|events|-1], events[|events|-1];
      SentPrefix(isn, events, sent);
      if e.Arrive? {
        var before, g := sent[..|sent|-1], sent[|sent|-1];
        assert sent == before + [g];
        RunPlaces(isn, prefix, before);
        PositionIs(isn, prefix, before, g, e);
        PlacedStep(Run(prefix), before, g, e);
      } else {
        RunPlaces(isn, prefix, sent);
      }
    } else {
      AnchorIs(isn, events, sent);
    }
  }

  lemma PlacedStep(t: Trace, sent: seq<Segment>, g: Segment, e: Event)
    requires e.Arrive? && e.data == g.data && e.meta == g.meta
    ensures Placed(Step(t, e), sent + [g])
      <==> Placed(t, sent) && PositionOf(t.state, e.sequence, e.syn) == g.at - (sent + [g])[0].at
  {
    hide PositionOf, PushState;
    var all, next := sent + [g], Step(t, e);
    assert next.history == t.history + [Received(t.state, e.sequence, e.syn, e.data, e.meta)];
    if Placed(next, all) {
      forall i | 0 <= i < |sent| ensures t.history[i] == next.history[i] && sent[i] == all[i] {
      }
      assert next.history[|sent|] == Received(t.state, e.sequence, e.syn, e.data, e.meta);
    }
  }

  lemma {:induction false} FinishAnchor(s: State)
    ensures FinishState(s).0.anchor == s.anchor
    decreases |s.pending|
  {
    hide SkipState;
    if s.pending != map[] {
      TcpCoverage.SkipOpen(s);
      SkipShrinks(s);
      FinishAnchor(SkipState(s).0);
    }
  }
}
