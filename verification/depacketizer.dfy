/** H.264 RTP depacketization: single NAL units, STAP-A and FU-A (sections 5.6, 5.7.1 and 5.8 of
    RFC 6184), as coded in crates/h264/src/packetization.rs. */
module RtpDepacketizer {
  import opened Wrappers

  const TWO_16: int := 0x1_0000

  type u16 = x: int | 0 <= x < TWO_16

  datatype Packet = Packet(sequence: u16, timestamp: nat, marker: bool, payload: seq<byte>)

  datatype Nalu = Nalu(data: seq<byte>, timestamp: nat, first: u16, last: u16, complete: bool, marker: bool)

  datatype Kind =
    EmptyPayload | Unsupported | StapLength | FuHeader | MissingEnd | TimestampChanged | SequenceGap | MissingStart

  datatype Issue = Issue(kind: Kind, sequence: u16, timestamp: nat)

  datatype Assembly = Assembly(timestamp: nat, first: u16, last: u16, data: seq<byte>, broken: bool)

  datatype State = State(current: Option<Assembly>, issues: seq<Issue>)

  const INITIAL: State := State(None, [])

  // ---------------------------------------------------------------- header bits

  /** The low five bits of a header byte. */
  function TypeOf(b: int): int
  {
    b % 32
  }

  /** The high three bits of a header byte, in place. */
  function HighBits(b: byte): (h: int)
    ensures 0 <= h <= 224 && h % 32 == 0
  {
    b / 32 * 32
  }

  predicate StartBit(b: byte)
  {
    b >= 128
  }

  predicate EndBit(b: byte)
  {
    b / 64 % 2 == 1
  }

  /** The NAL unit header rebuilt from the FU indicator and the FU header. */
  function Rebuilt(indicator: byte, header: byte): byte
  {
    HighBits(indicator) + TypeOf(header)
  }

  function Next16(s: u16): u16
  {
    (s + 1) % TWO_16
  }

  // ---------------------------------------------------------------- transitions

  function Complain(s: State, kind: Kind, p: Packet): State
  {
    s.(issues := s.issues + [Issue(kind, p.sequence, p.timestamp)])
  }

  function Finished(a: Assembly, complete: bool, marker: bool): Nalu
  {
    Nalu(a.data, a.timestamp, a.first, a.last, complete, marker)
  }

  /** An assembly that never saw its end is given up and reported. */
  function Abandon(s: State): (State, seq<Nalu>)
  {
    if s.current.None? then (s, [])
    else
      var a := s.current.value;
      (State(None, s.issues + [Issue(MissingEnd, a.last, a.timestamp)]), [Finished(a, false, false)])
  }

  function PushState(s: State, p: Packet): (State, seq<Nalu>)
  {
    if p.payload == [] then (Complain(s, EmptyPayload, p), [])
    else
      var kind := TypeOf(p.payload[0]);
      if 1 <= kind <= 23 then (s, [Nalu(p.payload, p.timestamp, p.sequence, p.sequence, true, p.marker)])
      else if kind == 24 then
        var (nalus, ok) := Aggregated(p, 1);
        (if ok then s else Complain(s, StapLength, p), nalus)
      else if kind == 28 then FragmentState(s, p)
      else (Complain(s, Unsupported, p), [])
  }

  /** The units of an aggregation packet from `cursor` on, and whether the packet ends properly. */
  function Aggregated(p: Packet, cursor: nat): (r: (seq<Nalu>, bool))
    requires cursor <= |p.payload|
    decreases |p.payload| - cursor
  {
    if cursor == |p.payload| then ([], true)
    else if cursor + 2 > |p.payload| then ([], false)
    else
      var length := Be16(p.payload[cursor], p.payload[cursor + 1]);
      var end := cursor + 2 + length;
      if length == 0 || end > |p.payload| then ([], false)
      else
        var (more, ok) := Aggregated(p, end);
        ([Nalu(p.payload[cursor + 2..end], p.timestamp, p.sequence, p.sequence, true,
          p.marker && end == |p.payload|)] + more, ok)
  }

  /** What a middle or end fragment does to the assembly it continues. */
  function Extended(a: Assembly, p: Packet): Assembly
    requires |p.payload| >= 2
  {
    a.(last := p.sequence,
       data := a.data + p.payload[2..],
       broken := a.broken || a.timestamp != p.timestamp || p.sequence != Next16(a.last))
  }

  function ExtendState(s: State, p: Packet): State
    requires s.current.Some? && |p.payload| >= 2
  {
    var a := s.current.value;
    var moved := State(Some(Extended(a, p)), s.issues);
    var timed := if a.timestamp != p.timestamp then Complain(moved, TimestampChanged, p) else moved;
    if p.sequence != Next16(a.last) then Complain(timed, SequenceGap, p) else timed
  }

  function StartState(s: State, p: Packet): (State, seq<Nalu>)
    requires |p.payload| >= 2
  {
    var (given, out) := Abandon(s);
    (given.(current := Some(Assembly(p.timestamp, p.sequence, p.sequence,
       [Rebuilt(p.payload[0], p.payload[1])] + p.payload[2..], false))), out)
  }

  function FragmentState(s: State, p: Packet): (State, seq<Nalu>)
    requires p.payload != []
  {
    if |p.payload| < 2 then (Complain(s, FuHeader, p), [])
    else if !StartBit(p.payload[1]) && s.current.None? then (Complain(s, MissingStart, p), [])
    else
      var (moved, out) := if StartBit(p.payload[1]) then StartState(s, p) else (ExtendState(s, p), []);
      if EndBit(p.payload[1]) then
        var a := moved.current.value;
        (moved.(current := None), out + [Finished(a, !a.broken, p.marker)])
      else (moved, out)
  }

  // ---------------------------------------------------------------- whole runs

  datatype Run = Run(state: State, nalus: seq<Nalu>)

  function PushAll(r: Run, ps: seq<Packet>): Run
    decreases |ps|
  {
    if ps == [] then r
    else
      var (next, more) := PushState(r.state, ps[0]);
      PushAll(Run(next, r.nalus + more), ps[1..])
  }

  lemma {:induction false} PushAllConcat(r: Run, a: seq<Packet>, b: seq<Packet>)
    ensures PushAll(r, a + b) == PushAll(PushAll(r, a), b)
    decreases |a|
  {
    hide PushState;
    if a == [] {
      assert a + b == b;
    } else {
      assert (a + b)[1..] == a[1..] + b;
      var (next, more) := PushState(r.state, a[0]);
      PushAllConcat(Run(next, r.nalus + more), a[1..], b);
    }
  }

  // ---------------------------------------------------------------- the sender

  /** How one or more NAL units are put into packets of one timestamp. */
  datatype Plan =
    | Single(nalu: seq<byte>)
    | Aggregate(units: seq<seq<byte>>)
    | Fragments(header: byte, bodies: seq<seq<byte>>)

  /** Single packets carry types 1 to 23; aggregated units have 1 to 65535 bytes; fragmented units
      have at least two fragments, none of them empty. */
  predicate Proper(plan: Plan)
  {
    match plan
    case Single(nalu) => nalu != [] && 1 <= TypeOf(nalu[0]) <= 23
    case Aggregate(units) => forall i :: 0 <= i < |units| ==> 0 < |units[i]| < TWO_16
    case Fragments(header, bodies) => |bodies| >= 2 && forall i :: 0 <= i < |bodies| ==> bodies[i] != []
  }

  function Joined(bodies: seq<seq<byte>>): seq<byte>
  {
    if bodies == [] then [] else Joined(bodies[..|bodies|-1]) + bodies[|bodies|-1]
  }

  /** The NAL units a plan carries. */
  function Units(plan: Plan): seq<seq<byte>>
  {
    match plan
    case Single(nalu) => [nalu]
    case Aggregate(units) => units
    case Fragments(header, bodies) => [[header] + Joined(bodies)]
  }

  function Width(plan: Plan): nat
  {
    if plan.Fragments? then |plan.bodies| else 1
  }

  function StapBody(units: seq<seq<byte>>): seq<byte>
    requires forall i :: 0 <= i < |units| ==> 0 < |units[i]| < TWO_16
  {
    if units == [] then []
    else [|units[0]| / 256, |units[0]| % 256] + units[0] + StapBody(units[1..])
  }

  /** FU indicator and FU header of fragment `i` of `n`. */
  function FuHeaders(header: byte, i: nat, n: nat): seq<byte>
  {
    [HighBits(header) + 28,
     TypeOf(header) + (if i == 0 then 128 else 0) + (if i + 1 == n then 64 else 0)]
  }

  /** The `i`-th packet of a plan. */
  function PacketOf(plan: Plan, i: nat, sequence: u16, timestamp: nat, marker: bool): Packet
    requires Proper(plan) && i < Width(plan)
  {
    match plan
    case Single(nalu) => Packet(sequence, timestamp, marker, nalu)
    case Aggregate(units) => Packet(sequence, timestamp, marker, [24] + StapBody(units))
    case Fragments(header, bodies) =>
      Packet(sequence, timestamp, marker && i + 1 == |bodies|, FuHeaders(header, i, |bodies|) + bodies[i])
  }

  // ---------------------------------------------------------------- one plan, in order

  /** The units of one packet; the marker goes to the last. */
  function UnitNalus(units: seq<seq<byte>>, timestamp: nat, q: u16, marker: bool): (nalus: seq<Nalu>)
    ensures |nalus| == |units|
    ensures forall i :: 0 <= i < |units| ==>
      nalus[i] == Nalu(units[i], timestamp, q, q, true, marker && i + 1 == |units|)
  {
    if units == [] then []
    else [Nalu(units[0], timestamp, q, q, true, marker && |units| == 1)] + UnitNalus(units[1..], timestamp, q, marker)
  }

  /** The units a receiver should get back from a plan sent from sequence number `q` on. */
  function Delivered(plan: Plan, q: u16, timestamp: nat, marker: bool): seq<Nalu>
  {
    match plan
    case Single(nalu) => [Nalu(nalu, timestamp, q, q, true, marker)]
    case Aggregate(units) =>
      UnitNalus(units, timestamp, q, marker)
    case Fragments(header, bodies) =>
      [Nalu([header] + Joined(bodies), timestamp, q, (q + |bodies| - 1) % TWO_16, true, marker)]
  }

  function PlanPackets(plan: Plan, q: u16, timestamp: nat, marker: bool): seq<Packet>
    requires Proper(plan)
  {
    seq(Width(plan), i requires 0 <= i < Width(plan) => PacketOf(plan, i, (q + i) % TWO_16, timestamp, marker))
  }

  lemma HeaderBits(header: byte, i: nat, n: nat)
    requires 0 < n && i < n
    ensures var h := FuHeaders(header, i, n);
      && |h| == 2 && TypeOf(h[0]) == 28
      && (StartBit(h[1]) <==> i == 0) && (EndBit(h[1]) <==> i + 1 == n)
      && Rebuilt(h[0], h[1]) == header
  {
  }

  /** Reading back an aggregation body from any position in the packet. */
  lemma {:induction false} AggregateReads(p: Packet, cursor: nat, units: seq<seq<byte>>)
    requires forall i :: 0 <= i < |units| ==> 0 < |units[i]| < TWO_16
    requires cursor <= |p.payload| && p.payload[cursor..] == StapBody(units)
    ensures Aggregated(p, cursor) == (UnitNalus(units, p.timestamp, p.sequence, p.marker), true)
    decreases |units|
  {
    hide StapBody, Be16;
    if units != [] {
      StapHead(p.payload, cursor, units);
      AggregateReads(p, cursor + 2 + |units[0]|, units[1..]);
    } else {
      StapBodyEmpty(units);
      assert |p.payload[cursor..]| == 0;
    }
  }

  lemma {:induction false} StapHead(payload: seq<byte>, cursor: nat, units: seq<seq<byte>>)
    requires units != [] && forall i :: 0 <= i < |units| ==> 0 < |units[i]| < TWO_16
    requires cursor <= |payload| && payload[cursor..] == StapBody(units)
    ensures var end := cursor + 2 + |units[0]|;
      && end <= |payload| && Be16(payload[cursor], payload[cursor + 1]) == |units[0]|
      && payload[cursor + 2..end] == units[0] && payload[end..] == StapBody(units[1..])
      && (end == |payload| <==> |units| == 1)
  {
    var tail := payload[cursor..];
    var u, rest := units[0], StapBody(units[1..]);
    assert tail == [|u| / 256, |u| % 256] + u + rest;
    assert payload[cursor] == tail[0] && payload[cursor + 1] == tail[1];
    assert payload[cursor + 2..cursor + 2 + |u|] == tail[2..2 + |u|];
    assert payload[cursor + 2 + |u|..] == tail[2 + |u|..];
    StapBodyEmpty(units[1..]);
  }

  lemma {:induction false} StapBodyEmpty(units: seq<seq<byte>>)
    requires forall i :: 0 <= i < |units| ==> 0 < |units[i]| < TWO_16
    ensures StapBody(units) == [] <==> units == []
  {
  }

  lemma PushSingleOrAggregate(s: State, plan: Plan, q: u16, timestamp: nat, marker: bool)
    requires Proper(plan) && !plan.Fragments?
    ensures PushState(s, PacketOf(plan, 0, q, timestamp, marker)) == (s, Delivered(plan, q, timestamp, marker))
  {
    if plan.Aggregate? {
      var p := PacketOf(plan, 0, q, timestamp, marker);
      assert p.payload[1..] == StapBody(plan.units);
      AggregateReads(p, 1, plan.units);
    }
  }

  /** An unbroken assembly of the first `n` fragments of a plan. */
  ghost predicate Building(a: Assembly, header: byte, bodies: seq<seq<byte>>, n: nat, q: u16, timestamp: nat)
  {
    && 0 < n <= |bodies| && !a.broken && a.timestamp == timestamp
    && a.first == q && a.last == (q + n - 1) % TWO_16
    && a.data == [header] + Joined(bodies[..n])
  }

  lemma JoinedMore(bodies: seq<seq<byte>>, n: nat)
    requires n < |bodies|
    ensures Joined(bodies[..n + 1]) == Joined(bodies[..n]) + bodies[n]
  {
    var more := bodies[..n + 1];
    assert more[..|more|-1] == bodies[..n];
  }

  /** Fragment `i` of a plan is taken in as such. */
  lemma FragmentSeen(s: State, header: byte, bodies: seq<seq<byte>>, i: nat, p: Packet)
    requires Proper(Fragments(header, bodies)) && i < |bodies|
    requires p.payload == FuHeaders(header, i, |bodies|) + bodies[i]
    ensures |p.payload| > 2 && p.payload[2..] == bodies[i]
    ensures StartBit(p.payload[1]) <==> i == 0
    ensures EndBit(p.payload[1]) <==> i + 1 == |bodies|
    ensures Rebuilt(p.payload[0], p.payload[1]) == header
    ensures PushState(s, p) == FragmentState(s, p)
  {
    HeaderBits(header, i, |bodies|);
  }

  lemma PushFirst(s: State, header: byte, bodies: seq<seq<byte>>, p: Packet)
    requires Proper(Fragments(header, bodies)) && p.payload == FuHeaders(header, 0, |bodies|) + bodies[0]
    ensures var (next, out) := PushState(s, p);
      && next.current.Some? && (next.issues, out) == (Abandon(s).0.issues, Abandon(s).1)
      && Building(next.current.value, header, bodies, 1, p.sequence, p.timestamp)
  {
    FragmentSeen(s, header, bodies, 0, p);
    JoinedMore(bodies, 0);
    hide PushState, StartBit, EndBit, Rebuilt, FuHeaders;
    assert Joined(bodies[..0]) == [];
    assert [header] + bodies[0] == [header] + ([] + bodies[0]);
  }

  lemma PushLater(s: State, header: byte, bodies: seq<seq<byte>>, i: nat, q: u16, p: Packet)
    requires Proper(Fragments(header, bodies)) && 0 < i < |bodies|
    requires p.payload == FuHeaders(header, i, |bodies|) + bodies[i]
    requires s.current.Some? && Building(s.current.value, header, bodies, i, q, p.timestamp)
    requires p.sequence == (q + i) % TWO_16
    ensures var (next, out) := PushState(s, p);
      && next.issues == s.issues
      && (i + 1 < |bodies| ==>
        out == [] && next.current.Some? && Building(next.current.value, header, bodies, i + 1, q, p.timestamp))
      && (i + 1 == |bodies| ==>
        next.current.None? && out == Delivered(Fragments(header, bodies), q, p.timestamp, p.marker))
  {
    hide PushState, StartBit, EndBit, Rebuilt, FuHeaders, Joined, Building;
    FragmentSeen(s, header, bodies, i, p);
    BuildingGrows(s, header, bodies, i, q, p);
    if i + 1 == |bodies| {
      BuildingDone(ExtendState(s, p).current.value, header, bodies, q, p.timestamp);
    }
  }

  /** The next fragment of a plan extends its assembly without complaint. */
  lemma BuildingGrows(s: State, header: byte, bodies: seq<seq<byte>>, i: nat, q: u16, p: Packet)
    requires i < |bodies| && |p.payload| > 2 && p.payload[2..] == bodies[i] && p.sequence == (q + i) % TWO_16
    requires s.current.Some? && Building(s.current.value, header, bodies, i, q, p.timestamp)
    ensures ExtendState(s, p).issues == s.issues && ExtendState(s, p).current.Some?
    ensures Building(ExtendState(s, p).current.value, header, bodies, i + 1, q, p.timestamp)
  {
    var a := s.current.value;
    JoinedMore(bodies, i);
    hide Joined;
    assert Next16(a.last) == (q + i) % TWO_16;
    assert a.data + bodies[i] == [header] + (Joined(bodies[..i]) + bodies[i]);
  }

  lemma {:induction false} BuildingDone(a: Assembly, header: byte, bodies: seq<seq<byte>>, q: u16, timestamp: nat)
    requires Building(a, header, bodies, |bodies|, q, timestamp)
    ensures !a.broken && a.first == q && a.last == (q + |bodies| - 1) % TWO_16 && a.timestamp == timestamp
    ensures a.data == [header] + Joined(bodies)
  {
    assert bodies[..|bodies|] == bodies;
  }

  /** Fragments `i` and on of a plan, in order. */
  lemma {:induction false} FragmentsRoundTrip(r: Run, header: byte, bodies: seq<seq<byte>>, i: nat, q: u16,
                                              timestamp: nat, marker: bool)
    requires var plan := Fragments(header, bodies); Proper(plan) && 0 < i < |bodies|
    requires r.state.current.Some? && Building(r.state.current.value, header, bodies, i, q, timestamp)
    ensures var plan := Fragments(header, bodies);
      PushAll(r, PlanPackets(plan, q, timestamp, marker)[i..])
      == Run(State(None, r.state.issues), r.nalus + Delivered(plan, q, timestamp, marker))
    decreases |bodies| - i
  {
    hide PushState, Building, Delivered;
    var plan := Fragments(header, bodies);
    var ps := PlanPackets(plan, q, timestamp, marker);
    var p := PacketOf(plan, i, (q + i) % TWO_16, timestamp, marker);
    assert ps[i] == p;
    PushLater(r.state, header, bodies, i, q, p);
    var (next, out) := PushState(r.state, p);
    assert ps[i..][1..] == ps[i + 1..] && ps[i..][0] == p;
    if i + 1 < |bodies| {
      assert r.nalus + [] == r.nalus;
      FragmentsRoundTrip(Run(next, r.nalus), header, bodies, i + 1, q, timestamp, marker);
    } else {
      assert ps[i + 1..] == [];
      DeliveredMarker(plan, q, timestamp, marker, p.marker);
    }
  }

  lemma DeliveredMarker(plan: Plan, q: u16, timestamp: nat, a: bool, b: bool)
    requires a == b
    ensures Delivered(plan, q, timestamp, a) == Delivered(plan, q, timestamp, b)
  {
  }

  lemma FirstSequence(q: u16)
    ensures (q + 0) % TWO_16 == q
  {
  }

  /** Packetise, then depacketise: any plan sent in order from any sequence number, wrap included,
      gives back its units, complete, with the right sequence numbers, and no issue. */
  lemma {:induction false} PlanRoundTrip(r: Run, plan: Plan, q: u16, timestamp: nat, marker: bool)
    requires Proper(plan) && r.state.current.None?
    ensures PushAll(r, PlanPackets(plan, q, timestamp, marker))
      == Run(r.state, r.nalus + Delivered(plan, q, timestamp, marker))
  {
    hide PushState, Building, Delivered;
    var ps := PlanPackets(plan, q, timestamp, marker);
    if plan.Fragments? {
      var p := ps[0];
      assert p == PacketOf(plan, 0, q, timestamp, marker) by { FirstSequence(q); }
      PushFirst(r.state, plan.header, plan.bodies, p);
      var next := PushState(r.state, p).0;
      assert r.nalus + [] == r.nalus;
      FragmentsRoundTrip(Run(next, r.nalus), plan.header, plan.bodies, 1, q, timestamp, marker);
    } else {
      PushSingleOrAggregate(r.state, plan, q, timestamp, marker);
      assert ps[1..] == [] && ps[0] == PacketOf(plan, 0, q, timestamp, marker);
    }
  }

  datatype Sending = Sending(plan: Plan, timestamp: nat, marker: bool)

  function TotalWidth(sent: seq<Sending>): nat
  {
    if sent == [] then 0 else Width(sent[0].plan) + TotalWidth(sent[1..])
  }

  ghost predicate AllProper(sent: seq<Sending>)
  {
    forall k :: 0 <= k < |sent| ==> Proper(sent[k].plan)
  }

  function Packets(sent: seq<Sending>, q: u16): seq<Packet>
    requires AllProper(sent)
  {
    if sent == [] then []
    else
      PlanPackets(sent[0].plan, q, sent[0].timestamp, sent[0].marker)
      + Packets(sent[1..], (q + Width(sent[0].plan)) % TWO_16)
  }

  function AllDelivered(sent: seq<Sending>, q: u16): seq<Nalu>
  {
    if sent == [] then []
    else
      Delivered(sent[0].plan, q, sent[0].timestamp, sent[0].marker)
      + AllDelivered(sent[1..], (q + Width(sent[0].plan)) % TWO_16)
  }

  /** Pushing all packets of the plans adds their units and nothing else. */
  ghost predicate RoundTrips(r: Run, sent: seq<Sending>, q: u16)
    requires AllProper(sent)
  {
    PushAll(r, Packets(sent, q)) == Run(r.state, r.nalus + AllDelivered(sent, q))
  }

  lemma NothingRoundTrips(r: Run, q: u16)
    ensures RoundTrips(r, [], q)
  {
    assert r.nalus + [] == r.nalus;
  }

  lemma ProperTail(sent: seq<Sending>)
    requires AllProper(sent) && sent != []
    ensures AllProper(sent[1..])
  {
    hide Proper;
  }

  lemma StreamStep(r: Run, sent: seq<Sending>, q: u16)
    requires AllProper(sent) && sent != [] && r.state.current.None?
    requires var first := sent[0];
      RoundTrips(Run(r.state, r.nalus + Delivered(first.plan, q, first.timestamp, first.marker)), sent[1..],
                 (q + Width(first.plan)) % TWO_16)
    ensures RoundTrips(r, sent, q)
  {
    hide Delivered, PlanPackets, Proper, PushAll, Width;
    var first, later := sent[0], (q + Width(sent[0].plan)) % TWO_16;
    PlanRoundTrip(r, first.plan, q, first.timestamp, first.marker);
    PushAllConcat(r, PlanPackets(first.plan, q, first.timestamp, first.marker), Packets(sent[1..], later));
    var out := Delivered(first.plan, q, first.timestamp, first.marker);
    assert r.nalus + out + AllDelivered(sent[1..], later) == r.nalus + (out + AllDelivered(sent[1..], later));
  }

  /** The same for a whole stream of plans. */
  lemma {:induction false} StreamRoundTrip(r: Run, sent: seq<Sending>, q: u16)
    requires AllProper(sent) && r.state.current.None?
    ensures RoundTrips(r, sent, q)
    decreases |sent|
  {
    hide RoundTrips, AllProper, Delivered, Width, Proper;
    if sent == [] {
      NothingRoundTrips(r, q);
    } else {
      ProperTail(sent);
      var first := sent[0];
      StreamRoundTrip(Run(r.state, r.nalus + Delivered(first.plan, q, first.timestamp, first.marker)), sent[1..],
                      (q + Width(first.plan)) % TWO_16);
      StreamStep(r, sent, q);
    }
  }

  // ---------------------------------------------------------------- loss, duplication and reordering

  /** One packet of a sent stream: the `i`-th packet of a plan. */
  datatype Slot = Slot(plan: Plan, i: nat, timestamp: nat, marker: bool)

  function SlotsOf(sent: seq<Sending>): seq<Slot>
  {
    if sent == [] then []
    else
      var first := sent[0];
      seq(Width(first.plan), i requires 0 <= i < Width(first.plan) =>
        Slot(first.plan, i, first.timestamp, first.marker))
      + SlotsOf(sent[1..])
  }

  /** Slot `j` belongs to a proper plan and follows the slot of the packet before it. */
  predicate SlotOk(slots: seq<Slot>, j: nat)
    requires j < |slots|
  {
    && Proper(slots[j].plan) && slots[j].i < Width(slots[j].plan)
    && (slots[j].i > 0 ==> j > 0 && slots[j - 1] == slots[j].(i := slots[j].i - 1))
  }

  /** The packets of a plan are consecutive. */
  ghost predicate WellSlotted(slots: seq<Slot>)
  {
    forall j: nat :: j < |slots| ==> SlotOk(slots, j)
  }

  lemma {:induction false} SlotsWellSlotted(sent: seq<Sending>)
    requires AllProper(sent)
    ensures WellSlotted(SlotsOf(sent))
    decreases |sent|
  {
    hide Proper, Width;
    if sent != [] {
      SlotsWellSlotted(sent[1..]);
      var n, later, all := Width(sent[0].plan), SlotsOf(sent[1..]), SlotsOf(sent);
      forall j: nat | j < |all| ensures SlotOk(all, j) {
        if j >= n {
          assert SlotOk(later, j - n);
        }
      }
    }
  }

  ghost function PacketAt(slots: seq<Slot>, q: u16, j: nat): Packet
    requires WellSlotted(slots) && j < |slots|
  {
    assert SlotOk(slots, j);
    PacketOf(slots[j].plan, slots[j].i, (q + j) % TWO_16, slots[j].timestamp, slots[j].marker)
  }

  /** The unit, with its timestamp, sequence numbers and marker, is one the sender put into the stream. */
  ghost predicate Genuine(n: Nalu, slots: seq<Slot>, q: u16)
  {
    exists j :: 0 <= j < |slots| && SentAt(n, slots[j], (q + j - slots[j].i) % TWO_16)
  }

  predicate SentAt(n: Nalu, slot: Slot, first: u16)
  {
    n in Delivered(slot.plan, first, slot.timestamp, slot.marker)
  }

  ghost predicate AllGenuine(nalus: seq<Nalu>, slots: seq<Slot>, q: u16)
  {
    forall k :: 0 <= k < |nalus| ==> nalus[k].complete ==> Genuine(nalus[k], slots, q)
  }

  /** An unbroken assembly consists of the fragments of one plan up to slot `j`. */
  ghost predicate UpTo(a: Assembly, slots: seq<Slot>, q: u16, j: nat)
  {
    && j < |slots| && slots[j].plan.Fragments? && slots[j].i + 1 < |slots[j].plan.bodies|
    && Building(a, slots[j].plan.header, slots[j].plan.bodies, slots[j].i + 1, (q + j - slots[j].i) % TWO_16,
      slots[j].timestamp)
  }

  ghost predicate Good(s: State, slots: seq<Slot>, q: u16)
  {
    s.current.Some? && !s.current.value.broken ==> exists j :: UpTo(s.current.value, slots, q, j)
  }

  lemma ConsecutiveSlots(q: u16, j: nat, l: nat)
    requires j < TWO_16 && l < TWO_16 && (q + j) % TWO_16 == Next16((q + l) % TWO_16)
    ensures j == l + 1 || (j == 0 && l == TWO_16 - 1)
  {
  }

  lemma ArriveWhole(s: State, slots: seq<Slot>, q: u16, j: nat)
    requires WellSlotted(slots) && j < |slots| && !slots[j].plan.Fragments? && Good(s, slots, q)
    ensures var (next, out) := PushState(s, PacketAt(slots, q, j)); Good(next, slots, q) && AllGenuine(out, slots, q)
  {
    var slot := slots[j];
    assert SlotOk(slots, j);
    PushSingleOrAggregate(s, slot.plan, (q + j) % TWO_16, slot.timestamp, slot.marker);
    hide Delivered, PushState;
    var out := Delivered(slot.plan, (q + j) % TWO_16, slot.timestamp, slot.marker);
    forall k | 0 <= k < |out| ensures Genuine(out[k], slots, q) {
      assert SentAt(out[k], slots[j], (q + j - slots[j].i) % TWO_16);
    }
  }

  lemma ArriveFirst(s: State, slots: seq<Slot>, q: u16, j: nat)
    requires WellSlotted(slots) && j < |slots| && slots[j].plan.Fragments? && slots[j].i == 0
    ensures var (next, out) := PushState(s, PacketAt(slots, q, j)); Good(next, slots, q) && AllGenuine(out, slots, q)
  {
    var slot := slots[j];
    assert SlotOk(slots, j);
    PushFirst(s, slot.plan.header, slot.plan.bodies, PacketAt(slots, q, j));
    hide PushState, Building, FuHeaders;
    var next := PushState(s, PacketAt(slots, q, j)).0;
    assert UpTo(next.current.value, slots, q, j);
  }

  /** A later fragment either continues exactly the preceding one or breaks the assembly. */
  lemma ArriveLater(s: State, slots: seq<Slot>, q: u16, j: nat)
    requires WellSlotted(slots) && |slots| <= TWO_16 && j < |slots| && slots[j].plan.Fragments? && slots[j].i > 0
    requires Good(s, slots, q)
    ensures var (next, out) := PushState(s, PacketAt(slots, q, j)); Good(next, slots, q) && AllGenuine(out, slots, q)
  {
    var slot := slots[j];
    assert SlotOk(slots, j);
    var p := PacketAt(slots, q, j);
    FragmentSeen(s, slot.plan.header, slot.plan.bodies, slot.i, p);
    hide FuHeaders, StartBit, EndBit, PushState, Rebuilt;
    if s.current.Some? && !s.current.value.broken {
      var a := s.current.value;
      var l: nat :| UpTo(a, slots, q, l);
      LastSequence(a, slots, q, l);
      hide Building, UpTo;
      if a.timestamp == p.timestamp && p.sequence == Next16(a.last) {
        ConsecutiveSlots(q, j, l);
        assert slots[j - 1] == slots[l] == slot.(i := slot.i - 1);
        ArriveNext(s, slots, q, j);
      } else {
        assert Extended(a, p).broken;
      }
    }
  }

  lemma LastSequence(a: Assembly, slots: seq<Slot>, q: u16, l: nat)
    requires UpTo(a, slots, q, l)
    ensures l < |slots| && a.last == (q + l) % TWO_16
  {
  }

  lemma ArriveNext(s: State, slots: seq<Slot>, q: u16, j: nat)
    requires WellSlotted(slots) && 0 < j < |slots| && slots[j].plan.Fragments? && slots[j].i > 0
    requires s.current.Some? && UpTo(s.current.value, slots, q, j - 1)
    ensures var (next, out) := PushState(s, PacketAt(slots, q, j)); Good(next, slots, q) && AllGenuine(out, slots, q)
  {
    hide PushState, Building, FuHeaders, Delivered, Proper, UpTo, Good, AllGenuine, PacketAt;
    var slot := slots[j];
    var p := PacketAt(slots, q, j);
    var first := (q + j - slot.i) % TWO_16;
    NextFragment(s.current.value, slots, q, j);
    PushLater(s, slot.plan.header, slot.plan.bodies, slot.i, first, p);
    NextGood(PushState(s, p).0, PushState(s, p).1, slots, q, j);
  }

  /** The next slot's packet carries the next fragment of the assembly. */
  lemma NextFragment(a: Assembly, slots: seq<Slot>, q: u16, j: nat)
    requires WellSlotted(slots) && 0 < j < |slots| && slots[j].plan.Fragments? && slots[j].i > 0
    requires UpTo(a, slots, q, j - 1)
    ensures var (slot, p) := (slots[j], PacketAt(slots, q, j));
      var (header, bodies, i) := (slot.plan.header, slot.plan.bodies, slot.i);
      && Proper(slot.plan) && i < |bodies| && p.timestamp == slot.timestamp
      && p.payload == FuHeaders(header, i, |bodies|) + bodies[i]
      && p.marker == (slot.marker && i + 1 == |bodies|)
      && Building(a, header, bodies, i, (q + j - i) % TWO_16, p.timestamp)
      && p.sequence == ((q + j - i) % TWO_16 + i) % TWO_16
  {
    hide Building, FuHeaders;
    assert SlotOk(slots, j);
    assert q + (j - 1) - (slots[j].i - 1) == q + j - slots[j].i;
    assert slots[j].plan == Fragments(slots[j].plan.header, slots[j].plan.bodies);
  }

  lemma NextGood(next: State, out: seq<Nalu>, slots: seq<Slot>, q: u16, j: nat)
    requires j < |slots| && slots[j].plan.Fragments? && slots[j].i < |slots[j].plan.bodies|
    requires var (slot, first) := (slots[j], (q + j - slots[j].i) % TWO_16);
      if slot.i + 1 < |slot.plan.bodies| then
        out == [] && next.current.Some?
        && Building(next.current.value, slot.plan.header, slot.plan.bodies, slot.i + 1, first, slot.timestamp)
      else next.current.None? && out == Delivered(slot.plan, first, slot.timestamp, slot.marker)
    ensures Good(next, slots, q) && AllGenuine(out, slots, q)
  {
    hide Building, Delivered;
    var slot := slots[j];
    if slot.i + 1 < |slot.plan.bodies| {
      assert UpTo(next.current.value, slots, q, j);
    } else {
      forall k | 0 <= k < |out| ensures Genuine(out[k], slots, q) {
        assert SentAt(out[k], slots[j], (q + j - slots[j].i) % TWO_16);
      }
    }
  }

  ghost function Arrivals(slots: seq<Slot>, q: u16, js: seq<nat>): (ps: seq<Packet>)
    requires WellSlotted(slots) && forall k :: 0 <= k < |js| ==> js[k] < |slots|
    ensures |ps| == |js|
  {
    if js == [] then [] else [PacketAt(slots, q, js[0])] + Arrivals(slots, q, js[1..])
  }

  /** Never fabricates: under any loss, duplication and reordering of at most 65536 packets with
      consecutive sequence numbers, every unit emitted as complete is one that was sent, byte for byte
      and with the sent timestamp, sequence numbers and marker. */
  lemma {:induction false} NeverFabricates(r: Run, slots: seq<Slot>, q: u16, js: seq<nat>)
    requires WellSlotted(slots) && |slots| <= TWO_16 && forall k :: 0 <= k < |js| ==> js[k] < |slots|
    requires Good(r.state, slots, q) && AllGenuine(r.nalus, slots, q)
    ensures var end := PushAll(r, Arrivals(slots, q, js)); Good(end.state, slots, q) && AllGenuine(end.nalus, slots, q)
    decreases |js|
  {
    hide PushState, Good, Genuine, Proper;
    if js != [] {
      var j := js[0];
      if !slots[j].plan.Fragments? {
        ArriveWhole(r.state, slots, q, j);
      } else if slots[j].i == 0 {
        ArriveFirst(r.state, slots, q, j);
      } else {
        ArriveLater(r.state, slots, q, j);
      }
      var (next, more) := PushState(r.state, PacketAt(slots, q, j));
      assert Arrivals(slots, q, js)[1..] == Arrivals(slots, q, js[1..]);
      hide WellSlotted, PacketAt;
      NeverFabricates(Run(next, r.nalus + more), slots, q, js[1..]);
    }
  }

  lemma ShiftedSequence(q: u16, n: nat, j: nat)
    requires n <= j
    ensures ((q + n) % TWO_16 + (j - n)) % TWO_16 == (q + j) % TWO_16
  {
  }

  ghost predicate PacketFits(sent: seq<Sending>, q: u16, j: nat)
    requires AllProper(sent)
  {
    && j < |SlotsOf(sent)| && j < |Packets(sent, q)| && SlotOk(SlotsOf(sent), j)
    && var slot := SlotsOf(sent)[j];
    Packets(sent, q)[j] == PacketOf(slot.plan, slot.i, (q + j) % TWO_16, slot.timestamp, slot.marker)
  }

  lemma {:induction false} PlanFits(sent: seq<Sending>, q: u16, j: nat)
    requires AllProper(sent) && sent != [] && j < Width(sent[0].plan) && j < |Packets(sent, q)|
    requires j < |SlotsOf(sent)| && SlotOk(SlotsOf(sent), j)
    ensures PacketFits(sent, q, j)
  {
    hide Proper, PacketOf, SlotOk;
  }

  lemma {:induction false} SlotLater(sent: seq<Sending>, j: nat)
    requires sent != [] && Width(sent[0].plan) <= j < |SlotsOf(sent)|
    ensures j - Width(sent[0].plan) < |SlotsOf(sent[1..])|
    ensures SlotsOf(sent)[j] == SlotsOf(sent[1..])[j - Width(sent[0].plan)]
  {
    hide Width;
  }

  lemma {:induction false} PacketLater(sent: seq<Sending>, q: u16, j: nat)
    requires sent != [] && AllProper(sent) && Width(sent[0].plan) <= j
    ensures var (n, later) := (Width(sent[0].plan), Packets(sent[1..], (q + Width(sent[0].plan)) % TWO_16));
      && |Packets(sent, q)| == n + |later|
      && (j - n < |later| ==> Packets(sent, q)[j] == later[j - n])
  {
    hide Width, PacketOf, Proper;
    PlanCount(sent[0].plan, q, sent[0].timestamp, sent[0].marker);
    hide PlanPackets;
  }

  lemma PlanCount(plan: Plan, q: u16, timestamp: nat, marker: bool)
    requires Proper(plan)
    ensures |PlanPackets(plan, q, timestamp, marker)| == Width(plan)
  {
  }

  lemma {:induction false} LaterFits(sent: seq<Sending>, q: u16, j: nat)
    requires AllProper(sent) && sent != [] && j >= Width(sent[0].plan)
    requires PacketFits(sent[1..], (q + Width(sent[0].plan)) % TWO_16, j - Width(sent[0].plan))
    requires j < |SlotsOf(sent)| && SlotOk(SlotsOf(sent), j)
    ensures PacketFits(sent, q, j)
  {
    hide Proper, PacketOf, SlotOk, Width, SlotsOf, Packets;
    ShiftedSequence(q, Width(sent[0].plan), j);
    SlotLater(sent, j);
    PacketLater(sent, q, j);
  }

  lemma {:induction false} SlotSound(sent: seq<Sending>, j: nat)
    requires j < |SlotsOf(sent)| && WellSlotted(SlotsOf(sent))
    ensures sent != [] && SlotOk(SlotsOf(sent), j)
  {
    hide SlotOk;
  }

  lemma {:induction false} SlotPackets(sent: seq<Sending>, q: u16, j: nat)
    requires AllProper(sent) && j < |SlotsOf(sent)|
    ensures PacketFits(sent, q, j)
    decreases |sent|
  {
    hide Proper, Width, SlotOk, PacketFits, Packets, SlotsOf, WellSlotted;
    PacketsLength(sent, q);
    SlotsWellSlotted(sent);
    SlotSound(sent, j);
    var n := Width(sent[0].plan);
    if j >= n {
      SlotLater(sent, j);
      SlotPackets(sent[1..], (q + n) % TWO_16, j - n);
      LaterFits(sent, q, j);
    } else {
      PlanFits(sent, q, j);
    }
  }

  lemma {:induction false} PacketsLength(sent: seq<Sending>, q: u16)
    requires AllProper(sent)
    ensures |Packets(sent, q)| == |SlotsOf(sent)|
    decreases |sent|
  {
    if sent != [] {
      PacketsLength(sent[1..], (q + Width(sent[0].plan)) % TWO_16);
    }
  }

  /** What a lossy channel hands over: the packets with the given indices. */
  function Received(ps: seq<Packet>, js: seq<nat>): seq<Packet>
    requires forall k :: 0 <= k < |js| ==> js[k] < |ps|
  {
    if js == [] then [] else [ps[js[0]]] + Received(ps, js[1..])
  }

  lemma {:induction false} ReceivedArrivals(sent: seq<Sending>, q: u16, js: seq<nat>)
    requires AllProper(sent) && forall k :: 0 <= k < |js| ==> js[k] < |Packets(sent, q)|
    requires WellSlotted(SlotsOf(sent)) && |Packets(sent, q)| == |SlotsOf(sent)|
    ensures Received(Packets(sent, q), js) == Arrivals(SlotsOf(sent), q, js)
    decreases |js|
  {
    hide Packets, SlotsOf, PacketOf, WellSlotted, AllProper;
    if js != [] {
      SlotPackets(sent, q, js[0]);
      ReceivedArrivals(sent, q, js[1..]);
    }
  }

  /** Never fabricates, stated on the packets of a packetised stream; `Finish` adds no complete unit. */
  lemma {:induction false} LossyChannel(sent: seq<Sending>, q: u16, js: seq<nat>)
    requires AllProper(sent) && |Packets(sent, q)| <= TWO_16
    requires forall k :: 0 <= k < |js| ==> js[k] < |Packets(sent, q)|
    ensures var end := PushAll(Run(INITIAL, []), Received(Packets(sent, q), js));
      AllGenuine(end.nalus + Abandon(end.state).1, SlotsOf(sent), q)
  {
    hide Packets, PushAll, Genuine, WellSlotted, AllProper;
    SlotsWellSlotted(sent);
    PacketsLength(sent, q);
    ReceivedArrivals(sent, q, js);
    NeverFabricates(Run(INITIAL, []), SlotsOf(sent), q, js);
  }

  // ---------------------------------------------------------------- every loss is reported

  /** The run over the first `t` packets. */
  function After(ps: seq<Packet>, t: nat): Run
    requires t <= |ps|
  {
    PushAll(Run(INITIAL, []), ps[..t])
  }

  /** The run over all packets, finished. */
  function Ended(ps: seq<Packet>): Run
  {
    var r := After(ps, |ps|);
    Run(Abandon(r.state).0, r.nalus + Abandon(r.state).1)
  }

  /** Number of issues recorded before packet `t`; packet `|ps|` is the end of the input. */
  function IssuesBefore(ps: seq<Packet>, t: nat): nat
    requires t <= |ps| + 1
  {
    if t <= |ps| then |After(ps, t).state.issues| else |Ended(ps).state.issues|
  }

  /** Number of incomplete units handed over before packet `t`. */
  function LossesBefore(ps: seq<Packet>, t: nat): nat
    requires t <= |ps| + 1
  {
    |Incompletes(if t <= |ps| then After(ps, t).nalus else Ended(ps).nalus)|
  }

  /** Packet `t`, or the end of the input, hands over the `k`-th incomplete unit. */
  ghost predicate HandsOver(ps: seq<Packet>, t: nat, k: nat)
    requires t <= |ps|
  {
    LossesBefore(ps, t) <= k < LossesBefore(ps, t + 1)
  }

  function Incompletes(nalus: seq<Nalu>): seq<Nalu>
  {
    if nalus == [] then []
    else Incompletes(nalus[..|nalus|-1]) + (if nalus[|nalus|-1].complete then [] else [nalus[|nalus|-1]])
  }

  lemma {:induction false} IncompletesConcat(a: seq<Nalu>, b: seq<Nalu>)
    ensures Incompletes(a + b) == Incompletes(a) + Incompletes(b)
    decreases |b|
  {
    if b == [] {
      assert a + b == a;
    } else {
      IncompletesConcat(a, b[..|b|-1]);
      assert (a + b)[..|a+b|-1] == a + b[..|b|-1];
    }
  }

  /** Packets before index `upto` that make up one unit, in order: the first one starts it, no other does. */
  ghost predicate Members(ps: seq<Packet>, members: seq<nat>, upto: nat)
  {
    && members != [] && upto <= |ps|
    && (forall i :: 0 <= i < |members| ==> members[i] < upto && |ps[members[i]].payload| >= 2)
    && (forall i, j :: 0 <= i < j < |members| ==> members[i] < members[j])
    && (forall i :: 0 <= i < |members| ==> (StartBit(ps[members[i]].payload[1]) <==> i == 0))
  }

  function Bodies(ps: seq<Packet>, members: seq<nat>): seq<byte>
    requires forall i :: 0 <= i < |members| ==> members[i] < |ps| && |ps[members[i]].payload| >= 2
  {
    if members == [] then []
    else Bodies(ps, members[..|members|-1]) + ps[members[|members|-1]].payload[2..]
  }

  /** The assembly is exactly what these packets carry. */
  ghost predicate MadeOf(ps: seq<Packet>, members: seq<nat>, upto: nat, a: Assembly)
  {
    && Members(ps, members, upto)
    && a.timestamp == ps[members[0]].timestamp && a.first == ps[members[0]].sequence
    && a.last == ps[members[|members|-1]].sequence
    && a.data == [Rebuilt(ps[members[0]].payload[0], ps[members[0]].payload[1])] + Bodies(ps, members)
  }

  /** The issue names member `i` as the packet that broke the unit: another timestamp than the unit's,
      or not the sequence number that follows the member before. */
  ghost predicate BreakAt(ps: seq<Packet>, members: seq<nat>, i: nat, issue: Issue)
    requires 0 < i < |members| && forall k :: 0 <= k < |members| ==> members[k] < |ps|
  {
    var p := ps[members[i]];
    || (issue == Issue(TimestampChanged, p.sequence, p.timestamp) && p.timestamp != ps[members[0]].timestamp)
    || (issue == Issue(SequenceGap, p.sequence, p.timestamp) && p.sequence != Next16(ps[members[i - 1]].sequence))
  }

  ghost predicate BreakOf(ps: seq<Packet>, members: seq<nat>, issue: Issue)
    requires forall k :: 0 <= k < |members| ==> members[k] < |ps|
  {
    exists i :: 0 < i < |members| && BreakAt(ps, members, i, issue)
  }

  /** A lost unit: the packets it was made of, the packet (or end of input) that closed it, and the
      index of its issue. */
  datatype Loss = Loss(members: seq<nat>, end: nat, mark: nat)

  /** The incomplete unit is what its members carry, and its issue was recorded between its first member
      and its end: it never saw its end, or one of its own members broke it. */
  ghost predicate Reported(ps: seq<Packet>, issues: seq<Issue>, n: Nalu, l: Loss)
  {
    && MadeOf(ps, l.members, |ps|, Assembly(n.timestamp, n.first, n.last, n.data, true))
    && l.members[|l.members|-1] <= l.end <= |ps|
    && IssuesBefore(ps, l.members[0] + 1) <= l.mark < IssuesBefore(ps, l.end + 1) && l.mark < |issues|
    && (issues[l.mark] == Issue(MissingEnd, n.last, n.timestamp) || BreakOf(ps, l.members, issues[l.mark]))
  }

  /** One loss per incomplete unit, in order of emission, ended by the packet that hands the unit over, with
      strictly increasing issue indexes. */
  ghost predicate AllReported(ps: seq<Packet>, r: Run, losses: seq<Loss>)
  {
    && |losses| == |Incompletes(r.nalus)|
    && (forall k :: 0 <= k < |losses| ==> Reported(ps, r.state.issues, Incompletes(r.nalus)[k], losses[k]))
    && (forall k :: 0 <= k < |losses| ==> losses[k].end <= |ps| && HandsOver(ps, losses[k].end, k))
    && (forall k, l :: 0 <= k < l < |losses| ==> losses[k].mark < losses[l].mark)
  }

  /** The packets of the open assembly, and its issue once it is broken. */
  datatype Open = Open(members: seq<nat>, mark: Option<nat>)

  ghost predicate Opened(ps: seq<Packet>, upto: nat, issues: seq<Issue>, a: Assembly, o: Open)
  {
    && MadeOf(ps, o.members, upto, a)
    && (o.mark.Some? <==> a.broken)
    && (o.mark.Some? ==>
          && IssuesBefore(ps, o.members[0] + 1) <= o.mark.value < |issues|
          && BreakOf(ps, o.members, issues[o.mark.value]))
  }

  ghost predicate Later(ps: seq<Packet>, losses: seq<Loss>, first: nat)
  {
    first < |ps| && forall k :: 0 <= k < |losses| ==> losses[k].mark < IssuesBefore(ps, first + 1)
  }

  /** What holds between two steps: every loss so far is reported, and the open assembly is accounted for. */
  ghost predicate Audit(ps: seq<Packet>, upto: nat, r: Run, losses: seq<Loss>, open: Option<Open>)
  {
    && AllReported(ps, r, losses)
    && (open.Some? <==> r.state.current.Some?)
    && (open.Some? ==>
          && Opened(ps, upto, r.state.issues, r.state.current.value, open.value)
          && IssuesBefore(ps, open.value.members[0] + 1) <= |r.state.issues|
          && Later(ps, losses, open.value.members[0]))
  }

  lemma AfterStep(ps: seq<Packet>, t: nat)
    requires t < |ps|
    ensures var r := After(ps, t);
      After(ps, t + 1) == Run(PushState(r.state, ps[t]).0, r.nalus + PushState(r.state, ps[t]).1)
  {
    hide PushState;
    assert ps[..t + 1] == ps[..t] + [ps[t]];
    PushAllConcat(Run(INITIAL, []), ps[..t], [ps[t]]);
    assert [ps[t]][1..] == [];
  }

  lemma MoreIssues(ps: seq<Packet>, issues: seq<Issue>, more: seq<Issue>, n: Nalu, l: Loss)
    requires Reported(ps, issues, n, l) && issues <= more
    ensures Reported(ps, more, n, l)
  {
    hide MadeOf, BreakOf, IssuesBefore;
  }

  /** More issues and more complete units change nothing. */
  lemma {:induction false} AuditKeeps(ps: seq<Packet>, upto: nat, r: Run, losses: seq<Loss>, open: Option<Open>,
                                      issues: seq<Issue>, more: seq<Nalu>)
    requires Audit(ps, upto, r, losses, open) && r.state.issues <= issues && Incompletes(more) == []
    ensures Audit(ps, upto, Run(r.state.(issues := issues), r.nalus + more), losses, open)
  {
    hide IssuesBefore, Later, AllReported, Opened, Incompletes;
    var after := r.state.(issues := issues);
    ReportedStays(ps, r, losses, after);
    ReportedCompletes(ps, Run(after, r.nalus), losses, more);
    if open.Some? {
      OpenedStays(ps, upto, r.state.issues, issues, r.state.current.value, open.value);
    }
  }

  lemma OpenedStays(ps: seq<Packet>, upto: nat, issues: seq<Issue>, more: seq<Issue>, a: Assembly, o: Open)
    requires Opened(ps, upto, issues, a, o) && issues <= more
    ensures Opened(ps, upto, more, a, o) && o.members != [] && o.members[0] < |ps|
  {
    hide MadeOf, BreakOf, IssuesBefore;
    OpenedMembers(ps, upto, issues, a, o);
  }

  lemma AuditLater(ps: seq<Packet>, upto: nat, r: Run, losses: seq<Loss>, open: Option<Open>)
    requires Audit(ps, upto, r, losses, open) && upto < |ps|
    ensures Audit(ps, upto + 1, r, losses, open)
  {
    hide AllReported, BreakOf, IssuesBefore, Later;
  }

  lemma MarksBelow(ps: seq<Packet>, losses: seq<Loss>, first: nat, mark: nat)
    requires Later(ps, losses, first) && IssuesBefore(ps, first + 1) <= mark
    ensures forall k :: 0 <= k < |losses| ==> losses[k].mark < mark
  {
    hide IssuesBefore;
  }

  /** A unit closed incomplete, with its issue already recorded, is one more loss. */
  lemma AuditLoses(ps: seq<Packet>, r: Run, losses: seq<Loss>, n: Nalu, l: Loss)
    requires AllReported(ps, r, losses) && !n.complete && Reported(ps, r.state.issues, n, l)
    requires l.end <= |ps| && HandsOver(ps, l.end, |losses|)
    requires forall k :: 0 <= k < |losses| ==> losses[k].mark < l.mark
    ensures AllReported(ps, Run(r.state, r.nalus + [n]), losses + [l])
  {
    hide Reported, Incompletes, HandsOver;
    IncompletesConcat(r.nalus, [n]);
    IncompleteOne(n);
    var all, more := Incompletes(r.nalus), losses + [l];
    forall k | 0 <= k < |more| ensures Reported(ps, r.state.issues, (all + [n])[k], more[k]) {
      assert k < |losses| ==> Reported(ps, r.state.issues, all[k], losses[k]);
    }
  }

  lemma IncompleteOne(n: Nalu)
    requires !n.complete
    ensures Incompletes([n]) == [n]
  {
    assert [n][..0] == [];
  }

  /** Giving up the open assembly, at packet `end` or at the end of the input. */
  lemma AuditAbandon(ps: seq<Packet>, upto: nat, r: Run, losses: seq<Loss>, open: Option<Open>, end: nat)
    returns (now: seq<Loss>)
    requires Audit(ps, upto, r, losses, open) && upto <= end <= |ps|
    requires |Abandon(r.state).0.issues| <= IssuesBefore(ps, end + 1)
    requires open.Some? ==> HandsOver(ps, end, |losses|)
    ensures Audit(ps, upto, Run(Abandon(r.state).0, r.nalus + Abandon(r.state).1), now, None)
    ensures forall k :: 0 <= k < |now| ==> now[k].mark < |Abandon(r.state).0.issues|
  {
    hide BreakOf, IssuesBefore, Later, HandsOver;
    now := losses;
    if open.None? {
      assert r.nalus + [] == r.nalus;
      assert forall k :: 0 <= k < |losses| ==> Reported(ps, r.state.issues, Incompletes(r.nalus)[k], losses[k]);
    } else {
      var a, o := r.state.current.value, open.value;
      var issues := Abandon(r.state).0.issues;
      var n, l := Finished(a, false, false), Loss(o.members, end, |r.state.issues|);
      AuditKeeps(ps, upto, r, losses, open, issues, []);
      assert r.nalus + [] == r.nalus;
      MarksBelow(ps, losses, o.members[0], l.mark);
      MadeReported(ps, upto, a, n, l);
      assert Reported(ps, issues, n, l);
      AuditLoses(ps, Run(r.state.(issues := issues), r.nalus), losses, n, l);
      now := losses + [l];
    }
  }

  lemma MadeReported(ps: seq<Packet>, upto: nat, a: Assembly, n: Nalu, l: Loss)
    requires MadeOf(ps, l.members, upto, a) && upto <= l.end + 1 && l.end <= |ps|
    requires n.timestamp == a.timestamp && n.first == a.first && n.last == a.last && n.data == a.data
    ensures MadeOf(ps, l.members, |ps|, Assembly(n.timestamp, n.first, n.last, n.data, true))
    ensures l.members[|l.members|-1] <= l.end
  {
    hide Bodies, Rebuilt;
  }

  /** A start fragment opens an assembly of its own. */
  lemma AuditStart(ps: seq<Packet>, t: nat, r: Run, losses: seq<Loss>)
    requires t < |ps| && |ps[t].payload| >= 2 && StartBit(ps[t].payload[1])
    requires Audit(ps, t, r, losses, None) && IssuesBefore(ps, t + 1) == |r.state.issues|
    requires forall k :: 0 <= k < |losses| ==> losses[k].mark < |r.state.issues|
    ensures var p := ps[t];
      var a := Assembly(p.timestamp, p.sequence, p.sequence, [Rebuilt(p.payload[0], p.payload[1])] + p.payload[2..],
        false);
      Audit(ps, t + 1, Run(r.state.(current := Some(a)), r.nalus), losses, Some(Open([t], None)))
  {
    hide Reported, BreakOf, IssuesBefore, Rebuilt;
    assert [t][..0] == [];
    assert Bodies(ps, []) == [] && Bodies(ps, [t]) == [] + ps[t].payload[2..];
    assert forall k :: 0 <= k < |losses| ==> Reported(ps, r.state.issues, Incompletes(r.nalus)[k], losses[k]);
  }

  lemma MembersGrow(ps: seq<Packet>, t: nat, a: Assembly, members: seq<nat>)
    requires t < |ps| && |ps[t].payload| >= 2 && !StartBit(ps[t].payload[1]) && MadeOf(ps, members, t, a)
    ensures MadeOf(ps, members + [t], t + 1, Extended(a, ps[t]))
    ensures forall issue :: BreakOf(ps, members, issue) ==> BreakOf(ps, members + [t], issue)
  {
    var more := members + [t];
    assert more[..|members|] == members;
    forall issue | BreakOf(ps, members, issue) ensures BreakOf(ps, more, issue) {
      var i :| 0 < i < |members| && BreakAt(ps, members, i, issue);
      assert BreakAt(ps, more, i, issue);
    }
    hide Rebuilt, BreakOf;
    assert Bodies(ps, more) == Bodies(ps, members) + ps[t].payload[2..];
  }

  /** The issues a fragment adds name it as the member that breaks the unit. */
  lemma BreakNamed(ps: seq<Packet>, t: nat, s: State, members: seq<nat>)
    requires t < |ps| && |ps[t].payload| >= 2 && s.current.Some? && MadeOf(ps, members, t, s.current.value)
    ensures var next := ExtendState(s, ps[t]);
      && s.issues <= next.issues
      && forall k :: |s.issues| <= k < |next.issues| ==> BreakOf(ps, members + [t], next.issues[k])
    ensures |ExtendState(s, ps[t]).issues| == |s.issues|
      <==> s.current.value.timestamp == ps[t].timestamp && ps[t].sequence == Next16(s.current.value.last)
  {
    hide Bodies, Rebuilt, BreakOf;
    var a, p, more := s.current.value, ps[t], members + [t];
    var next := ExtendState(s, p);
    assert more[|members|] == t && more[0] == members[0] && more[|members| - 1] == members[|members| - 1];
    forall k | |s.issues| <= k < |next.issues| ensures BreakOf(ps, more, next.issues[k]) {
      assert BreakAt(ps, more, |members|, next.issues[k]);
      BreakIs(ps, more, |members|, next.issues[k]);
    }
  }

  lemma BreakIs(ps: seq<Packet>, members: seq<nat>, i: nat, issue: Issue)
    requires 0 < i < |members| && forall k :: 0 <= k < |members| ==> members[k] < |ps|
    requires BreakAt(ps, members, i, issue)
    ensures BreakOf(ps, members, issue)
  {
  }

  function Marked(s: State, p: Packet, mark: Option<nat>): Option<nat>
    requires s.current.Some? && |p.payload| >= 2
  {
    if mark.Some? || |ExtendState(s, p).issues| == |s.issues| then mark else Some(|s.issues|)
  }

  lemma OpenedGrows(ps: seq<Packet>, t: nat, s: State, o: Open)
    requires t < |ps| && |ps[t].payload| >= 2 && !StartBit(ps[t].payload[1]) && s.current.Some?
    requires Opened(ps, t, s.issues, s.current.value, o) && IssuesBefore(ps, o.members[0] + 1) <= |s.issues|
    ensures var next := ExtendState(s, ps[t]);
      next.current.Some? && Opened(ps, t + 1, next.issues, next.current.value,
        Open(o.members + [t], Marked(s, ps[t], o.mark)))
  {
    hide IssuesBefore, BreakOf, MadeOf;
    MembersGrow(ps, t, s.current.value, o.members);
    BreakNamed(ps, t, s, o.members);
    var next := ExtendState(s, ps[t]);
    MadeFirst(ps, t, s.current.value, o.members);
    if o.mark.Some? {
      assert next.issues[o.mark.value] == s.issues[o.mark.value];
    }
  }

  lemma MadeFirst(ps: seq<Packet>, t: nat, a: Assembly, members: seq<nat>)
    requires MadeOf(ps, members, t, a)
    ensures members != [] && members[0] < |ps| && (members + [t])[0] == members[0]
  {
  }

  /** A middle or end fragment continues the assembly and, if it breaks it, leaves the issue that says so. */
  lemma AuditExtend(ps: seq<Packet>, t: nat, r: Run, losses: seq<Loss>, o: Open)
    requires t < |ps| && |ps[t].payload| >= 2 && !StartBit(ps[t].payload[1])
    requires Audit(ps, t, r, losses, Some(o))
    ensures Audit(ps, t + 1, Run(ExtendState(r.state, ps[t]), r.nalus), losses,
      Some(Open(o.members + [t], Marked(r.state, ps[t], o.mark))))
  {
    hide IssuesBefore, BreakOf, MadeOf, Opened, AllReported, Later, Marked;
    var s := r.state;
    OpenedMembers(ps, t, s.issues, s.current.value, o);
    OpenedGrows(ps, t, s, o);
    BreakNamed(ps, t, s, o.members);
    assert AllReported(ps, Run(ExtendState(s, ps[t]), r.nalus), losses) by {
      ReportedStays(ps, r, losses, ExtendState(s, ps[t]));
    }
  }

  lemma OpenedMembers(ps: seq<Packet>, t: nat, issues: seq<Issue>, a: Assembly, o: Open)
    requires Opened(ps, t, issues, a, o)
    ensures MadeOf(ps, o.members, t, a) && o.members != [] && o.members[0] < |ps|
    ensures (o.members + [t])[0] == o.members[0]
  {
  }

  lemma ReportedStays(ps: seq<Packet>, r: Run, losses: seq<Loss>, s: State)
    requires AllReported(ps, r, losses) && r.state.issues <= s.issues
    ensures AllReported(ps, Run(s, r.nalus), losses)
  {
    hide Reported;
    forall k | 0 <= k < |losses| ensures Reported(ps, s.issues, Incompletes(r.nalus)[k], losses[k]) {
      MoreIssues(ps, r.state.issues, s.issues, Incompletes(r.nalus)[k], losses[k]);
    }
  }

  /** An end fragment closes the assembly: whole, or as a loss with the issue that broke it. */
  lemma AuditEnd(ps: seq<Packet>, t: nat, r: Run, losses: seq<Loss>, o: Open, marker: bool) returns (now: seq<Loss>)
    requires t < |ps| && Audit(ps, t + 1, r, losses, Some(o)) && IssuesBefore(ps, t + 1) == |r.state.issues|
    requires r.state.current.value.broken ==> HandsOver(ps, t, |losses|)
    ensures var a := r.state.current.value;
      Audit(ps, t + 1, Run(r.state.(current := None), r.nalus + [Finished(a, !a.broken, marker)]), now, None)
  {
    hide IssuesBefore, BreakOf, MadeOf, Later, AllReported, Reported, HandsOver;
    var a := r.state.current.value;
    var n := Finished(a, !a.broken, marker);
    OpenedMembers(ps, t + 1, r.state.issues, a, o);
    var closed := Run(r.state.(current := None), r.nalus);
    ReportedStays(ps, r, losses, closed.state);
    if a.broken {
      var l := Loss(o.members, t, o.mark.value);
      MadeReported(ps, t + 1, a, n, l);
      MarksBelow(ps, losses, o.members[0], l.mark);
      BrokenReported(ps, r.state.issues, n, l);
      AuditLoses(ps, closed, losses, n, l);
      now := losses + [l];
    } else {
      CompletesOnly([n]);
      now := losses;
      assert AllReported(ps, Run(closed.state, r.nalus + [n]), losses) by {
        ReportedCompletes(ps, closed, losses, [n]);
      }
    }
  }

  lemma BrokenReported(ps: seq<Packet>, issues: seq<Issue>, n: Nalu, l: Loss)
    requires MadeOf(ps, l.members, |ps|, Assembly(n.timestamp, n.first, n.last, n.data, true))
    requires l.members[|l.members|-1] <= l.end < |ps| && IssuesBefore(ps, l.end + 1) == |issues|
    requires IssuesBefore(ps, l.members[0] + 1) <= l.mark < |issues| && BreakOf(ps, l.members, issues[l.mark])
    ensures Reported(ps, issues, n, l)
  {
    hide IssuesBefore, BreakOf, MadeOf;
  }

  predicate AllComplete(nalus: seq<Nalu>)
  {
    forall k :: 0 <= k < |nalus| ==> nalus[k].complete
  }

  lemma {:induction false} CompletesOnly(nalus: seq<Nalu>)
    requires AllComplete(nalus)
    ensures Incompletes(nalus) == []
    decreases |nalus|
  {
    if nalus != [] {
      CompletesOnly(nalus[..|nalus|-1]);
    }
  }

  lemma {:induction false} ReportedCompletes(ps: seq<Packet>, r: Run, losses: seq<Loss>, more: seq<Nalu>)
    requires AllReported(ps, r, losses) && Incompletes(more) == []
    ensures AllReported(ps, Run(r.state, r.nalus + more), losses)
  {
    hide Reported;
    IncompletesConcat(r.nalus, more);
    assert Incompletes(r.nalus) + [] == Incompletes(r.nalus);
  }

  lemma {:induction false} AggregatedComplete(p: Packet, cursor: nat)
    requires cursor <= |p.payload|
    ensures AllComplete(Aggregated(p, cursor).0)
    decreases |p.payload| - cursor
  {
    if cursor + 2 <= |p.payload| {
      var end := cursor + 2 + Be16(p.payload[cursor], p.payload[cursor + 1]);
      if cursor + 2 < end <= |p.payload| {
        AggregatedComplete(p, end);
      }
    }
  }

  /** A packet that is no usable fragment leaves the open assembly alone. */
  lemma OtherPacket(s: State, p: Packet)
    requires p.payload == [] || TypeOf(p.payload[0]) != 28 || |p.payload| < 2
      || (!StartBit(p.payload[1]) && s.current.None?)
    ensures var (next, out) := PushState(s, p);
      next.current == s.current && s.issues <= next.issues && AllComplete(out)
  {
    hide Aggregated;
    if p.payload != [] {
      AggregatedComplete(p, 1);
    }
  }

  /** A usable fragment: one that starts a unit, or continues the open one. */
  predicate Fragment(p: Packet, open: bool)
  {
    |p.payload| >= 2 && TypeOf(p.payload[0]) == 28 && (StartBit(p.payload[1]) || open)
  }

  /** A packet with an incomplete unit in its output hands over the next one. */
  lemma {:induction false} OutputHandsOver(ps: seq<Packet>, t: nat, out: seq<Nalu>)
    requires t < |ps| && Incompletes(out) != []
    requires After(ps, t + 1).nalus == After(ps, t).nalus + out
    ensures HandsOver(ps, t, |Incompletes(After(ps, t).nalus)|)
  {
    hide After, Incompletes;
    IncompletesConcat(After(ps, t).nalus, out);
  }

  lemma LossCount(ps: seq<Packet>, t: nat, r: Run, losses: seq<Loss>, open: Option<Open>)
    requires Audit(ps, t, r, losses, open)
    ensures |losses| == |Incompletes(r.nalus)|
  {
  }

  lemma AbandonHandsOver(ps: seq<Packet>, t: nat, losses: seq<Loss>, open: Option<Open>)
    requires t < |ps| && Audit(ps, t, After(ps, t), losses, open)
    requires Fragment(ps[t], open.Some?) && StartBit(ps[t].payload[1])
    ensures open.Some? ==> HandsOver(ps, t, |losses|)
  {
    hide Audit, After, PushState, Incompletes, HandsOver;
    var s := After(ps, t).state;
    AuditCurrent(ps, t, After(ps, t), losses, open);
    LossCount(ps, t, After(ps, t), losses, open);
    if open.Some? {
      FragmentPushed(s, ps[t]);
      AfterStep(ps, t);
      StartIs(s, ps[t]);
      var n, out := Finished(s.current.value, false, false), PushState(s, ps[t]).1;
      assert out == [n] + out[1..];
      IncompletesConcat([n], out[1..]);
      IncompleteOne(n);
      OutputHandsOver(ps, t, out);
    }
  }

  lemma BrokenHandsOver(ps: seq<Packet>, t: nat, losses: seq<Loss>, open: Option<Open>)
    requires t < |ps| && Audit(ps, t, After(ps, t), losses, open)
    requires Fragment(ps[t], open.Some?) && EndBit(ps[t].payload[1])
    requires !StartBit(ps[t].payload[1]) && After(ps, t).state.current.Some?
    ensures ExtendState(After(ps, t).state, ps[t]).current.Some?
    ensures ExtendState(After(ps, t).state, ps[t]).current.value.broken ==> HandsOver(ps, t, |losses|)
  {
    hide Audit, After, PushState, ExtendState, Incompletes, HandsOver;
    var s := After(ps, t).state;
    LossCount(ps, t, After(ps, t), losses, open);
    FragmentPushed(s, ps[t]);
    AfterStep(ps, t);
    var a := ExtendState(s, ps[t]).current.value;
    if a.broken {
      var n := Finished(a, false, ps[t].marker);
      IncompleteOne(n);
      assert [] + [n] == [n];
      OutputHandsOver(ps, t, [n]);
    }
  }

  lemma AuditFragment(ps: seq<Packet>, t: nat, losses: seq<Loss>, open: Option<Open>)
    returns (now: seq<Loss>, next: Option<Open>)
    requires t < |ps| && Audit(ps, t, After(ps, t), losses, open)
    requires Fragment(ps[t], open.Some?)
    ensures Audit(ps, t + 1, After(ps, t + 1), now, next)
  {
    hide Audit, After, PushState, ExtendState, Extended, Abandon, Incompletes, Opened, Finished, IssuesBefore,
      HandsOver;
    var p, r := ps[t], After(ps, t);
    AfterStep(ps, t);
    AuditCurrent(ps, t, r, losses, open);
    FragmentPushed(r.state, p);
    BeforeIs(ps, t + 1);
    var moved: Run;
    if StartBit(p.payload[1]) {
      StartIs(r.state, p);
      AbandonHandsOver(ps, t, losses, open);
      now := AuditAbandon(ps, t, r, losses, open, t);
      var given := Run(Abandon(r.state).0, r.nalus + Abandon(r.state).1);
      AuditStart(ps, t, given, now);
      moved, next := Run(StartState(r.state, p).0, r.nalus + StartState(r.state, p).1), Some(Open([t], None));
    } else {
      now := losses;
      AuditExtend(ps, t, r, losses, open.value);
      assert r.nalus + [] == r.nalus;
      moved := Run(ExtendState(r.state, p), r.nalus);
      next := Some(Open(open.value.members + [t], Marked(r.state, p, open.value.mark)));
    }
    if EndBit(p.payload[1]) {
      AuditCurrent(ps, t + 1, moved, now, next);
      if !StartBit(p.payload[1]) {
        BrokenHandsOver(ps, t, losses, open);
      }
      var a := moved.state.current.value;
      now := AuditEnd(ps, t, moved, now, next.value, p.marker);
      next := None;
      var out := if StartBit(p.payload[1]) then StartState(r.state, p).1 else [];
      assert r.nalus + out + [Finished(a, !a.broken, p.marker)] == r.nalus + (out + [Finished(a, !a.broken, p.marker)]);
    }
  }

  lemma AuditCurrent(ps: seq<Packet>, upto: nat, r: Run, losses: seq<Loss>, open: Option<Open>)
    requires Audit(ps, upto, r, losses, open)
    ensures open.Some? <==> r.state.current.Some?
  {
  }

  lemma BeforeIs(ps: seq<Packet>, t: nat)
    requires t <= |ps|
    ensures IssuesBefore(ps, t) == |After(ps, t).state.issues|
  {
  }

  /** What a usable fragment does, with the end bit taken apart. */
  lemma FragmentPushed(s: State, p: Packet)
    requires |p.payload| >= 2 && TypeOf(p.payload[0]) == 28 && (StartBit(p.payload[1]) || s.current.Some?)
    ensures var (moved, out) := if StartBit(p.payload[1]) then StartState(s, p) else (ExtendState(s, p), []);
      && moved.current.Some?
      && PushState(s, p) ==
         if EndBit(p.payload[1]) then
           (moved.(current := None), out + [Finished(moved.current.value, !moved.current.value.broken, p.marker)])
         else (moved, out)
  {
    hide Rebuilt, Extended;
  }

  lemma StartIs(s: State, p: Packet)
    requires |p.payload| >= 2
    ensures StartState(s, p).1 == Abandon(s).1
    ensures StartState(s, p).0 == Abandon(s).0.(current := Some(Assembly(p.timestamp, p.sequence, p.sequence,
      [Rebuilt(p.payload[0], p.payload[1])] + p.payload[2..], false)))
  {
  }

  /** Every push keeps the audit. */
  lemma AuditPush(ps: seq<Packet>, t: nat, losses: seq<Loss>, open: Option<Open>)
    returns (now: seq<Loss>, next: Option<Open>)
    requires t < |ps| && Audit(ps, t, After(ps, t), losses, open)
    ensures Audit(ps, t + 1, After(ps, t + 1), now, next)
  {
    hide Audit, After, PushState, Incompletes;
    var p, r := ps[t], After(ps, t);
    AuditCurrent(ps, t, r, losses, open);
    if Fragment(p, open.Some?) {
      now, next := AuditFragment(ps, t, losses, open);
    } else {
      now, next := losses, open;
      AfterStep(ps, t);
      OtherPacket(r.state, p);
      var (after, out) := PushState(r.state, p);
      CompletesOnly(out);
      AuditKeeps(ps, t, r, losses, open, after.issues, out);
      AuditLater(ps, t, Run(r.state.(issues := after.issues), r.nalus + out), losses, open);
    }
  }

  lemma {:induction false} AuditRun(ps: seq<Packet>, t: nat) returns (losses: seq<Loss>, open: Option<Open>)
    requires t <= |ps|
    ensures Audit(ps, t, After(ps, t), losses, open)
    decreases t
  {
    if t == 0 {
      assert ps[..0] == [];
      losses, open := [], None;
    } else {
      hide Audit, After;
      losses, open := AuditRun(ps, t - 1);
      losses, open := AuditPush(ps, t - 1, losses, open);
    }
  }

  /** Any packets whatsoever, to the end of the input: every incomplete unit is made of packets that
      arrived, and has an issue of its own, recorded while it was assembled or closed, that says either
      that its end never came or which of its own packets broke it. No issue serves two units. */
  lemma EveryLossReported(ps: seq<Packet>)
    ensures exists losses :: AllReported(ps, Ended(ps), losses)
  {
    hide Audit, After, IssuesBefore, Reported, HandsOver;
    var losses, open := AuditRun(ps, |ps|);
    EndIs(ps);
    EndHandsOver(ps, losses, open);
    var now := AuditAbandon(ps, |ps|, After(ps, |ps|), losses, open, |ps|);
    AuditReports(ps, |ps|, Ended(ps), now, None);
  }

  lemma EndIs(ps: seq<Packet>)
    ensures IssuesBefore(ps, |ps| + 1) == |Ended(ps).state.issues|
  {
  }

  lemma EndHandsOver(ps: seq<Packet>, losses: seq<Loss>, open: Option<Open>)
    requires Audit(ps, |ps|, After(ps, |ps|), losses, open)
    ensures open.Some? ==> HandsOver(ps, |ps|, |losses|)
  {
    hide Audit, After, Incompletes;
    var r := After(ps, |ps|);
    AuditCurrent(ps, |ps|, r, losses, open);
    LossCount(ps, |ps|, r, losses, open);
    if open.Some? {
      var n := Finished(r.state.current.value, false, false);
      IncompleteOne(n);
      IncompletesConcat(r.nalus, [n]);
    }
  }

  lemma AuditReports(ps: seq<Packet>, upto: nat, r: Run, losses: seq<Loss>, open: Option<Open>)
    requires Audit(ps, upto, r, losses, open)
    ensures AllReported(ps, r, losses)
  {
  }

  // ---------------------------------------------------------------- the stateful object

  lemma AggregatedOnce(p: Packet, cursor: nat)
    requires cursor <= |p.payload|
    ensures Aggregated(p, cursor) ==
      if cursor == |p.payload| then ([], true)
      else if cursor + 2 > |p.payload| then ([], false)
      else
        var length := Be16(p.payload[cursor], p.payload[cursor + 1]);
        var end := cursor + 2 + length;
        if length == 0 || end > |p.payload| then ([], false)
        else ([Nalu(p.payload[cursor + 2..end], p.timestamp, p.sequence, p.sequence, true,
                    p.marker && end == |p.payload|)] + Aggregated(p, end).0, Aggregated(p, end).1)
  {
    hide Be16;
  }

  class Depacketizer {
    var current: Option<Assembly>
    var issues: seq<Issue>

    function View(): State
      reads this
    {
      State(current, issues)
    }

    constructor ()
      ensures View() == INITIAL
    {
      current, issues := None, [];
    }

    method Report(kind: Kind, packet: Packet)
      modifies this`issues
      ensures issues == old(issues) + [Issue(kind, packet.sequence, packet.timestamp)]
    {
      issues := issues + [Issue(kind, packet.sequence, packet.timestamp)];
    }

    method Push(packet: Packet) returns (nalus: seq<Nalu>)
      modifies this
      ensures (View(), nalus) == PushState(old(View()), packet)
    {
      if packet.payload == [] {
        Report(EmptyPayload, packet);
        return [];
      }
      var kind := TypeOf(packet.payload[0]);
      if 1 <= kind <= 23 {
        return [Nalu(packet.payload, packet.timestamp, packet.sequence, packet.sequence, true, packet.marker)];
      } else if kind == 24 {
        nalus := ParseStapA(packet);
      } else if kind == 28 {
        nalus := PushFuA(packet);
      } else {
        Report(Unsupported, packet);
        nalus := [];
      }
    }

    method Finish() returns (nalus: seq<Nalu>)
      modifies this
      ensures (View(), nalus) == Abandon(old(View()))
    {
      if current.None? {
        return [];
      }
      var a := current.value;
      current := None;
      issues := issues + [Issue(MissingEnd, a.last, a.timestamp)];
      nalus := [Finished(a, false, false)];
    }

    method ParseStapA(packet: Packet) returns (nalus: seq<Nalu>)
      requires packet.payload != []
      modifies this`issues
      ensures var (units, ok) := Aggregated(packet, 1);
        nalus == units && View() == if ok then old(View()) else Complain(old(View()), StapLength, packet)
    {
      hide Aggregated;
      var cursor := 1;
      nalus := [];
      assert [] + Aggregated(packet, 1).0 == Aggregated(packet, 1).0;
      while cursor < |packet.payload|
        invariant 1 <= cursor <= |packet.payload| && issues == old(issues)
        invariant Aggregated(packet, 1) == (nalus + Aggregated(packet, cursor).0, Aggregated(packet, cursor).1)
      {
        AggregatedOnce(packet, cursor);
        assert nalus + [] == nalus;
        if cursor + 2 > |packet.payload| {
          Report(StapLength, packet);
          return;
        }
        var length := Be16(packet.payload[cursor], packet.payload[cursor + 1]);
        cursor := cursor + 2;
        if length == 0 || cursor + length > |packet.payload| {
          Report(StapLength, packet);
          return;
        }
        var unit := Nalu(packet.payload[cursor..cursor + length], packet.timestamp, packet.sequence, packet.sequence,
                         true, packet.marker && cursor + length == |packet.payload|);
        cursor := cursor + length;
        assert nalus + ([unit] + Aggregated(packet, cursor).0) == nalus + [unit] + Aggregated(packet, cursor).0;
        nalus := nalus + [unit];
      }
      AggregatedOnce(packet, cursor);
      assert nalus + [] == nalus;
    }

    method PushFuA(packet: Packet) returns (output: seq<Nalu>)
      requires packet.payload != []
      modifies this
      ensures (View(), output) == FragmentState(old(View()), packet)
    {
      hide Rebuilt;
      if |packet.payload| < 2 {
        Report(FuHeader, packet);
        return [];
      }
      var start, end := StartBit(packet.payload[1]), EndBit(packet.payload[1]);
      output := [];
      if start {
        output := Finish();
        current := Some(Assembly(packet.timestamp, packet.sequence, packet.sequence,
          [Rebuilt(packet.payload[0], packet.payload[1])] + packet.payload[2..], false));
      } else if current.Some? {
        var a := current.value;
        var timestampChanged := a.timestamp != packet.timestamp;
        var sequenceGap := packet.sequence != Next16(a.last);
        current := Some(a.(last := packet.sequence, data := a.data + packet.payload[2..],
                           broken := a.broken || timestampChanged || sequenceGap));
        if timestampChanged {
          Report(TimestampChanged, packet);
        }
        if sequenceGap {
          Report(SequenceGap, packet);
        }
      } else {
        Report(MissingStart, packet);
        return;
      }
      if end && current.Some? {
        var a := current.value;
        current := None;
        output := output + [Finished(a, !a.broken, packet.marker)];
      }
    }
  }
}
