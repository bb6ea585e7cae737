/** What becomes of every packet: it is in a unit handed over, in the unit being assembled, or has an
    issue of its own. */
module RtpFates {
  import opened Wrappers
  import opened RtpDepacketizer

  // ---------------------------------------------------------------- one packet

  /** The issue a packet brings on itself, and on nobody else: it is empty, of a type that is not
      handled, ends in the middle of an aggregated unit, has no FU header, or continues nothing. */
  predicate Refused(p: Packet, open: bool, kind: Kind)
  {
    match kind
    case EmptyPayload => p.payload == []
    case Unsupported => p.payload != [] && (p.payload[0] % 32 == 0 || p.payload[0] % 32 in {25, 26, 27, 29, 30, 31})
    case FuHeader => |p.payload| == 1 && p.payload[0] % 32 == 28
    case MissingStart => |p.payload| >= 2 && p.payload[0] % 32 == 28 && p.payload[1] < 128 && !open
    case _ => false
  }

  /** A refused packet is reported under its own sequence number and timestamp, and changes nothing else. */
  lemma RefusedReported(s: State, p: Packet, kind: Kind)
    requires Refused(p, s.current.Some?, kind)
    ensures PushState(s, p) == (s.(issues := s.issues + [Issue(kind, p.sequence, p.timestamp)]), [])
  {
  }

  /** A NAL unit of its own is handed over as it is. */
  lemma SingleHandedOver(s: State, p: Packet)
    requires p.payload != [] && 1 <= p.payload[0] % 32 <= 23
    ensures PushState(s, p) == (s, [Nalu(p.payload, p.timestamp, p.sequence, p.sequence, true, p.marker)])
  {
  }

  /** The bytes cannot be an aggregated unit: no length, a length of 0, or one that goes too far. */
  predicate NoUnit(tail: seq<byte>)
  {
    |tail| < 2 ||
    var high: int, low: int := tail[0], tail[1];
    256 * high + low == 0 || 256 * high + low > |tail| - 2
  }

  ghost predicate ProperUnits(units: seq<seq<byte>>)
  {
    forall i :: 0 <= i < |units| ==> 0 < |units[i]| < TWO_16
  }

  /** Read as units from `cursor` on, up to what is no unit any more. */
  ghost predicate ReadAs(p: Packet, cursor: nat, units: seq<seq<byte>>, tail: seq<byte>)
    requires cursor <= |p.payload|
  {
    && ProperUnits(units) && p.payload[cursor..] == StapBody(units) + tail && (tail == [] || NoUnit(tail))
    && Aggregated(p, cursor)
       == (UnitNalus(units, p.timestamp, p.sequence, p.marker && tail == []), tail == [])
  }

  lemma {:induction false} AggregateIs(p: Packet, cursor: nat) returns (units: seq<seq<byte>>, tail: seq<byte>)
    requires cursor <= |p.payload|
    ensures ReadAs(p, cursor, units, tail)
    decreases |p.payload| - cursor
  {
    hide StapBody, UnitNalus, Aggregated, ReadAs;
    var rest := p.payload[cursor..];
    if rest == [] || NoUnit(rest) {
      units, tail := [], rest;
      ReadNothing(p, cursor);
    } else {
      var end := cursor + 2 + Be16(p.payload[cursor], p.payload[cursor + 1]);
      units, tail := AggregateIs(p, end);
      ReadStep(p, cursor, end, units, tail);
      units := [p.payload[cursor + 2..end]] + units;
    }
  }

  lemma ReadNothing(p: Packet, cursor: nat)
    requires cursor <= |p.payload| && (p.payload[cursor..] == [] || NoUnit(p.payload[cursor..]))
    ensures ReadAs(p, cursor, [], p.payload[cursor..])
  {
    assert [] + p.payload[cursor..] == p.payload[cursor..];
  }

  lemma ReadStep(p: Packet, cursor: nat, end: nat, units: seq<seq<byte>>, tail: seq<byte>)
    requires cursor + 2 < end <= |p.payload| && end == cursor + 2 + Be16(p.payload[cursor], p.payload[cursor + 1])
    requires ReadAs(p, end, units, tail)
    ensures ReadAs(p, cursor, [p.payload[cursor + 2..end]] + units, tail)
  {
    hide StapBody, UnitNalus, Aggregated, Be16, NoUnit;
    var unit := p.payload[cursor + 2..end];
    BodyStep(p.payload, cursor, end, units, tail);
    NalusStep(p, unit, units, p.marker && tail == []);
    AggregatedOnce(p, cursor);
    StapBodyEmpty(units);
    assert tail == [] ==> (end == |p.payload| <==> |StapBody(units)| == 0);
    ProperMore(p.payload, cursor, end);
  }

  lemma ProperMore(payload: seq<byte>, cursor: nat, end: nat)
    requires cursor + 2 < end <= |payload| && end == cursor + 2 + Be16(payload[cursor], payload[cursor + 1])
    ensures 0 < |payload[cursor + 2..end]| < TWO_16 && Be16(payload[cursor], payload[cursor + 1]) > 0
  {
  }

  lemma BodyStep(payload: seq<byte>, cursor: nat, end: nat, units: seq<seq<byte>>, tail: seq<byte>)
    requires cursor + 2 < end <= |payload| && end == cursor + 2 + Be16(payload[cursor], payload[cursor + 1])
    requires ProperUnits(units) && payload[end..] == StapBody(units) + tail
    ensures var all := [payload[cursor + 2..end]] + units;
      ProperUnits(all) && payload[cursor..] == StapBody(all) + tail
  {
    var unit := payload[cursor + 2..end];
    var all := [unit] + units;
    assert all[1..] == units;
    assert |unit| / 256 == payload[cursor] && |unit| % 256 == payload[cursor + 1];
    hide StapBody;
    StapBodyCons(unit, units);
    assert payload[cursor..] == [payload[cursor], payload[cursor + 1]] + unit + payload[end..];
    assert StapBody(all) + tail == [|unit| / 256, |unit| % 256] + unit + (StapBody(units) + tail);
  }

  lemma {:induction false} StapBodyCons(unit: seq<byte>, units: seq<seq<byte>>)
    requires 0 < |unit| < TWO_16 && ProperUnits(units)
    ensures ProperUnits([unit] + units)
    ensures StapBody([unit] + units) == [|unit| / 256, |unit| % 256] + unit + StapBody(units)
  {
    assert ([unit] + units)[1..] == units;
  }

  lemma {:induction false} NalusStep(p: Packet, unit: seq<byte>, units: seq<seq<byte>>, marker: bool)
    ensures UnitNalus([unit] + units, p.timestamp, p.sequence, marker)
      == [Nalu(unit, p.timestamp, p.sequence, p.sequence, true, marker && units == [])]
         + UnitNalus(units, p.timestamp, p.sequence, marker)
  {
    assert ([unit] + units)[1..] == units;
  }

  /** An aggregation packet hands over its units, the marker on the last of them, and is reported exactly
      when something follows that is no unit. */
  lemma AggregateHandedOver(s: State, p: Packet) returns (units: seq<seq<byte>>, tail: seq<byte>)
    requires p.payload != [] && p.payload[0] % 32 == 24
    ensures ProperUnits(units) && p.payload[1..] == StapBody(units) + tail && (tail == [] || NoUnit(tail))
    ensures PushState(s, p).1 == UnitNalus(units, p.timestamp, p.sequence, p.marker && tail == [])
    ensures PushState(s, p).0
      == if tail == [] then s else s.(issues := s.issues + [Issue(StapLength, p.sequence, p.timestamp)])
  {
    hide Aggregated, UnitNalus, StapBody;
    units, tail := AggregateIs(p, 1);
  }

  // ---------------------------------------------------------------- every packet

  /** The packet has an issue under its own sequence number and timestamp. */
  ghost predicate Complained(issues: seq<Issue>, p: Packet)
  {
    exists k :: 0 <= k < |issues| && issues[k].sequence == p.sequence && issues[k].timestamp == p.timestamp
  }

  /** Everything the packet carries was handed over: as a unit of its own, as the units of an aggregation
      packet, or as a member of a unit made of fragments. */
  ghost predicate HandedOver(ps: seq<Packet>, t: nat, nalus: seq<Nalu>)
    requires t < |ps|
  {
    || Whole(ps[t]) in nalus
    || (exists units: seq<seq<byte>> :: UnitsOf(ps[t], units) && AllIn(ps[t], units, nalus))
    || (exists k :: 0 <= k < |nalus| && Contributes(ps, t, nalus[k]))
  }

  function Whole(p: Packet): Nalu
  {
    Nalu(p.payload, p.timestamp, p.sequence, p.sequence, true, p.marker)
  }

  ghost predicate UnitsOf(p: Packet, units: seq<seq<byte>>)
  {
    p.payload != [] && p.payload[0] % 32 == 24 && ProperUnits(units) && p.payload[1..] == StapBody(units)
  }

  ghost predicate AllIn(p: Packet, units: seq<seq<byte>>, nalus: seq<Nalu>)
  {
    forall n :: n in UnitNalus(units, p.timestamp, p.sequence, p.marker) ==> n in nalus
  }

  ghost predicate Contributes(ps: seq<Packet>, t: nat, n: Nalu)
  {
    exists members: seq<nat> :: t in members && Makes(ps, members, n)
  }

  /** The unit is exactly what these packets carry. */
  ghost predicate Makes(ps: seq<Packet>, members: seq<nat>, n: Nalu)
  {
    MadeOf(ps, members, |ps|, Assembly(n.timestamp, n.first, n.last, n.data, true))
  }

  ghost predicate Fate(ps: seq<Packet>, t: nat, r: Run, open: seq<nat>)
    requires t < |ps|
  {
    Complained(r.state.issues, ps[t]) || HandedOver(ps, t, r.nalus) || t in open
  }

  /** What holds before packet `upto`: `open` are the members of the unit being assembled. */
  ghost predicate Fates(ps: seq<Packet>, upto: nat, r: Run, open: seq<nat>)
  {
    && upto <= |ps|
    && (if r.state.current.Some? then MadeOf(ps, open, upto, r.state.current.value) else open == [])
    && forall t: nat :: t < upto ==> Fate(ps, t, r, open)
  }

  lemma HandedOverStays(ps: seq<Packet>, t: nat, nalus: seq<Nalu>, more: seq<Nalu>)
    requires t < |ps| && HandedOver(ps, t, nalus)
    ensures HandedOver(ps, t, nalus + more)
  {
    hide Contributes, UnitsOf, Whole;
    var all := nalus + more;
    if k :| 0 <= k < |nalus| && Contributes(ps, t, nalus[k]) {
      assert all[k] == nalus[k];
    } else if units: seq<seq<byte>> :| UnitsOf(ps[t], units) && AllIn(ps[t], units, nalus) {
      assert AllIn(ps[t], units, all);
    }
  }

  lemma ComplainedStays(issues: seq<Issue>, more: seq<Issue>, p: Packet)
    requires Complained(issues, p) && issues <= more
    ensures Complained(more, p)
  {
    var k :| 0 <= k < |issues| && issues[k].sequence == p.sequence && issues[k].timestamp == p.timestamp;
    assert more[k] == issues[k];
  }

  lemma FateStays(ps: seq<Packet>, t: nat, r: Run, open: seq<nat>, issues: seq<Issue>, out: seq<Nalu>, next: seq<nat>,
                  current: Option<Assembly>)
    requires t < |ps| && Fate(ps, t, r, open) && r.state.issues <= issues
    requires t in open ==> t in next || HandedOver(ps, t, r.nalus + out)
    ensures Fate(ps, t, Run(State(current, issues), r.nalus + out), next)
  {
    hide Complained, HandedOver;
    if Complained(r.state.issues, ps[t]) {
      ComplainedStays(r.state.issues, issues, ps[t]);
    } else if HandedOver(ps, t, r.nalus) {
      HandedOverStays(ps, t, r.nalus, out);
    }
  }

  lemma LastComplained(issues: seq<Issue>, p: Packet, kind: Kind)
    ensures Complained(issues + [Issue(kind, p.sequence, p.timestamp)], p)
  {
    var all := issues + [Issue(kind, p.sequence, p.timestamp)];
    assert all[|issues|] == Issue(kind, p.sequence, p.timestamp);
  }

  lemma MadeLater(ps: seq<Packet>, members: seq<nat>, upto: nat, later: nat, a: Assembly)
    requires MadeOf(ps, members, upto, a) && upto <= later <= |ps|
    ensures MadeOf(ps, members, later, a)
  {
    hide Bodies, Rebuilt;
  }

  /** A packet that is no usable fragment: reported, or handed over at once. */
  lemma OtherFate(ps: seq<Packet>, t: nat, r: Run, open: seq<nat>)
    requires t < |ps| && !Fragment(ps[t], r.state.current.Some?)
    ensures var (next, out) := PushState(r.state, ps[t]);
      Fate(ps, t, Run(next, r.nalus + out), open)
  {
    hide PushState, Complained, UnitNalus, StapBody, NoUnit;
    var p, s := ps[t], r.state;
    if p.payload != [] && 1 <= p.payload[0] % 32 <= 23 {
      SingleHandedOver(s, p);
      assert (r.nalus + [Whole(p)])[|r.nalus|] == Whole(p);
    } else if p.payload != [] && p.payload[0] % 32 == 24 {
      var units, tail := AggregateHandedOver(s, p);
      if tail == [] {
        assert StapBody(units) + [] == StapBody(units);
        assert UnitsOf(p, units) && AllIn(p, units, r.nalus + PushState(s, p).1);
      } else {
        LastComplained(s.issues, p, StapLength);
      }
    } else {
      var kind := if p.payload == [] then EmptyPayload
        else if p.payload[0] % 32 != 28 then Unsupported else if |p.payload| < 2 then FuHeader else MissingStart;
      assert Refused(p, s.current.Some?, kind);
      RefusedReported(s, p, kind);
      LastComplained(s.issues, p, kind);
    }
  }

  lemma ClosedHandedOver(ps: seq<Packet>, members: seq<nat>, upto: nat, a: Assembly, nalus: seq<Nalu>, n: Nalu)
    requires MadeOf(ps, members, upto, a) && upto <= |ps| && n in nalus
    requires n.timestamp == a.timestamp && n.first == a.first && n.last == a.last && n.data == a.data
    ensures forall t :: t in members && t < |ps| ==> HandedOver(ps, t, nalus)
  {
    hide MadeOf, UnitsOf, AllIn, Whole;
    MadeLater(ps, members, upto, |ps|, a);
    MadeWithout(ps, members, a);
    var k :| 0 <= k < |nalus| && nalus[k] == n;
    forall t | t in members && t < |ps| ensures HandedOver(ps, t, nalus) {
      assert Makes(ps, members, nalus[k]);
      assert Contributes(ps, t, nalus[k]);
    }
  }

  lemma MadeWithout(ps: seq<Packet>, members: seq<nat>, a: Assembly)
    requires MadeOf(ps, members, |ps|, a)
    ensures MadeOf(ps, members, |ps|, a.(broken := true))
  {
    hide Bodies, Rebuilt;
  }

  lemma StartMade(ps: seq<Packet>, t: nat)
    requires t < |ps| && |ps[t].payload| >= 2 && StartBit(ps[t].payload[1])
    ensures var p := ps[t];
      MadeOf(ps, [t], t + 1, Assembly(p.timestamp, p.sequence, p.sequence,
        [Rebuilt(p.payload[0], p.payload[1])] + p.payload[2..], false))
  {
    hide Rebuilt;
    assert [t][..0] == [];
    assert Bodies(ps, []) == [] && Bodies(ps, [t]) == [] + ps[t].payload[2..];
  }

  /** The members of the assembly once a usable fragment has been taken in. */
  function Joining(p: Packet, t: nat, open: seq<nat>): seq<nat>
    requires |p.payload| >= 2
  {
    if StartBit(p.payload[1]) then [t] else open + [t]
  }

  /** A usable fragment is in the unit being assembled; a start hands the one before it over. */
  lemma JoiningMade(ps: seq<Packet>, t: nat, s: State, open: seq<nat>, nalus: seq<Nalu>)
    requires t < |ps| && Fragment(ps[t], s.current.Some?)
    requires if s.current.Some? then MadeOf(ps, open, t, s.current.value) else open == []
    ensures var p := ps[t];
      var (moved, out) := if StartBit(p.payload[1]) then StartState(s, p) else (ExtendState(s, p), []);
      && moved.current.Some? && MadeOf(ps, Joining(p, t, open), t + 1, moved.current.value)
      && s.issues <= moved.issues
      && forall j :: j in open && j < |ps| ==> j in Joining(p, t, open) || HandedOver(ps, j, nalus + out)
  {
    hide MadeOf, HandedOver, Rebuilt;
    var p := ps[t];
    if StartBit(p.payload[1]) {
      StartMade(ps, t);
      if s.current.Some? {
        var n := Finished(s.current.value, false, false);
        assert (nalus + [n])[|nalus|] == n;
        ClosedHandedOver(ps, open, t, s.current.value, nalus + [n], n);
      }
    } else {
      MembersGrow(ps, t, s.current.value, open);
    }
  }

  lemma FragmentFates(ps: seq<Packet>, t: nat, r: Run, open: seq<nat>) returns (next: seq<nat>)
    requires t < |ps| && Fates(ps, t, r, open) && Fragment(ps[t], r.state.current.Some?)
    ensures var (after, out) := PushState(r.state, ps[t]); Fates(ps, t + 1, Run(after, r.nalus + out), next)
  {
    hide PushState, StartState, ExtendState, MadeOf, HandedOver, Complained, Fate;
    var p, s := ps[t], r.state;
    var (after, out) := PushState(s, p);
    FragmentPushed(s, p);
    JoiningMade(ps, t, s, open, r.nalus);
    var (moved, given) := if StartBit(p.payload[1]) then StartState(s, p) else (ExtendState(s, p), []);
    var joined := Joining(p, t, open);
    assert t in joined;
    next := if EndBit(p.payload[1]) then [] else joined;
    if EndBit(p.payload[1]) {
      var a := moved.current.value;
      var n := Finished(a, !a.broken, p.marker);
      assert r.nalus + out == r.nalus + given + [n];
      assert (r.nalus + out)[|r.nalus + given|] == n;
      ClosedHandedOver(ps, joined, t + 1, a, r.nalus + out, n);
    }
    forall j: nat | j < t + 1 ensures Fate(ps, j, Run(after, r.nalus + out), next) {
      if j == t {
        NewFate(ps, t, Run(after, r.nalus + out), next);
      } else {
        if EndBit(p.payload[1]) && j in open && j !in joined {
          var n := Finished(moved.current.value, !moved.current.value.broken, p.marker);
          HandedOverStays(ps, j, r.nalus + given, [n]);
        }
        FateStays(ps, j, r, open, after.issues, out, next, after.current);
      }
    }
  }

  lemma NewFate(ps: seq<Packet>, t: nat, r: Run, open: seq<nat>)
    requires t < |ps| && (t in open || HandedOver(ps, t, r.nalus))
    ensures Fate(ps, t, r, open)
  {
    hide HandedOver, Complained;
  }

  lemma OtherFates(ps: seq<Packet>, t: nat, r: Run, open: seq<nat>)
    requires t < |ps| && Fates(ps, t, r, open) && !Fragment(ps[t], r.state.current.Some?)
    ensures var (after, out) := PushState(r.state, ps[t]); Fates(ps, t + 1, Run(after, r.nalus + out), open)
  {
    hide PushState, MadeOf, HandedOver, Complained, Fate;
    var p, s := ps[t], r.state;
    var (after, out) := PushState(s, p);
    OtherPacket(s, p);
    OtherFate(ps, t, r, open);
    if s.current.Some? {
      MadeLater(ps, open, t, t + 1, s.current.value);
    }
    forall j: nat | j < t ensures Fate(ps, j, Run(after, r.nalus + out), open) {
      FateStays(ps, j, r, open, after.issues, out, open, after.current);
    }
  }

  lemma {:induction false} FatesRun(ps: seq<Packet>, t: nat) returns (open: seq<nat>)
    requires t <= |ps|
    ensures Fates(ps, t, After(ps, t), open)
    decreases t
  {
    hide PushState, Fate;
    if t == 0 {
      assert ps[..0] == [];
      open := [];
    } else {
      hide Fates, After;
      open := FatesRun(ps, t - 1);
      AfterStep(ps, t - 1);
      if Fragment(ps[t - 1], After(ps, t - 1).state.current.Some?) {
        open := FragmentFates(ps, t - 1, After(ps, t - 1), open);
      } else {
        OtherFates(ps, t - 1, After(ps, t - 1), open);
      }
    }
  }

  /** Any packets whatsoever: at any moment every packet pushed has an issue of its own, has been handed
      over with all it carries, or is in the unit being assembled. */
  lemma EveryPacketAccounted(ps: seq<Packet>, upto: nat)
    requires upto <= |ps|
    ensures exists open :: Fates(ps, upto, After(ps, upto), open)
  {
    hide Fates, After;
    var open := FatesRun(ps, upto);
  }

  /** At the end of the input nothing is left in assembly, so every packet is reported or handed over. */
  lemma NothingVanishes(ps: seq<Packet>, t: nat)
    requires t < |ps|
    ensures Complained(Ended(ps).state.issues, ps[t]) || HandedOver(ps, t, Ended(ps).nalus)
  {
    hide After, MadeOf, HandedOver, Complained;
    var open := FatesRun(ps, |ps|);
    var r := After(ps, |ps|);
    assert Fate(ps, t, r, open);
    if r.state.current.Some? {
      var n := Finished(r.state.current.value, false, false);
      assert (r.nalus + [n])[|r.nalus|] == n;
      ClosedHandedOver(ps, open, |ps|, r.state.current.value, r.nalus + [n], n);
    }
    FateStays(ps, t, r, open, Ended(ps).state.issues, Abandon(r.state).1, [], None);
  }
}
