/** The coded picture buffer simulation: a leaky bucket over the access units of single-CBR epochs
    (simulate_hrd in crates/h264/src/analyze.rs). */
module HrdSimulation {
  import opened Wrappers
  import HrdSyntax
  import Frames

  const MAX_POINTS: nat := 50_000
  const CLOCK: nat := 90_000
  const U64_MAX: int := Frames.U64_MAX

  datatype Epoch = Epoch(hrd: HrdSyntax.Hrd, numUnitsInTick: nat, timeScale: nat, initialDelay: nat)

  datatype Timing = Timing(seiNalu: nat, removalDelay: nat, outputDelay: nat)

  type Unit = Frames.AccessUnit<Epoch, Timing>

  datatype Point = Point(accessUnit: nat, bits: nat, timing: Timing, before: nat, after: nat, overflow: bool,
                         underflow: bool)

  /** Why a unit ends or prevents the simulation. */
  datatype Reason = NoEntries | SeveralCpbs | VariableRate | NoClock | Incomplete | Untimed

  datatype Status = NotDeclared | EvidenceInsufficient | Simulated

  datatype Simulation = Simulation(status: Status, simulated: nat, minimum: Option<nat>, maximum: Option<nat>,
                                   points: seq<Point>, truncated: bool, overflows: seq<nat>, underflows: seq<nat>,
                                   discontinuities: seq<nat>, reasons: seq<(nat, Reason)>)

  // ---------------------------------------------------------------- which units are simulated

  /** A single constant-rate CPB with a usable clock. */
  predicate Usable(e: Epoch)
  {
    && e.hrd.cpbCount == 1 && |e.hrd.entries| == 1 && e.hrd.entries[0].cbr
    && e.numUnitsInTick != 0 && e.timeScale != 0
  }

  predicate Ready(u: Unit)
  {
    u.content.complete && u.content.timing.Some?
  }

  /** The epoch in force at unit `i` starts at `e`, is usable, and every unit since is complete and timed. */
  ghost predicate RunsFrom(units: seq<Unit>, e: nat, i: nat)
    requires e <= i < |units|
  {
    && units[e].content.epoch.Some? && Usable(units[e].content.epoch.value)
    && (forall j :: e < j <= i ==> units[j].content.epoch.None?)
    && (forall j :: e <= j <= i ==> Ready(units[j]))
  }

  ghost predicate SimulatedAt(units: seq<Unit>, i: nat)
    requires i < |units|
  {
    exists e: nat :: e <= i && RunsFrom(units, e, i)
  }

  ghost predicate Continues(units: seq<Unit>, i: nat)
    requires i < |units|
  {
    if units[i].content.epoch.Some? then Usable(units[i].content.epoch.value) else i > 0 && SimulatedAt(units, i - 1)
  }

  /** Unit by unit: a new epoch decides alone, otherwise the unit before must have been simulated. */
  lemma SimulatedStep(units: seq<Unit>, i: nat)
    requires i < |units|
    ensures SimulatedAt(units, i) <==> Ready(units[i]) && Continues(units, i)
  {
    hide Ready, Usable;
    if SimulatedAt(units, i) {
      var e: nat :| e <= i && RunsFrom(units, e, i);
      assert Ready(units[i]);
      if e < i {
        assert units[i].content.epoch.None? && RunsFrom(units, e, i - 1);
      }
    }
    if Ready(units[i]) && units[i].content.epoch.Some? && Usable(units[i].content.epoch.value) {
      assert RunsFrom(units, i, i);
    }
    if Ready(units[i]) && units[i].content.epoch.None? && i > 0 && SimulatedAt(units, i - 1) {
      var e: nat :| e <= i - 1 && RunsFrom(units, e, i - 1);
      assert RunsFrom(units, e, i);
    }
  }

  /** Where the epoch of a simulated unit starts. */
  ghost function Start(units: seq<Unit>, i: nat): (e: nat)
    requires i < |units| && SimulatedAt(units, i)
    ensures e <= i && RunsFrom(units, e, i)
  {
    var e: nat :| e <= i && RunsFrom(units, e, i);
    e
  }

  lemma StartUnique(units: seq<Unit>, i: nat, e: nat)
    requires i < |units| && e <= i && RunsFrom(units, e, i)
    ensures SimulatedAt(units, i) && Start(units, i) == e
  {
  }

  ghost function EpochOf(units: seq<Unit>, i: nat): (e: Epoch)
    requires i < |units| && SimulatedAt(units, i)
    ensures Usable(e)
  {
    units[Start(units, i)].content.epoch.value
  }

  lemma StartSteps(units: seq<Unit>, i: nat)
    requires i < |units| && SimulatedAt(units, i)
    ensures Ready(units[i])
    ensures Start(units, i) == i <==> units[i].content.epoch.Some?
    ensures Start(units, i) < i ==> SimulatedAt(units, i - 1) && Start(units, i - 1) == Start(units, i)
  {
    hide Ready, Usable;
    var e := Start(units, i);
    assert e < i ==> units[i].content.epoch.None?;
    assert Ready(units[i]);
    if e < i {
      assert RunsFrom(units, e, i - 1);
      StartUnique(units, i - 1, e);
    }
  }

  // ---------------------------------------------------------------- fullness

  function Initial(e: Epoch): (bits: nat)
    requires Usable(e)
  {
    Min(e.hrd.entries[0].bitRate * e.initialDelay / CLOCK, U64_MAX)
  }

  /** Ticks between two removal delays, modulo the width of the delay field. The subtraction is taken
      modulo 2^64, which the modulus divides. */
  function Delta(e: Epoch, previous: nat, delay: nat): (ticks: nat)
  {
    var modulus := Pow2(e.hrd.removalDelayLength);
    (delay + modulus - previous) % modulus
  }

  function Arrived(e: Epoch, previous: nat, delay: nat): (bits: nat)
    requires Usable(e)
  {
    Min(e.hrd.entries[0].bitRate * Delta(e, previous, delay) * e.numUnitsInTick / e.timeScale, U64_MAX)
  }

  function After(before: nat, bits: nat): nat
  {
    Max(before - bits, 0)
  }

  /** Bits that arrive between unit `i - 1` and unit `i` of one epoch. */
  ghost function ArrivedAt(units: seq<Unit>, i: nat): nat
    requires i < |units| && SimulatedAt(units, i) && Start(units, i) < i
  {
    StartSteps(units, i);
    StartSteps(units, i - 1);
    Arrived(EpochOf(units, i), units[i - 1].content.timing.value.removalDelay,
      units[i].content.timing.value.removalDelay)
  }

  /** Fullness just before unit `i` is removed. */
  ghost function Before(units: seq<Unit>, i: nat): nat
    requires i < |units| && SimulatedAt(units, i)
  {
    if Start(units, i) == i then Initial(EpochOf(units, i))
    else
      StartSteps(units, i);
      Frames.SatAdd(After(Before(units, i - 1), units[i - 1].content.bits), ArrivedAt(units, i))
  }

  ghost predicate Underflows(units: seq<Unit>, i: nat)
    requires i < |units| && SimulatedAt(units, i)
  {
    Before(units, i) < units[i].content.bits
  }

  // ---------------------------------------------------------------- closed form

  /** Bits that arrived from the epoch's start up to unit `i`, its initial fullness included. */
  ghost function Inflow(units: seq<Unit>, i: nat): nat
    requires i < |units| && SimulatedAt(units, i)
  {
    if Start(units, i) == i then Initial(EpochOf(units, i))
    else
      StartSteps(units, i);
      Inflow(units, i - 1) + ArrivedAt(units, i)
  }

  /** Bits of the epoch's units before unit `i`. */
  ghost function Removed(units: seq<Unit>, i: nat): nat
    requires i < |units| && SimulatedAt(units, i)
  {
    if Start(units, i) == i then 0
    else
      StartSteps(units, i);
      Removed(units, i - 1) + units[i - 1].content.bits
  }

  /** Bits of those units that were not in the buffer when they were due. */
  ghost function Shortfall(units: seq<Unit>, i: nat): nat
    requires i < |units| && SimulatedAt(units, i)
  {
    if Start(units, i) == i then 0
    else
      StartSteps(units, i);
      Shortfall(units, i - 1) + Max(units[i - 1].content.bits - Before(units, i - 1), 0)
  }

  /** Conservation: without saturation, fullness is what arrived less what was removed, plus exactly
      the bits that underflows could not remove. */
  lemma {:induction false} BucketConserves(units: seq<Unit>, i: nat)
    requires i < |units| && SimulatedAt(units, i) && Inflow(units, i) <= U64_MAX
    ensures Before(units, i) + Removed(units, i) == Inflow(units, i) + Shortfall(units, i)
    ensures Before(units, i) <= Inflow(units, i)
    decreases i
  {
    hide Initial, ArrivedAt, Start, SimulatedAt, EpochOf;
    if Start(units, i) != i {
      StartSteps(units, i);
      BucketConserves(units, i - 1);
    }
  }

  lemma {:induction false} ShortfallZero(units: seq<Unit>, i: nat)
    requires i < |units| && SimulatedAt(units, i)
    ensures Shortfall(units, i) == 0 <==>
      forall j :: Start(units, i) <= j < i ==> SimulatedAt(units, j) && !Underflows(units, j)
    decreases i
  {
    hide Start, SimulatedAt, Before;
    if Start(units, i) != i {
      StartSteps(units, i);
      ShortfallZero(units, i - 1);
      ShortfallStep(units, i);
    }
  }

  lemma ShortfallStep(units: seq<Unit>, i: nat)
    requires i < |units| && SimulatedAt(units, i) && Start(units, i) < i
    ensures SimulatedAt(units, i - 1)
    ensures Shortfall(units, i) == 0 <==> Shortfall(units, i - 1) == 0 && !Underflows(units, i - 1)
  {
    hide Start, SimulatedAt, Before;
    StartSteps(units, i);
  }

  /** Fullness before a removal is the plain balance exactly when no earlier unit of the epoch
      underflowed. */
  lemma {:induction false} BalanceIff(units: seq<Unit>, i: nat)
    requires i < |units| && SimulatedAt(units, i) && Inflow(units, i) <= U64_MAX
    ensures Before(units, i) == Inflow(units, i) - Removed(units, i) <==>
      forall j :: Start(units, i) <= j < i ==> SimulatedAt(units, j) && !Underflows(units, j)
  {
    hide Start, SimulatedAt, Before, Inflow, Removed, Shortfall, Underflows;
    BucketConserves(units, i);
    ShortfallZero(units, i);
  }

  // ---------------------------------------------------------------- the report

  ghost function PointAt(units: seq<Unit>, i: nat): Point
    requires i < |units| && SimulatedAt(units, i)
  {
    StartSteps(units, i);
    var bits := units[i].content.bits;
    Point(units[i].number, bits, units[i].content.timing.value, Before(units, i), After(Before(units, i), bits),
          Before(units, i) > EpochOf(units, i).hrd.entries[0].cpbSize, Before(units, i) < bits)
  }

  /** The simulated units among the first `n`, as the report describes them. */
  ghost function Points(units: seq<Unit>, n: nat): seq<Point>
    requires n <= |units|
  {
    if n == 0 then []
    else Points(units, n - 1) + (if SimulatedAt(units, n - 1) then [PointAt(units, n - 1)] else [])
  }

  function OverflowsOf(points: seq<Point>): seq<nat>
  {
    if points == [] then []
    else
      OverflowsOf(points[..|points|-1])
      + (if points[|points|-1].overflow then [points[|points|-1].accessUnit] else [])
  }

  function UnderflowsOf(points: seq<Point>): seq<nat>
  {
    if points == [] then []
    else
      UnderflowsOf(points[..|points|-1])
      + (if points[|points|-1].underflow then [points[|points|-1].accessUnit] else [])
  }

  /** A value that some simulated unit has and none falls below, or none when nothing was simulated. */
  ghost predicate IsMinimum(points: seq<Point>, m: Option<nat>)
  {
    match m
    case None => points == []
    case Some(v) =>
      (exists k :: 0 <= k < |points| && points[k].before == v)
      && forall k :: 0 <= k < |points| ==> v <= points[k].before
  }

  ghost predicate IsMaximum(points: seq<Point>, m: Option<nat>)
  {
    match m
    case None => points == []
    case Some(v) =>
      (exists k :: 0 <= k < |points| && points[k].before == v)
      && forall k :: 0 <= k < |points| ==> points[k].before <= v
  }

  /** Units of a running epoch whose removal delay repeats the one before. */
  ghost function Repeats(units: seq<Unit>, n: nat): seq<nat>
    requires n <= |units|
  {
    if n == 0 then []
    else Repeats(units, n - 1) + (if RepeatsAt(units, n - 1) then [units[n - 1].number] else [])
  }

  ghost predicate RepeatsAt(units: seq<Unit>, i: nat)
    requires i < |units|
  {
    && SimulatedAt(units, i) && Start(units, i) < i
    && (StartSteps(units, i); StartSteps(units, i - 1);
        Delta(EpochOf(units, i), units[i - 1].content.timing.value.removalDelay,
          units[i].content.timing.value.removalDelay) == 0)
  }

  function EpochReason(e: Epoch): (r: Option<Reason>)
    ensures r.None? <==> Usable(e)
  {
    if e.hrd.entries == [] then Some(NoEntries)
    else if e.hrd.cpbCount != 1 || |e.hrd.entries| != 1 then Some(SeveralCpbs)
    else if !e.hrd.entries[0].cbr then Some(VariableRate)
    else if e.numUnitsInTick == 0 || e.timeScale == 0 then Some(NoClock)
    else None
  }

  /** What is said about a unit that is not simulated. */
  ghost function ReasonAt(units: seq<Unit>, i: nat): Option<Reason>
    requires i < |units|
  {
    var epoch := units[i].content.epoch;
    if epoch.Some? && !Usable(epoch.value) then EpochReason(epoch.value)
    else if epoch.None? && (i == 0 || !SimulatedAt(units, i - 1)) then None
    else if !units[i].content.complete then Some(Incomplete)
    else if units[i].content.timing.None? then Some(Untimed)
    else None
  }

  ghost function Reasons(units: seq<Unit>, n: nat): seq<(nat, Reason)>
    requires n <= |units|
  {
    if n == 0 then []
    else
      Reasons(units, n - 1)
      + (if ReasonAt(units, n - 1).Some? then [(units[n - 1].number, ReasonAt(units, n - 1).value)] else [])
  }

  /** A unit has a reason exactly when it is not simulated although it brings an epoch or follows a
      simulated unit: no run ends silently. */
  lemma NoSilentStop(units: seq<Unit>, i: nat)
    requires i < |units|
    ensures ReasonAt(units, i).Some? <==>
      !SimulatedAt(units, i) && (units[i].content.epoch.Some? || (i > 0 && SimulatedAt(units, i - 1)))
  {
    hide SimulatedAt, Usable;
    SimulatedStep(units, i);
  }

  /** The points a report shows. */
  function Kept(all: seq<Point>): seq<Point>
  {
    all[..Min(|all|, MAX_POINTS)]
  }

  ghost predicate Reports(units: seq<Unit>, n: nat, s: Simulation)
    requires n <= |units|
  {
    var all := Points(units, n);
    && s.simulated == |all| && s.points == Kept(all) && (s.truncated <==> |all| > MAX_POINTS)
    && IsMinimum(all, s.minimum) && IsMaximum(all, s.maximum)
    && s.overflows == OverflowsOf(all) && s.underflows == UnderflowsOf(all)
    && s.discontinuities == Repeats(units, n) && s.reasons == Reasons(units, n)
    && s.status == if all == [] then EvidenceInsufficient else Simulated
  }

  const NOTHING: Simulation := Simulation(EvidenceInsufficient, 0, None, None, [], false, [], [], [], [])

  /** The epoch being simulated, the fullness after the last removal, and the last removal delay. */
  datatype Active = Active(epoch: Epoch, after: nat, previous: Option<nat>)

  ghost predicate Carries(units: seq<Unit>, n: nat, active: Option<Active>)
    requires n <= |units|
  {
    && (active.Some? <==> n > 0 && SimulatedAt(units, n - 1))
    && (active.Some? ==> CarriesFrom(units, n - 1, active.value))
  }

  ghost predicate CarriesFrom(units: seq<Unit>, i: nat, active: Active)
    requires i < |units| && SimulatedAt(units, i)
  {
    StartSteps(units, i);
    && active.epoch == EpochOf(units, i) && active.after == After(Before(units, i), units[i].content.bits)
    && active.previous == Some(units[i].content.timing.value.removalDelay)
  }

  function WithReason(s: Simulation, unit: Unit, r: Reason): Simulation
  {
    s.(reasons := s.reasons + [(unit.number, r)])
  }

  lemma SkipStep(units: seq<Unit>, n: nat, s: Simulation)
    requires n < |units| && Reports(units, n, s) && !SimulatedAt(units, n)
    ensures Reports(units, n + 1,
      if ReasonAt(units, n).Some? then WithReason(s, units[n], ReasonAt(units, n).value) else s)
  {
    hide SimulatedAt, ReasonAt, IsMinimum, IsMaximum, OverflowsOf, UnderflowsOf;
    assert Points(units, n + 1) == Points(units, n);
    assert Repeats(units, n + 1) == Repeats(units, n);
    assert ReasonAt(units, n).None? ==> Reasons(units, n + 1) == Reasons(units, n);
  }

  /** The report with one more simulated unit. */
  function WithPoint(s: Simulation, p: Point, repeats: bool): Simulation
  {
    s.(overflows := if p.overflow then s.overflows + [p.accessUnit] else s.overflows,
       underflows := if p.underflow then s.underflows + [p.accessUnit] else s.underflows,
       minimum := Some(if s.minimum.None? then p.before else Min(s.minimum.value, p.before)),
       maximum := Some(if s.maximum.None? then p.before else Max(s.maximum.value, p.before)),
       simulated := s.simulated + 1,
       points := if |s.points| < MAX_POINTS then s.points + [p] else s.points,
       truncated := s.truncated || |s.points| >= MAX_POINTS,
       discontinuities := if repeats then s.discontinuities + [p.accessUnit] else s.discontinuities,
       status := Simulated)
  }

  lemma PointStep(units: seq<Unit>, n: nat, s: Simulation)
    requires n < |units| && Reports(units, n, s) && SimulatedAt(units, n)
    ensures Reports(units, n + 1, WithPoint(s, PointAt(units, n), RepeatsAt(units, n)))
  {
    hide SimulatedAt, RepeatsAt, PointAt, IsMinimum, IsMaximum, OverflowsOf, UnderflowsOf, ReasonAt, Kept;
    NoSilentStop(units, n);
    var all, p := Points(units, n), PointAt(units, n);
    PointNumber(units, n);
    ListsStep(all, p);
    KeptStep(all, p);
    ExtremesStep(all, p, s.minimum, s.maximum);
    assert Points(units, n + 1) == all + [p];
    assert Reasons(units, n + 1) == Reasons(units, n);
    assert !RepeatsAt(units, n) ==> Repeats(units, n + 1) == Repeats(units, n);
  }

  lemma {:induction false} ListsStep(all: seq<Point>, p: Point)
    ensures OverflowsOf(all + [p]) == if p.overflow then OverflowsOf(all) + [p.accessUnit] else OverflowsOf(all)
    ensures UnderflowsOf(all + [p]) == if p.underflow then UnderflowsOf(all) + [p.accessUnit] else UnderflowsOf(all)
  {
    assert (all + [p])[..|all|] == all;
  }

  lemma KeptStep(all: seq<Point>, p: Point)
    ensures Kept(all + [p]) == if |Kept(all)| < MAX_POINTS then Kept(all) + [p] else Kept(all)
    ensures |all + [p]| > MAX_POINTS <==> |Kept(all)| >= MAX_POINTS
    ensures |all| > MAX_POINTS ==> |Kept(all)| >= MAX_POINTS
  {
  }

  lemma PointNumber(units: seq<Unit>, n: nat)
    requires n < |units| && SimulatedAt(units, n)
    ensures PointAt(units, n).accessUnit == units[n].number
  {
    hide SimulatedAt;
  }

  lemma ExtremesStep(all: seq<Point>, p: Point, minimum: Option<nat>, maximum: Option<nat>)
    requires IsMinimum(all, minimum) && IsMaximum(all, maximum)
    ensures IsMinimum(all + [p], Some(if minimum.None? then p.before else Min(minimum.value, p.before)))
    ensures IsMaximum(all + [p], Some(if maximum.None? then p.before else Max(maximum.value, p.before)))
  {
    var more := all + [p];
    assert more[|all|] == p;
    assert forall k :: 0 <= k < |all| ==> more[k] == all[k];
    if minimum.Some? {
      var k :| 0 <= k < |all| && all[k].before == minimum.value;
      assert more[k].before == minimum.value;
    }
    if maximum.Some? {
      var k :| 0 <= k < |all| && all[k].before == maximum.value;
      assert more[k].before == maximum.value;
    }
  }

  method Simulate(units: seq<Unit>, declared: bool) returns (s: Simulation)
    ensures !declared ==> s == NOTHING.(status := NotDeclared)
    ensures declared ==> Reports(units, |units|, s)
  {
    hide SimulatedAt, Reports, Carries, Delta, Arrived, Initial;
    if !declared {
      return NOTHING.(status := NotDeclared);
    }
    s := NOTHING;
    var active: Option<Active> := None;
    ReportsNothing(units);
    for n := 0 to |units|
      invariant Reports(units, n, s) && Carries(units, n, active)
    {
      var unit := units[n];
      Governs(units, n, s, active);
      if unit.content.epoch.Some? {
        var epoch := unit.content.epoch.value;
        var reason := EpochReason(epoch);
        if reason.Some? {
          s := WithReason(s, unit, reason.value);
          active := None;
          continue;
        }
        active := Some(Active(epoch, Initial(epoch), None));
      }
      if active.None? {
        continue;
      }
      var Active(epoch, fullnessAfterPrevious, previous) := active.value;
      active := None;
      if !unit.content.complete {
        s := WithReason(s, unit, Incomplete);
        continue;
      }
      if unit.content.timing.None? {
        s := WithReason(s, unit, Untimed);
        continue;
      }
      var timing := unit.content.timing.value;
      var fullnessBefore := fullnessAfterPrevious;
      var repeats := false;
      if previous.Some? {
        repeats := Delta(epoch, previous.value, timing.removalDelay) == 0;
        fullnessBefore := Frames.SatAdd(fullnessAfterPrevious, Arrived(epoch, previous.value, timing.removalDelay));
      }
      var fullnessAfter := After(fullnessBefore, unit.content.bits);
      var point := Point(unit.number, unit.content.bits, timing, fullnessBefore, fullnessAfter,
                         fullnessBefore > epoch.hrd.entries[0].cpbSize, fullnessBefore < unit.content.bits);
      s := WithPoint(s, point, repeats);
      active := Some(Active(epoch, fullnessAfter, Some(timing.removalDelay)));
    }
  }

  lemma ReportsNothing(units: seq<Unit>)
    ensures Reports(units, 0, NOTHING) && Carries(units, 0, None)
  {
  }

  /** What the loop body decides about unit `n`, and what it carries on. */
  lemma Governs(units: seq<Unit>, n: nat, s: Simulation, active: Option<Active>)
    requires n < |units| && Reports(units, n, s) && Carries(units, n, active)
    ensures ReasonAt(units, n).Some? ==> Reports(units, n + 1, WithReason(s, units[n], ReasonAt(units, n).value))
    ensures !SimulatedAt(units, n) && ReasonAt(units, n).None? ==> Reports(units, n + 1, s)
    ensures SimulatedAt(units, n) <==> Ready(units[n]) && Continues(units, n)
    ensures active.Some? <==> n > 0 && SimulatedAt(units, n - 1)
    ensures !SimulatedAt(units, n) ==> Carries(units, n + 1, None)
    ensures SimulatedAt(units, n) ==> Simulates(units, n, s, active)
  {
    hide SimulatedAt, Reports, Usable, Simulates;
    SimulatedStep(units, n);
    NoSilentStop(units, n);
    if SimulatedAt(units, n) {
      PointGoverned(units, n, s, active);
    } else {
      SkipStep(units, n, s);
    }
  }

  ghost predicate Simulates(units: seq<Unit>, n: nat, s: Simulation, active: Option<Active>)
    requires n < |units| && SimulatedAt(units, n)
  {
    StartSteps(units, n);
    var p := PointAt(units, n);
    && Reports(units, n + 1, WithPoint(s, p, RepeatsAt(units, n)))
    && Carries(units, n + 1, Some(Active(EpochOf(units, n), p.after, Some(units[n].content.timing.value.removalDelay))))
    && (units[n].content.epoch.Some? ==>
          EpochOf(units, n) == units[n].content.epoch.value && p.before == Initial(EpochOf(units, n))
            && !RepeatsAt(units, n))
    && (units[n].content.epoch.None? && active.Some? ==>
          && EpochOf(units, n) == active.value.epoch && active.value.previous.Some?
          && var delay := units[n].content.timing.value.removalDelay;
             && p.before == Frames.SatAdd(active.value.after,
               Arrived(active.value.epoch, active.value.previous.value, delay))
             && (RepeatsAt(units, n) <==> Delta(active.value.epoch, active.value.previous.value, delay) == 0))
  }

  lemma PointGoverned(units: seq<Unit>, n: nat, s: Simulation, active: Option<Active>)
    requires n < |units| && Reports(units, n, s) && Carries(units, n, active) && SimulatedAt(units, n)
    ensures Simulates(units, n, s, active)
  {
    hide SimulatedAt, Reports, Usable, Start, Delta, Arrived, Initial;
    PointStep(units, n, s);
    StartSteps(units, n);
    if units[n].content.epoch.None? {
      StartSteps(units, n - 1);
    }
  }
}
