/** What the numbers of an HRD report mean, in terms of the access units alone. */
module HrdReport {
  import opened Wrappers
  import opened HrdSimulation
  import HrdSyntax
  import Frames

  // ---------------------------------------------------------------- which units are simulated

  predicate ConstantRate(e: Epoch)
  {
    |e.hrd.entries| == 1 == e.hrd.cpbCount && e.hrd.entries[0].cbr && e.numUnitsInTick > 0 && e.timeScale > 0
  }

  /** A unit is simulated exactly when it is complete and timed and either brings a constant-rate epoch
      or follows a simulated unit without bringing one. */
  lemma SimulatedExactly(units: seq<Unit>, i: nat)
    requires i < |units|
    ensures SimulatedAt(units, i) <==>
      && units[i].content.complete && units[i].content.timing.Some?
      && match units[i].content.epoch
         case Some(e) => ConstantRate(e)
         case None => i > 0 && SimulatedAt(units, i - 1)
  {
    hide SimulatedAt;
    SimulatedStep(units, i);
  }

  /** The epoch in force is the last one brought. */
  lemma EpochInForce(units: seq<Unit>, i: nat)
    requires i < |units| && SimulatedAt(units, i)
    ensures units[i].content.epoch.Some? ==> EpochOf(units, i) == units[i].content.epoch.value
    ensures units[i].content.epoch.None? ==>
      i > 0 && SimulatedAt(units, i - 1) && EpochOf(units, i) == EpochOf(units, i - 1)
  {
    hide SimulatedAt, Start, Usable, Ready;
    StartSteps(units, i);
  }

  // ---------------------------------------------------------------- ticks and bits

  /** The ticks between two removal delays carry the first to the second, modulo the field's width. */
  lemma DeltaExact(e: Epoch, previous: nat, delay: nat)
    ensures Delta(e, previous, delay) < Pow2(e.hrd.removalDelayLength)
    ensures (previous + Delta(e, previous, delay)) % Pow2(e.hrd.removalDelayLength)
      == delay % Pow2(e.hrd.removalDelayLength)
  {
    var m := Pow2(e.hrd.removalDelayLength);
    var q := (delay + m - previous) / m;
    assert previous + Delta(e, previous, delay) == delay + (1 - q) * m;
    AddMultiple(delay, 1 - q, m);
  }

  lemma AddMultiple(a: int, k: int, m: nat)
    requires m > 0
    ensures (a + k * m) % m == a % m
  {
    var q, r := a / m, a % m;
    assert a + k * m == (q + k) * m + r;
    QuotientUnique(a + k * m, q + k, r, m);
  }

  lemma QuotientUnique(a: int, q: int, r: nat, m: nat)
    requires a == q * m + r && r < m
    ensures a % m == r && a / m == q
  {
    var d := a / m - q;
    MulGap(d, m);
    assert d * m == r - a % m;
  }

  lemma MulGap(d: int, m: nat)
    ensures d > 0 ==> d * m >= m
    ensures d < 0 ==> d * m + m <= 0
  {
  }

  /** They are the only such number below the modulus. */
  lemma DeltaUnique(e: Epoch, previous: nat, delay: nat, d: nat)
    requires d < Pow2(e.hrd.removalDelayLength)
    requires (previous + d) % Pow2(e.hrd.removalDelayLength) == delay % Pow2(e.hrd.removalDelayLength)
    ensures Delta(e, previous, delay) == d
  {
    var m := Pow2(e.hrd.removalDelayLength);
    var x := Delta(e, previous, delay);
    hide Delta;
    DeltaExact(e, previous, delay);
    SameRemainder(previous + x, previous + d, m);
  }

  lemma SameRemainder(a: nat, b: nat, m: nat)
    requires m > 0 && a % m == b % m && a < b + m && b < a + m
    ensures a == b
  {
    var d := a / m - b / m;
    MulGap(d, m);
    assert a - b == d * m;
  }

  /** The bits a constant-rate CPB receives in some 90 kHz ticks, within 64 bits. */
  function InitialBits(e: Epoch): int
    requires e.hrd.entries != []
  {
    Min(e.hrd.entries[0].bitRate * e.initialDelay / 90_000, 0xffff_ffff_ffff_ffff)
  }

  /** And in some ticks of the stream's own clock. */
  function TickBits(e: Epoch, d: nat): int
    requires e.hrd.entries != [] && e.timeScale > 0
  {
    Min(e.hrd.entries[0].bitRate * d * e.numUnitsInTick / e.timeScale, 0xffff_ffff_ffff_ffff)
  }

  /** The first unit of an epoch sees the bits of the initial delay, counted by a 90 kHz clock. */
  lemma {:induction false} FirstFullness(units: seq<Unit>, i: nat)
    requires i < |units| && SimulatedAt(units, i) && units[i].content.epoch.Some?
    ensures var e := units[i].content.epoch.value;
      e.hrd.entries != [] && Before(units, i) == InitialBits(e)
  {
    hide SimulatedAt, Start;
    StartSteps(units, i);
    EpochInForce(units, i);
  }

  /** Every later one sees what the one before left and the bits of the ticks between their removals. */
  lemma NextFullness(units: seq<Unit>, i: nat, d: nat)
    requires i < |units| && SimulatedAt(units, i) && units[i].content.epoch.None?
    requires i > 0 && SimulatedAt(units, i - 1)
    requires units[i - 1].content.timing.Some? && units[i].content.timing.Some?
    requires Advances(EpochOf(units, i), units[i - 1].content.timing.value, units[i].content.timing.value, d)
    ensures var e := EpochOf(units, i);
      var left := Max(Before(units, i - 1) - units[i - 1].content.bits, 0);
      Before(units, i) == Min(left + TickBits(e, d), 0xffff_ffff_ffff_ffff)
    ensures RepeatsAt(units, i) <==> d == 0
  {
    hide SimulatedAt, Start, Delta, Usable;
    StartSteps(units, i);
    EpochInForce(units, i);
    DeltaUnique(EpochOf(units, i), units[i - 1].content.timing.value.removalDelay,
      units[i].content.timing.value.removalDelay, d);
  }

  /** The removal delay advances by `d` ticks, modulo the width of its field. */
  predicate Advances(e: Epoch, from: Timing, to: Timing, d: nat)
  {
    && d < Pow2(e.hrd.removalDelayLength)
    && (from.removalDelay + d) % Pow2(e.hrd.removalDelayLength)
       == to.removalDelay % Pow2(e.hrd.removalDelayLength)
  }

  ghost predicate AdvancesAt(units: seq<Unit>, e: Epoch, j: nat, d: nat)
    requires 0 < j < |units|
  {
    && units[j - 1].content.timing.Some? && units[j].content.timing.Some?
    && Advances(e, units[j - 1].content.timing.value, units[j].content.timing.value, d)
  }

  /** A run whose removal delays advance evenly receives the same bits between any two removals. */
  lemma {:induction false} EvenInflow(units: seq<Unit>, i: nat, d: nat)
    requires i < |units| && SimulatedAt(units, i)
    requires forall j: nat :: Start(units, i) < j <= i ==> AdvancesAt(units, EpochOf(units, i), j, d)
    ensures var e := EpochOf(units, i);
      Inflow(units, i) == InitialBits(e) + (i - Start(units, i)) * TickBits(e, d)
    decreases i
  {
    hide SimulatedAt, Start, Delta, Ready, Advances, InitialBits, TickBits, Arrived, Initial;
    StartSteps(units, i);
    EpochInForce(units, i);
    InitialIs(EpochOf(units, i));
    if Start(units, i) < i {
      var e, each := EpochOf(units, i), TickBits(EpochOf(units, i), d);
      EvenInflow(units, i - 1, d);
      assert AdvancesAt(units, e, i, d);
      ArrivedIs(e, units[i - 1].content.timing.value, units[i].content.timing.value, d);
      var k := i - 1 - Start(units, i);
      assert (k + 1) * each == k * each + each;
    }
  }

  lemma InitialIs(e: Epoch)
    requires Usable(e)
    ensures Initial(e) == InitialBits(e)
  {
  }

  lemma ArrivedIs(e: Epoch, from: Timing, to: Timing, d: nat)
    requires Usable(e) && Advances(e, from, to, d)
    ensures Arrived(e, from.removalDelay, to.removalDelay) == TickBits(e, d)
  {
    hide Delta;
    DeltaUnique(e, from.removalDelay, to.removalDelay, d);
  }

  // ---------------------------------------------------------------- the report

  /** A point shows its unit and both levels of the bucket; an overflow is a level above the buffer's
      size, an underflow a level below the unit's bits. */
  lemma {:induction false} PointMeans(units: seq<Unit>, i: nat)
    requires i < |units| && SimulatedAt(units, i)
    ensures units[i].content.timing.Some? && EpochOf(units, i).hrd.entries != []
    ensures var p, level, bits := PointAt(units, i), Before(units, i), units[i].content.bits;
      && p.accessUnit == units[i].number && p.bits == bits && p.timing == units[i].content.timing.value
      && p.before == level && p.after == (if bits <= level then level - bits else 0)
      && (p.overflow <==> level > EpochOf(units, i).hrd.entries[0].cpbSize) && (p.underflow <==> level < bits)
  {
    hide SimulatedAt, Start, Before;
    StartSteps(units, i);
  }

  /** Exactly the indexes below `n` with a property, in ascending order. */
  ghost predicate ChosenBy(n: nat, chosen: seq<nat>, has: nat -> bool)
  {
    && (forall k :: 0 <= k < |chosen| ==> chosen[k] < n && has(chosen[k]))
    && (forall k, l :: 0 <= k < l < |chosen| ==> chosen[k] < chosen[l])
    && (forall i: nat :: i < n && has(i) ==> i in chosen)
  }

  function Chosen(n: nat, has: nat -> bool): seq<nat>
  {
    if n == 0 then [] else Chosen(n - 1, has) + (if has(n - 1) then [n - 1] else [])
  }

  lemma {:induction false} ChosenExactly(n: nat, has: nat -> bool)
    ensures ChosenBy(n, Chosen(n, has), has)
  {
    if n > 0 {
      ChosenExactly(n - 1, has);
      var before, all := Chosen(n - 1, has), Chosen(n, has);
      forall i: nat | i < n && has(i) ensures i in all {
        assert i < n - 1 ==> i in before;
      }
    }
  }

  predicate Below(chosen: seq<nat>, n: nat)
  {
    forall k :: 0 <= k < |chosen| ==> chosen[k] < n
  }

  lemma {:induction false} ChosenBelow(n: nat, has: nat -> bool)
    ensures Below(Chosen(n, has), n)
  {
    ChosenExactly(n, has);
  }

  function NumbersAt(units: seq<Unit>, chosen: seq<nat>): seq<nat>
    requires Below(chosen, |units|)
  {
    seq(|chosen|, k requires 0 <= k < |chosen| => units[chosen[k]].number)
  }

  /** A list of the report: the numbers of exactly the units with a property, in order. */
  ghost predicate Lists(units: seq<Unit>, n: nat, numbers: seq<nat>, has: nat -> bool)
    requires n <= |units|
  {
    exists chosen: seq<nat> :: ChosenBy(n, chosen, has) && numbers == NumbersAt(units, chosen)
  }

  /** The points are those of exactly the simulated units, in order. */
  ghost predicate Shows(units: seq<Unit>, n: nat, points: seq<Point>)
    requires n <= |units|
  {
    exists chosen: seq<nat> :: ChosenBy(n, chosen, Simulating(units))
      && |chosen| == |points|
      && forall k :: 0 <= k < |points| ==> points[k] == PointAt(units, chosen[k])
  }

  // properties of units, as functions of their indexes

  ghost function Simulating(units: seq<Unit>): nat -> bool
  {
    (i: nat) => i < |units| && SimulatedAt(units, i)
  }

  ghost function Overflowing(units: seq<Unit>): nat -> bool
  {
    (i: nat) => i < |units| && SimulatedAt(units, i) && Before(units, i) > EpochOf(units, i).hrd.entries[0].cpbSize
  }

  ghost function Underflowing(units: seq<Unit>): nat -> bool
  {
    (i: nat) => i < |units| && SimulatedAt(units, i) && Before(units, i) < units[i].content.bits
  }

  ghost function Repeating(units: seq<Unit>): nat -> bool
  {
    (i: nat) => i < |units| && RepeatsAt(units, i)
  }

  lemma NumbersStep(units: seq<Unit>, n: nat, has: nat -> bool)
    requires 0 < n <= |units|
    ensures Below(Chosen(n, has), n)
    ensures Below(Chosen(n - 1, has), n)
    ensures NumbersAt(units, Chosen(n, has))
      == NumbersAt(units, Chosen(n - 1, has)) + (if has(n - 1) then [units[n - 1].number] else [])
  {
    ChosenBelow(n, has);
    ChosenBelow(n - 1, has);
  }

  lemma {:induction false} PointsChosen(units: seq<Unit>, n: nat)
    requires n <= |units|
    ensures var chosen := Chosen(n, Simulating(units));
      |Points(units, n)| == |chosen|
      && forall k :: 0 <= k < |chosen| ==>
           chosen[k] < n && SimulatedAt(units, chosen[k]) && Points(units, n)[k] == PointAt(units, chosen[k])
  {
    hide SimulatedAt, PointAt;
    if n > 0 {
      PointsChosen(units, n - 1);
    }
  }

  lemma OverflowingIs(units: seq<Unit>, i: nat)
    requires i < |units|
    ensures Overflowing(units)(i) <==> SimulatedAt(units, i) && PointAt(units, i).overflow
    ensures SimulatedAt(units, i) ==> PointAt(units, i).accessUnit == units[i].number
  {
    hide SimulatedAt, PointAt, Before, EpochOf, Usable;
    if SimulatedAt(units, i) {
      PointMeans(units, i);
    }
  }

  lemma OverflowsStep(units: seq<Unit>, i: nat)
    requires i < |units|
    ensures OverflowsOf(Points(units, i + 1))
      == OverflowsOf(Points(units, i)) + (if Overflowing(units)(i) then [units[i].number] else [])
  {
    hide SimulatedAt, PointAt, Overflowing, OverflowsOf;
    OverflowingIs(units, i);
    if SimulatedAt(units, i) {
      ListsStep(Points(units, i), PointAt(units, i));
    } else {
      assert Points(units, i + 1) == Points(units, i);
    }
  }

  lemma {:induction false} OverflowsChosen(units: seq<Unit>, n: nat)
    requires n <= |units|
    ensures Below(Chosen(n, Overflowing(units)), n)
    ensures OverflowsOf(Points(units, n)) == NumbersAt(units, Chosen(n, Overflowing(units)))
  {
    hide Overflowing, OverflowsOf, NumbersAt, Points, Chosen;
    ChosenBelow(n, Overflowing(units));
    if n == 0 {
      NothingListed(units);
    } else {
      OverflowsChosen(units, n - 1);
      OverflowsStep(units, n - 1);
      NumbersStep(units, n, Overflowing(units));
    }
  }

  lemma UnderflowingIs(units: seq<Unit>, i: nat)
    requires i < |units|
    ensures Underflowing(units)(i) <==> SimulatedAt(units, i) && PointAt(units, i).underflow
    ensures SimulatedAt(units, i) ==> PointAt(units, i).accessUnit == units[i].number
  {
    hide SimulatedAt, PointAt, Before, EpochOf, Usable;
    if SimulatedAt(units, i) {
      PointMeans(units, i);
    }
  }

  lemma UnderflowsStep(units: seq<Unit>, i: nat)
    requires i < |units|
    ensures UnderflowsOf(Points(units, i + 1))
      == UnderflowsOf(Points(units, i)) + (if Underflowing(units)(i) then [units[i].number] else [])
  {
    hide SimulatedAt, PointAt, Underflowing, UnderflowsOf;
    UnderflowingIs(units, i);
    if SimulatedAt(units, i) {
      ListsStep(Points(units, i), PointAt(units, i));
    } else {
      assert Points(units, i + 1) == Points(units, i);
    }
  }

  lemma {:induction false} UnderflowsChosen(units: seq<Unit>, n: nat)
    requires n <= |units|
    ensures Below(Chosen(n, Underflowing(units)), n)
    ensures UnderflowsOf(Points(units, n)) == NumbersAt(units, Chosen(n, Underflowing(units)))
  {
    hide Underflowing, UnderflowsOf, NumbersAt, Points, Chosen;
    ChosenBelow(n, Underflowing(units));
    if n == 0 {
      NothingListed(units);
    } else {
      UnderflowsChosen(units, n - 1);
      UnderflowsStep(units, n - 1);
      NumbersStep(units, n, Underflowing(units));
    }
  }

  lemma {:induction false} NothingListed(units: seq<Unit>)
    ensures OverflowsOf(Points(units, 0)) == [] == UnderflowsOf(Points(units, 0))
    ensures Chosen(0, Overflowing(units)) == [] == Chosen(0, Underflowing(units))
    ensures NumbersAt(units, []) == []
  {
  }

  lemma {:induction false} RepeatsChosen(units: seq<Unit>, n: nat)
    requires n <= |units|
    ensures Below(Chosen(n, Repeating(units)), n)
    ensures Repeats(units, n) == NumbersAt(units, Chosen(n, Repeating(units)))
  {
    hide RepeatsAt;
    ChosenBelow(n, Repeating(units));
    if n > 0 {
      RepeatsChosen(units, n - 1);
      NumbersStep(units, n, Repeating(units));
    }
  }

  /** The report counts all points and keeps the first 50,000. */
  predicate Retained(all: seq<Point>, s: Simulation)
  {
    && s.simulated == |all|
    && if |all| <= 50_000 then s.points == all && !s.truncated else s.points == all[..50_000] && s.truncated
  }

  /** A report of all units shows, of exactly the simulated ones in order, the first 50,000 points, and
      lists exactly those that overflow, underflow or repeat a delay. */
  lemma ReportMeans(units: seq<Unit>, s: Simulation)
    requires Reports(units, |units|, s)
    ensures exists all :: Shows(units, |units|, all) && Retained(all, s)
    ensures Lists(units, |units|, s.overflows, Overflowing(units))
    ensures Lists(units, |units|, s.underflows, Underflowing(units))
    ensures Lists(units, |units|, s.discontinuities, Repeating(units))
  {
    hide Points, PointAt, Simulating, Overflowing, Underflowing, Repeating, OverflowsOf, UnderflowsOf, Repeats,
      IsMinimum, IsMaximum, Reasons, ChosenBy, Chosen, NumbersAt, SimulatedAt;
    var n := |units|;
    ChosenExactly(n, Simulating(units));
    ChosenExactly(n, Overflowing(units));
    ChosenExactly(n, Underflowing(units));
    ChosenExactly(n, Repeating(units));
    PointsChosen(units, n);
    OverflowsChosen(units, n);
    UnderflowsChosen(units, n);
    RepeatsChosen(units, n);
    assert Shows(units, n, Points(units, n));
  }

  /** Which reason a unit is given. */
  lemma ReasonMeans(units: seq<Unit>, i: nat)
    requires i < |units|
    ensures var u, r := units[i], ReasonAt(units, i);
      var runs :=
        if u.content.epoch.Some? then ConstantRate(u.content.epoch.value) else i > 0 && SimulatedAt(units, i - 1);
      && (r == Some(Incomplete) <==> runs && !u.content.complete)
      && (r == Some(Untimed) <==> runs && u.content.complete && u.content.timing.None?)
      && match u.content.epoch
         case None => r == None || runs
         case Some(e) =>
           var one := |e.hrd.entries| == 1 && e.hrd.cpbCount == 1;
           && (r == Some(NoEntries) <==> e.hrd.entries == [])
           && (r == Some(SeveralCpbs) <==> e.hrd.entries != [] && !one)
           && (r == Some(VariableRate) <==> one && !e.hrd.entries[0].cbr)
           && (r == Some(NoClock) <==> one && e.hrd.entries[0].cbr && (e.numUnitsInTick == 0 || e.timeScale == 0))
  {
    hide SimulatedAt;
  }

  // ---------------------------------------------------------------- a worked example

  /** A buffer of 180,000 bits filled at 90,000 bits a second, one tick a second. */
  function ExampleEpoch(): Epoch
  {
    Epoch(HrdSyntax.Hrd(1, 90_000, 180_000, true, [HrdSyntax.CpbEntry(90_000, 180_000, true)], 16, 8, 8, 0),
          1, 1, 90_000)
  }

  function ExampleUnits(): seq<Unit>
  {
    [Frames.AccessUnit(1, Frames.Ledger(80_000, true, Some(ExampleEpoch()), Some(Timing(2, 0, 0)))),
     Frames.AccessUnit(2, Frames.Ledger(120_000, true, None, Some(Timing(4, 1, 0))))]
  }

  /** The first unit finds 90,000 bits and leaves 10,000; the second finds 100,000 and underflows. */
  lemma ExampleRun()
    ensures var units := ExampleUnits();
      && SimulatedAt(units, 0) && SimulatedAt(units, 1)
      && PointAt(units, 0) == Point(1, 80_000, Timing(2, 0, 0), 90_000, 10_000, false, false)
      && PointAt(units, 1) == Point(2, 120_000, Timing(4, 1, 0), 100_000, 0, false, true)
  {
    hide SimulatedAt, Before, PointAt, EpochOf, RepeatsAt;
    var units := ExampleUnits();
    SimulatedExactly(units, 0);
    SimulatedExactly(units, 1);
    EpochInForce(units, 0);
    EpochInForce(units, 1);
    FirstFullness(units, 0);
    assert Pow2(8) == 256 by { Pow2Eight(); }
    NextFullness(units, 1, 1);
    PointMeans(units, 0);
    PointMeans(units, 1);
  }

  lemma Pow2Eight()
    ensures Pow2(8) == 256
  {
    assert Pow2(8) == 4 * Pow2(6) && Pow2(6) == 4 * Pow2(4) && Pow2(4) == 4 * Pow2(2);
  }
}
