/** Partition of H.264 NALUs into frames and access units, and the join that numbers every NALU
    (analyze_nalu_results in crates/h264/src/analyze.rs). */
module Frames {
  import opened Wrappers
  import Bits

  const MAX_FRAMES: nat := 50_000
  const MAX_NALUS: nat := 100_000
  const U64_MAX: int := 0xFFFF_FFFF_FFFF_FFFF
  const SEI: nat := 6

  type Bytes = seq<byte>

  /** `epoch` and `timing` are the last HRD epoch and picture timing among an SEI NALU's messages. */
  datatype Nalu<E, T> = Nalu(data: Bytes, timestamp: Option<nat>, firstSequence: Option<nat>, lastSequence: Option<nat>,
                             complete: bool, epoch: Option<E>, timing: Option<T>)

  datatype Frame = Frame(number: nat, firstNalu: nat, lastNalu: nat, firstSequence: Option<nat>,
                         lastSequence: Option<nat>, idr: bool, complete: bool)

  /** What an access unit collects: bits, completeness, and the HRD messages in force at its start. */
  datatype Ledger<E, T> = Ledger(bits: nat, complete: bool, epoch: Option<E>, timing: Option<T>)

  datatype AccessUnit<E, T> = AccessUnit(number: nat, content: Ledger<E, T>)

  function SatAdd(a: nat, b: nat): (c: nat)
  {
    Min(a + b, U64_MAX)
  }

  function NaluType(n: Nalu): nat
  {
    if n.data == [] then 0 else n.data[0] % 32
  }

  /** A coded slice: type 1 or 5. */
  predicate IsSlice(n: Nalu)
  {
    NaluType(n) == 1 || NaluType(n) == 5
  }

  function Header(n: Nalu): Option<Bits.SliceHeader>
  {
    var h := Bits.SliceHeaderOf(n.data);
    if h.Ok? then Some(h.value) else None
  }

  // ---------------------------------------------------------------- frame numbers

  /** An earlier slice without a readable header carries this timestamp. */
  ghost predicate SeenTimestamp<E, T>(nalus: seq<Nalu<E, T>>, n: nat, t: nat)
    requires n <= |nalus|
  {
    exists j :: 0 <= j < n && UnreadAt(nalus, j, t)
  }

  ghost predicate UnreadAt<E, T>(nalus: seq<Nalu<E, T>>, j: nat, t: nat)
    requires j < |nalus|
  {
    IsSlice(nalus[j]) && Header(nalus[j]).None? && nalus[j].timestamp == Some(t)
  }

  /** A slice starts a frame when its header says so; without a readable header, when it carries no
      timestamp or one that no such slice carried before. */
  ghost predicate StartsAt<E, T>(nalus: seq<Nalu<E, T>>, i: nat)
    requires i < |nalus|
  {
    IsSlice(nalus[i]) &&
    match Header(nalus[i])
    case Some(h) => h.firstMbInSlice == 0
    case None => nalus[i].timestamp.None? || !SeenTimestamp(nalus, i, nalus[i].timestamp.value)
  }

  /** The number of frames started by the first `n` NALUs. */
  ghost function Started<E, T>(nalus: seq<Nalu<E, T>>, n: nat): (count: nat)
    requires n <= |nalus|
    ensures count <= n
  {
    if n == 0 then 0 else Started(nalus, n - 1) + (if StartsAt(nalus, n - 1) then 1 else 0)
  }

  lemma {:induction false} StartedMonotone<E, T>(nalus: seq<Nalu<E, T>>, m: nat, n: nat)
    requires m <= n <= |nalus|
    ensures Started(nalus, m) <= Started(nalus, n)
    decreases n
  {
    if m < n {
      StartedMonotone(nalus, m, n - 1);
    }
  }

  /** The frame whose interval a slice belongs to; 0 before the first start. */
  ghost function NumberOf<E, T>(nalus: seq<Nalu<E, T>>, i: nat): nat
    requires i < |nalus|
  {
    Started(nalus, i + 1)
  }

  /** The access unit a NALU's bits are counted in: a slice's own frame, anything else the next frame. */
  ghost function Owner<E, T>(nalus: seq<Nalu<E, T>>, i: nat): nat
    requires i < |nalus|
  {
    if IsSlice(nalus[i]) then NumberOf(nalus, i) else NumberOf(nalus, i) + 1
  }

  // ---------------------------------------------------------------- frame k, as the hull of its slices

  function FirstFrame<E, T>(i: nat, number: nat, n: Nalu<E, T>): Frame
  {
    Frame(number, i + 1, i + 1, n.firstSequence, n.lastSequence, NaluType(n) == 5, n.complete)
  }

  function Extended<E, T>(f: Frame, i: nat, n: Nalu<E, T>): Frame
  {
    f.(lastNalu := i + 1, lastSequence := if n.lastSequence.Some? then n.lastSequence else f.lastSequence,
       idr := f.idr || NaluType(n) == 5, complete := f.complete && n.complete)
  }

  /** Frame `k` as collected from the first `n` NALUs. */
  ghost function FrameAt<E, T>(nalus: seq<Nalu<E, T>>, n: nat, k: nat): (f: Option<Frame>)
    requires n <= |nalus|
    ensures f.Some? ==> f.value.number == k
  {
    if n == 0 then None
    else
      var before := FrameAt(nalus, n - 1, k);
      if IsSlice(nalus[n - 1]) && NumberOf(nalus, n - 1) == k then
        Some(if before.None? then FirstFrame(n - 1, k, nalus[n - 1]) else Extended(before.value, n - 1, nalus[n - 1]))
      else before
  }

  lemma {:induction false} FrameAbsent<E, T>(nalus: seq<Nalu<E, T>>, n: nat, k: nat)
    requires n <= |nalus| && k > Started(nalus, n)
    ensures FrameAt(nalus, n, k).None?
    decreases n
  {
    if n > 0 {
      FrameAbsent(nalus, n - 1, k);
    }
  }

  /** Frame `k` runs from the slice that starts it to the last slice before the next start; among the
      slices its interval holds exactly its own; it is complete when they all are and IDR when one is. */
  ghost predicate Hull<E, T>(nalus: seq<Nalu<E, T>>, n: nat, k: nat, f: Frame)
    requires n <= |nalus|
  {
    && f.number == k && 1 <= f.firstNalu <= f.lastNalu <= n
    && StartsAt(nalus, f.firstNalu - 1) && NumberOf(nalus, f.firstNalu - 1) == k
    && f.firstSequence == nalus[f.firstNalu - 1].firstSequence
    && (nalus[f.lastNalu - 1].lastSequence.Some? ==> f.lastSequence == nalus[f.lastNalu - 1].lastSequence)
    && IsSlice(nalus[f.lastNalu - 1]) && NumberOf(nalus, f.lastNalu - 1) == k
    && (forall i: nat :: i < n && IsSlice(nalus[i]) ==>
      (NumberOf(nalus, i) == k <==> f.firstNalu <= i + 1 <= f.lastNalu))
    && (f.complete <==> forall i: nat :: i < n && IsSlice(nalus[i]) && NumberOf(nalus, i) == k ==> nalus[i].complete)
    && (f.idr <==> exists i: nat :: i < n && IsSlice(nalus[i]) && NumberOf(nalus, i) == k && NaluType(nalus[i]) == 5)
  }

  lemma {:induction false} FrameIsHull<E, T>(nalus: seq<Nalu<E, T>>, n: nat, k: nat)
    requires n <= |nalus| && 1 <= k <= Started(nalus, n)
    ensures FrameAt(nalus, n, k).Some? && Hull(nalus, n, k, FrameAt(nalus, n, k).value)
    decreases n
  {
    hide StartsAt, IsSlice;
    var i := n - 1;
    if Started(nalus, i) < k {
      FrameAbsent(nalus, i, k);
      HullFirst(nalus, i, k);
    } else {
      FrameIsHull(nalus, i, k);
      if IsSlice(nalus[i]) && NumberOf(nalus, i) == k {
        HullExtend(nalus, i, k, FrameAt(nalus, i, k).value);
      } else {
        HullKeep(nalus, i, k, FrameAt(nalus, i, k).value);
      }
    }
  }

  lemma {:induction false} NumbersBelow<E, T>(nalus: seq<Nalu<E, T>>, n: nat, k: nat)
    requires n <= |nalus| && Started(nalus, n) < k
    ensures forall i: nat :: i < n ==> NumberOf(nalus, i) < k
  {
    forall i: nat | i < n ensures NumberOf(nalus, i) < k {
      StartedMonotone(nalus, i + 1, n);
    }
  }

  lemma HullFirst<E, T>(nalus: seq<Nalu<E, T>>, i: nat, k: nat)
    requires i < |nalus| && Started(nalus, i) < k <= Started(nalus, i + 1)
    ensures Hull(nalus, i + 1, k, FirstFrame(i, k, nalus[i]))
  {
    hide StartsAt, IsSlice, NaluType, Started;
    NumbersBelow(nalus, i, k);
    StartHere(nalus, i, k);
  }

  lemma StartHere<E, T>(nalus: seq<Nalu<E, T>>, i: nat, k: nat)
    requires i < |nalus| && Started(nalus, i) < k <= Started(nalus, i + 1)
    ensures StartsAt(nalus, i) && IsSlice(nalus[i]) && NumberOf(nalus, i) == k
  {
    hide Header;
  }

  lemma HullExtend<E, T>(nalus: seq<Nalu<E, T>>, i: nat, k: nat, f: Frame)
    requires i < |nalus| && Hull(nalus, i, k, f) && IsSlice(nalus[i]) && NumberOf(nalus, i) == k
    ensures Hull(nalus, i + 1, k, Extended(f, i, nalus[i]))
  {
    hide StartsAt, Started, IsSlice;
    var g := Extended(f, i, nalus[i]);
    forall j: nat | j < i + 1 && IsSlice(nalus[j])
      ensures NumberOf(nalus, j) == k <==> g.firstNalu <= j + 1 <= g.lastNalu {
      if g.firstNalu <= j + 1 {
        StartedMonotone(nalus, f.firstNalu, j + 1);
        StartedMonotone(nalus, j + 1, i + 1);
      }
    }
  }

  lemma HullKeep<E, T>(nalus: seq<Nalu<E, T>>, i: nat, k: nat, f: Frame)
    requires i < |nalus| && Hull(nalus, i, k, f) && !(IsSlice(nalus[i]) && NumberOf(nalus, i) == k)
    ensures Hull(nalus, i + 1, k, f)
  {
    hide StartsAt, Started, IsSlice, NaluType;
  }

  /** Intervals of different frames are disjoint and in order. */
  lemma HullsOrdered<E, T>(nalus: seq<Nalu<E, T>>, n: nat, k: nat, l: nat, f: Frame, g: Frame)
    requires n <= |nalus| && k < l && Hull(nalus, n, k, f) && Hull(nalus, n, l, g)
    ensures f.lastNalu < g.firstNalu
  {
    if g.firstNalu <= f.lastNalu {
      StartedMonotone(nalus, g.firstNalu, f.lastNalu);
    }
  }

  // ---------------------------------------------------------------- access unit k, as the sum of its NALUs

  function Absorbed<E, T>(l: Ledger<E, T>, n: Nalu<E, T>): Ledger<E, T>
  {
    Ledger(l.bits + 8 * |n.data|, l.complete && n.complete,
           if NaluType(n) == SEI && n.epoch.Some? then n.epoch else l.epoch,
           if NaluType(n) == SEI && n.timing.Some? then n.timing else l.timing)
  }

  /** The NALUs among the first `n` that access unit `k` owns; empty NALUs are owned by none. */
  ghost function Owned<E, T>(nalus: seq<Nalu<E, T>>, n: nat, k: nat): Ledger<E, T>
    requires n <= |nalus|
  {
    if n == 0 then Ledger(0, true, None, None)
    else
      var before := Owned(nalus, n - 1, k);
      if nalus[n - 1].data != [] && Owner(nalus, n - 1) == k then Absorbed(before, nalus[n - 1]) else before
  }

  lemma {:induction false} OwnedNothing<E, T>(nalus: seq<Nalu<E, T>>, n: nat, k: nat)
    requires n <= |nalus| && k > Started(nalus, n) + 1
    ensures Owned(nalus, n, k) == Ledger(0, true, None, None)
    decreases n
  {
    if n > 0 {
      OwnedNothing(nalus, n - 1, k);
    }
  }

  ghost predicate OwnedBy<E, T>(nalus: seq<Nalu<E, T>>, i: nat, k: nat)
    requires i < |nalus|
  {
    nalus[i].data != [] && Owner(nalus, i) == k
  }

  /** NALU `i` carries the epoch in force for unit `k`: none of the unit's later NALUs brings another. */
  ghost predicate LastEpoch<E, T>(nalus: seq<Nalu<E, T>>, n: nat, k: nat, i: nat)
    requires i < n <= |nalus|
  {
    && OwnedBy(nalus, i, k) && NaluType(nalus[i]) == SEI && nalus[i].epoch.Some?
    && forall j: nat :: i < j < n && OwnedBy(nalus, j, k) && NaluType(nalus[j]) == SEI ==> nalus[j].epoch.None?
  }

  ghost predicate LastTiming<E, T>(nalus: seq<Nalu<E, T>>, n: nat, k: nat, i: nat)
    requires i < n <= |nalus|
  {
    && OwnedBy(nalus, i, k) && NaluType(nalus[i]) == SEI && nalus[i].timing.Some?
    && forall j: nat :: i < j < n && OwnedBy(nalus, j, k) && NaluType(nalus[j]) == SEI ==> nalus[j].timing.None?
  }

  /** A unit is complete when everything it owns is. */
  lemma {:induction false} OwnedComplete<E, T>(nalus: seq<Nalu<E, T>>, n: nat, k: nat)
    requires n <= |nalus|
    ensures Owned(nalus, n, k).complete <==> forall i: nat :: i < n && OwnedBy(nalus, i, k) ==> nalus[i].complete
    decreases n
  {
    hide Owner, NaluType;
    if n > 0 {
      OwnedComplete(nalus, n - 1, k);
    }
  }

  /** A unit carries the HRD epoch its own SEI NALUs brought last, and none when they brought none. */
  lemma {:induction false} OwnedEpoch<E, T>(nalus: seq<Nalu<E, T>>, n: nat, k: nat)
    requires n <= |nalus|
    ensures Owned(nalus, n, k).epoch.Some? <==> exists i: nat :: i < n && LastEpoch(nalus, n, k, i)
    ensures forall i: nat :: i < n && LastEpoch(nalus, n, k, i) ==> Owned(nalus, n, k).epoch == nalus[i].epoch
    decreases n
  {
    hide Owner, NaluType, LastEpoch;
    if n > 0 {
      var m := n - 1;
      OwnedEpoch(nalus, m, k);
      EpochStep(nalus, m, k);
      if OwnedBy(nalus, m, k) && NaluType(nalus[m]) == SEI && nalus[m].epoch.Some? {
        assert LastEpoch(nalus, n, k, m);
        assert Owned(nalus, n, k).epoch == nalus[m].epoch;
      } else {
        assert Owned(nalus, n, k).epoch == Owned(nalus, m, k).epoch;
        forall i: nat | i < n ensures LastEpoch(nalus, n, k, i) <==> i < m && LastEpoch(nalus, m, k, i) {
        }
      }
    }
  }

  /** A unit carries the picture timing its own SEI NALUs brought last, and none when they brought none. */
  lemma {:induction false} OwnedTiming<E, T>(nalus: seq<Nalu<E, T>>, n: nat, k: nat)
    requires n <= |nalus|
    ensures Owned(nalus, n, k).timing.Some? <==> exists i: nat :: i < n && LastTiming(nalus, n, k, i)
    ensures forall i: nat :: i < n && LastTiming(nalus, n, k, i) ==> Owned(nalus, n, k).timing == nalus[i].timing
    decreases n
  {
    hide Owner, NaluType, LastTiming;
    if n > 0 {
      var m := n - 1;
      OwnedTiming(nalus, m, k);
      TimingStep(nalus, m, k);
      if OwnedBy(nalus, m, k) && NaluType(nalus[m]) == SEI && nalus[m].timing.Some? {
        assert LastTiming(nalus, n, k, m);
        assert Owned(nalus, n, k).timing == nalus[m].timing;
      } else {
        assert Owned(nalus, n, k).timing == Owned(nalus, m, k).timing;
        forall i: nat | i < n ensures LastTiming(nalus, n, k, i) <==> i < m && LastTiming(nalus, m, k, i) {
        }
      }
    }
  }

  lemma EpochStep<E, T>(nalus: seq<Nalu<E, T>>, n: nat, k: nat)
    requires n < |nalus|
    ensures var brings := OwnedBy(nalus, n, k) && NaluType(nalus[n]) == SEI && nalus[n].epoch.Some?;
      && (LastEpoch(nalus, n + 1, k, n) <==> brings)
      && forall i: nat :: i < n ==> (LastEpoch(nalus, n + 1, k, i) <==> !brings && LastEpoch(nalus, n, k, i))
  {
    hide OwnedBy, NaluType;
    var brings := OwnedBy(nalus, n, k) && NaluType(nalus[n]) == SEI && nalus[n].epoch.Some?;
    forall i: nat | i < n ensures LastEpoch(nalus, n + 1, k, i) <==> !brings && LastEpoch(nalus, n, k, i) {
      if LastEpoch(nalus, n, k, i) && !brings {
        forall j: nat | i < j < n + 1 && OwnedBy(nalus, j, k) && NaluType(nalus[j]) == SEI
          ensures nalus[j].epoch.None? {
          assert j == n || j < n;
        }
      }
      if LastEpoch(nalus, n + 1, k, i) {
        assert OwnedBy(nalus, n, k) && NaluType(nalus[n]) == SEI ==> nalus[n].epoch.None?;
      }
    }
  }

  lemma TimingStep<E, T>(nalus: seq<Nalu<E, T>>, n: nat, k: nat)
    requires n < |nalus|
    ensures var brings := OwnedBy(nalus, n, k) && NaluType(nalus[n]) == SEI && nalus[n].timing.Some?;
      && (LastTiming(nalus, n + 1, k, n) <==> brings)
      && forall i: nat :: i < n ==> (LastTiming(nalus, n + 1, k, i) <==> !brings && LastTiming(nalus, n, k, i))
  {
    hide OwnedBy, NaluType;
    var brings := OwnedBy(nalus, n, k) && NaluType(nalus[n]) == SEI && nalus[n].timing.Some?;
    forall i: nat | i < n ensures LastTiming(nalus, n + 1, k, i) <==> !brings && LastTiming(nalus, n, k, i) {
      if LastTiming(nalus, n, k, i) && !brings {
        forall j: nat | i < j < n + 1 && OwnedBy(nalus, j, k) && NaluType(nalus[j]) == SEI
          ensures nalus[j].timing.None? {
          assert j == n || j < n;
        }
      }
      if LastTiming(nalus, n + 1, k, i) {
        assert OwnedBy(nalus, n, k) && NaluType(nalus[n]) == SEI ==> nalus[n].timing.None?;
      }
    }
  }

  /** 8 times the bytes of the first `n` NALUs. */
  function TotalBits<E, T>(nalus: seq<Nalu<E, T>>, n: nat): nat
    requires n <= |nalus|
  {
    if n == 0 then 0 else TotalBits(nalus, n - 1) + 8 * |nalus[n - 1].data|
  }

  lemma {:induction false} OwnedBound<E, T>(nalus: seq<Nalu<E, T>>, n: nat, k: nat)
    requires n <= |nalus|
    ensures Owned(nalus, n, k).bits <= TotalBits(nalus, n)
    decreases n
  {
    hide Owner;
    if n > 0 {
      OwnedBound(nalus, n - 1, k);
    }
  }

  /** Bits of the units 0 up to `k`, where unit 0 stands for slices before the first frame. */
  ghost function SumOwned<E, T>(nalus: seq<Nalu<E, T>>, n: nat, k: nat): nat
    requires n <= |nalus|
    decreases k
  {
    Owned(nalus, n, k).bits + (if k == 0 then 0 else SumOwned(nalus, n, k - 1))
  }

  lemma {:induction false} SumStep<E, T>(nalus: seq<Nalu<E, T>>, n: nat, k: nat)
    requires 0 < n <= |nalus|
    ensures SumOwned(nalus, n, k) == SumOwned(nalus, n - 1, k)
      + (if Owner(nalus, n - 1) <= k then 8 * |nalus[n - 1].data| else 0)
    decreases k
  {
    hide Owner;
    if k > 0 {
      SumStep(nalus, n, k - 1);
    }
  }

  lemma {:induction false} SumNothing<E, T>(nalus: seq<Nalu<E, T>>, k: nat)
    ensures SumOwned(nalus, 0, k) == 0
    decreases k
  {
    if k > 0 {
      SumNothing(nalus, k - 1);
    }
  }

  /** Every bit is owned by exactly one unit: unit 0, a frame's unit, or the prefix of the next frame. */
  lemma {:induction false} BitsOwned<E, T>(nalus: seq<Nalu<E, T>>, n: nat, k: nat)
    requires n <= |nalus| && k > Started(nalus, n)
    ensures SumOwned(nalus, n, k) == TotalBits(nalus, n)
    decreases n
  {
    hide SumOwned, StartsAt;
    if n == 0 {
      SumNothing(nalus, k);
    } else {
      BitsOwned(nalus, n - 1, k);
      SumStep(nalus, n, k);
    }
  }

  // ---------------------------------------------------------------- the scan

  /** The numbers of the first 100,000 non-empty NALUs. */
  function Evidence<E, T>(nalus: seq<Nalu<E, T>>, n: nat): (e: seq<nat>)
    requires n <= |nalus|
    ensures |e| <= MAX_NALUS && forall i :: 0 <= i < |e| ==> 1 <= e[i] <= n && nalus[e[i] - 1].data != []
    ensures forall i, j :: 0 <= i < j < |e| ==> e[i] < e[j]
  {
    if n == 0 then []
    else
      var before := Evidence(nalus, n - 1);
      if nalus[n - 1].data != [] && |before| < MAX_NALUS then before + [n] else before
  }

  ghost predicate TracksStamps<E, T>(nalus: seq<Nalu<E, T>>, n: nat, timestamps: set<nat>)
    requires n <= |nalus|
  {
    forall t: nat :: t in timestamps <==> SeenTimestamp(nalus, n, t)
  }

  /** The first 50,000 frames are kept, each as its own slices say, however many follow. */
  ghost predicate TracksFrames<E, T>(nalus: seq<Nalu<E, T>>, n: nat, frames: seq<Frame>)
    requires n <= |nalus|
  {
    && |frames| == Min(Started(nalus, n), MAX_FRAMES)
    && forall k :: 0 <= k < |frames| ==> FrameAt(nalus, n, k + 1) == Some(frames[k])
  }

  /** One access unit per frame, in order, each with what it owns; the last may still grow. */
  ghost predicate TracksUnits<E, T>(nalus: seq<Nalu<E, T>>, n: nat, pending: Ledger<E, T>,
                                    current: Option<AccessUnit<E, T>>, units: seq<AccessUnit<E, T>>)
    requires n <= |nalus|
  {
    var count := Started(nalus, n);
    && pending == Owned(nalus, n, count + 1)
    && (current.None? <==> count == 0)
    && (current.Some? ==> current.value == AccessUnit(count, Owned(nalus, n, count)))
    && |units| == Max(count - 1, 0)
    && forall k :: 0 <= k < |units| ==> units[k] == AccessUnit(k + 1, Owned(nalus, n, k + 1))
  }

  lemma StampsKeep<E, T>(nalus: seq<Nalu<E, T>>, n: nat, timestamps: set<nat>)
    requires n < |nalus| && TracksStamps(nalus, n, timestamps)
    requires !(IsSlice(nalus[n]) && Header(nalus[n]).None? && nalus[n].timestamp.Some?)
    ensures TracksStamps(nalus, n + 1, timestamps)
  {
    hide IsSlice, Header;
    forall t: nat ensures SeenTimestamp(nalus, n + 1, t) <==> SeenTimestamp(nalus, n, t) {
      SeenStep(nalus, n, t);
    }
  }

  lemma SeenStep<E, T>(nalus: seq<Nalu<E, T>>, n: nat, t: nat)
    requires n < |nalus|
    ensures SeenTimestamp(nalus, n + 1, t) <==> SeenTimestamp(nalus, n, t) || UnreadAt(nalus, n, t)
  {
    hide UnreadAt;
  }

  lemma StampsInsert<E, T>(nalus: seq<Nalu<E, T>>, n: nat, timestamps: set<nat>)
    requires n < |nalus| && TracksStamps(nalus, n, timestamps)
    requires IsSlice(nalus[n]) && Header(nalus[n]).None? && nalus[n].timestamp.Some?
    ensures TracksStamps(nalus, n + 1, timestamps + {nalus[n].timestamp.value})
  {
    hide IsSlice, Header;
    forall t: nat
      ensures SeenTimestamp(nalus, n + 1, t) <==> SeenTimestamp(nalus, n, t) || t == nalus[n].timestamp.value {
      SeenStep(nalus, n, t);
    }
  }

  lemma FramesOther<E, T>(nalus: seq<Nalu<E, T>>, n: nat, frames: seq<Frame>)
    requires n < |nalus| && TracksFrames(nalus, n, frames) && !IsSlice(nalus[n])
    ensures TracksFrames(nalus, n + 1, frames)
  {
    hide IsSlice, Header;
    forall k | 0 <= k < |frames| ensures FrameAt(nalus, n + 1, k + 1) == Some(frames[k]) {
      var number := k + 1;
      assert FrameAt(nalus, n, number) == Some(frames[k]);
    }
  }

  lemma {:induction false} FramesStart<E, T>(nalus: seq<Nalu<E, T>>, n: nat, frames: seq<Frame>)
    requires n < |nalus| && TracksFrames(nalus, n, frames) && StartsAt(nalus, n)
    ensures TracksFrames(nalus, n + 1,
      if |frames| < MAX_FRAMES then frames + [FirstFrame(n, Started(nalus, n) + 1, nalus[n])] else frames)
  {
    hide IsSlice, Header;
    var number := Started(nalus, n) + 1;
    FrameAbsent(nalus, n, number);
    forall k | 0 <= k < |frames| ensures FrameAt(nalus, n + 1, k + 1) == Some(frames[k]) {
      assert FrameAt(nalus, n, k + 1) == Some(frames[k]);
    }
  }

  lemma {:induction false} FramesContinue<E, T>(nalus: seq<Nalu<E, T>>, n: nat, frames: seq<Frame>)
    requires n < |nalus| && TracksFrames(nalus, n, frames) && IsSlice(nalus[n]) && !StartsAt(nalus, n)
    ensures TracksFrames(nalus, n + 1,
      if frames != [] && frames[|frames|-1].number == Started(nalus, n)
      then frames[..|frames|-1] + [Extended(frames[|frames|-1], n, nalus[n])] else frames)
  {
    hide IsSlice, Header, StartsAt;
    forall k | 0 <= k < |frames|
      ensures FrameAt(nalus, n, k + 1) == Some(frames[k]) && frames[k].number == k + 1
      ensures FrameAt(nalus, n + 1, k + 1)
        == Some(if k + 1 == Started(nalus, n) then Extended(frames[k], n, nalus[n]) else frames[k])
    {
      assert FrameAt(nalus, n, k + 1) == Some(frames[k]);
    }
  }

  /** What the scan's 64-bit counter shows of a ledger. */
  function Sat<E, T>(l: Ledger<E, T>): Ledger<E, T>
  {
    l.(bits := Min(l.bits, U64_MAX))
  }

  function SatUnit<E, T>(u: AccessUnit<E, T>): AccessUnit<E, T>
  {
    u.(content := Sat(u.content))
  }

  function SatUnits<E, T>(units: seq<AccessUnit<E, T>>): (r: seq<AccessUnit<E, T>>)
    ensures |r| == |units| && forall k :: 0 <= k < |units| ==> r[k] == SatUnit(units[k])
  {
    seq(|units|, k requires 0 <= k < |units| => SatUnit(units[k]))
  }

  /** Adding with saturation shows what exact addition would show. */
  lemma SatAbsorbed<E, T>(l: Ledger<E, T>, n: Nalu<E, T>)
    ensures var shown := Sat(l);
      Sat(Absorbed(l, n)) == Ledger(
        SatAdd(shown.bits, Min(8 * |n.data|, U64_MAX)), shown.complete && n.complete,
        if NaluType(n) == SEI && n.epoch.Some? then n.epoch else shown.epoch,
        if NaluType(n) == SEI && n.timing.Some? then n.timing else shown.timing)
  {
  }

  lemma SatSlice<E, T>(l: Ledger<E, T>, n: Nalu<E, T>)
    requires IsSlice(n)
    ensures var shown := Sat(l);
      Sat(Absorbed(l, n)) == Ledger(SatAdd(shown.bits, Min(8 * |n.data|, U64_MAX)), shown.complete && n.complete,
                                    shown.epoch, shown.timing)
  {
  }

  lemma SatAppend<E, T>(units: seq<AccessUnit<E, T>>, u: AccessUnit<E, T>)
    ensures SatUnits(units + [u]) == SatUnits(units) + [SatUnit(u)]
  {
  }

  /** The scan's variables show the exact amounts. */
  ghost predicate Shows<E, T>(pending: Ledger<E, T>, current: Option<AccessUnit<E, T>>, units: seq<AccessUnit<E, T>>,
                              exact: Ledger<E, T>, building: Option<AccessUnit<E, T>>, built: seq<AccessUnit<E, T>>)
  {
    && pending == Sat(exact) && units == SatUnits(built) && (current.Some? <==> building.Some?)
    && (current.Some? ==> current.value == SatUnit(building.value))
  }

  lemma {:induction false} OwnedKeep<E, T>(nalus: seq<Nalu<E, T>>, n: nat, units: seq<AccessUnit<E, T>>)
    requires n < |nalus| && (nalus[n].data == [] || Owner(nalus, n) > |units| || units == [])
    requires forall k :: 0 <= k < |units| ==> units[k] == AccessUnit(k + 1, Owned(nalus, n, k + 1))
    ensures forall k :: 0 <= k < |units| ==> units[k] == AccessUnit(k + 1, Owned(nalus, n + 1, k + 1))
  {
    hide Owner;
    forall k | 0 <= k < |units| ensures units[k] == AccessUnit(k + 1, Owned(nalus, n + 1, k + 1)) {
      var number := k + 1;
      assert Owned(nalus, n + 1, number) == Owned(nalus, n, number);
    }
  }

  lemma UnitsEmpty<E, T>(nalus: seq<Nalu<E, T>>, n: nat, pending: Ledger<E, T>, current: Option<AccessUnit<E, T>>,
                         units: seq<AccessUnit<E, T>>)
    requires n < |nalus| && TracksUnits(nalus, n, pending, current, units) && nalus[n].data == []
    ensures TracksUnits(nalus, n + 1, pending, current, units)
  {
    hide Header;
    OwnedKeep(nalus, n, units);
  }

  lemma UnitsOther<E, T>(nalus: seq<Nalu<E, T>>, n: nat, pending: Ledger<E, T>, current: Option<AccessUnit<E, T>>,
                         units: seq<AccessUnit<E, T>>)
    requires n < |nalus| && TracksUnits(nalus, n, pending, current, units)
    requires nalus[n].data != [] && !IsSlice(nalus[n])
    ensures TracksUnits(nalus, n + 1, Absorbed(pending, nalus[n]), current, units)
  {
    hide Header, IsSlice, NaluType;
    OwnedKeep(nalus, n, units);
  }

  lemma {:induction false} UnitsStart<E, T>(nalus: seq<Nalu<E, T>>, n: nat, pending: Ledger<E, T>,
                                            current: Option<AccessUnit<E, T>>, units: seq<AccessUnit<E, T>>)
    requires n < |nalus| && TracksUnits(nalus, n, pending, current, units) && StartsAt(nalus, n) && nalus[n].data != []
    ensures TracksUnits(nalus, n + 1, Ledger(0, true, None, None),
      Some(AccessUnit(Started(nalus, n) + 1, Absorbed(pending, nalus[n]))),
      units + (if current.Some? then [current.value] else []))
  {
    hide Header, IsSlice, NaluType, Absorbed;
    var count := Started(nalus, n);
    OwnedNothing(nalus, n, count + 2);
    StartOwner(nalus, n);
    OwnedKeep(nalus, n, units);
  }

  lemma StartOwner<E, T>(nalus: seq<Nalu<E, T>>, n: nat)
    requires n < |nalus| && StartsAt(nalus, n)
    ensures Owner(nalus, n) == Started(nalus, n) + 1 && Started(nalus, n + 1) == Started(nalus, n) + 1
  {
    hide Header;
  }

  lemma UnitsContinue<E, T>(nalus: seq<Nalu<E, T>>, n: nat, pending: Ledger<E, T>, current: Option<AccessUnit<E, T>>,
                            units: seq<AccessUnit<E, T>>)
    requires n < |nalus| && TracksUnits(nalus, n, pending, current, units)
    requires IsSlice(nalus[n]) && !StartsAt(nalus, n) && nalus[n].data != []
    ensures TracksUnits(nalus, n + 1, pending,
      if current.Some? then Some(AccessUnit(current.value.number, Absorbed(current.value.content, nalus[n])))
        else None, units)
  {
    hide Header, IsSlice, NaluType, Absorbed, StartsAt;
    OwnedKeep(nalus, n, units);
  }

  datatype Analysis<E, T> = Analysis(frames: seq<Frame>, frameCount: nat, units: seq<AccessUnit<E, T>>,
                                     pending: Ledger<E, T>, naluNumbers: seq<nat>, accessUnitNumbers: seq<Option<nat>>)

  /** Everything the scan keeps between two NALUs. */
  ghost predicate Tracks<E, T>(nalus: seq<Nalu<E, T>>, n: nat, frames: seq<Frame>, frameIndex: nat,
                               timestamps: set<nat>,
                               pending: Ledger<E, T>, current: Option<AccessUnit<E, T>>, units: seq<AccessUnit<E, T>>)
    requires n <= |nalus|
  {
    && frameIndex == Started(nalus, n) && TracksFrames(nalus, n, frames) && TracksStamps(nalus, n, timestamps)
    && TracksUnits(nalus, n, pending, current, units)
  }

  method Analyze<E(0), T(0)>(nalus: seq<Nalu<E, T>>) returns (a: Analysis<E, T>)
    ensures a.frameCount == Started(nalus, |nalus|) && TracksFrames(nalus, |nalus|, a.frames)
    ensures Counted(nalus, a.units) && a.pending == Sat(Owned(nalus, |nalus|, a.frameCount + 1))
    ensures a.naluNumbers == Evidence(nalus, |nalus|) && |a.accessUnitNumbers| == |a.naluNumbers|
    ensures forall i :: 0 <= i < |a.naluNumbers| ==> a.accessUnitNumbers[i] == Containing(a.frames, a.naluNumbers[i])
  {
    hide TracksFrames, TracksStamps, TracksUnits, IsSlice, NaluType, Header, StartsAt, Owned, Units, Counted, Sat,
      SatUnits, SatAdd, Absorbed;
    var frames: seq<Frame>, frameIndex, timestamps := [], 0, {};
    var pending: Ledger<E, T>, current: Option<AccessUnit<E, T>>, units := Ledger(0, true, None, None), None, [];
    ghost var exact, building, built := pending, current, units;
    var naluNumbers := [];
    TracksNothing(nalus);
    ShowsNothing<E, T>();
    for n := 0 to |nalus|
      invariant Tracks(nalus, n, frames, frameIndex, timestamps, exact, building, built)
      invariant Shows(pending, current, units, exact, building, built)
      invariant naluNumbers == Evidence(nalus, n)
    {
      var nalu := nalus[n];
      if nalu.data == [] {
        EmptyStep(nalus, n, frames, frameIndex, timestamps, exact, building, built);
        continue;
      }
      if |naluNumbers| < MAX_NALUS {
        naluNumbers := naluNumbers + [n + 1];
      }
      var bits := Min(8 * |nalu.data|, U64_MAX);
      if !IsSlice(nalu) {
        SatAbsorbed(exact, nalu);
        OtherStep(nalus, n, frames, frameIndex, timestamps, exact, building, built);
        pending := Ledger(SatAdd(pending.bits, bits), pending.complete && nalu.complete,
                          if NaluType(nalu) == SEI && nalu.epoch.Some? then nalu.epoch else pending.epoch,
                          if NaluType(nalu) == SEI && nalu.timing.Some? then nalu.timing else pending.timing);
        exact := Absorbed(exact, nalu);
      } else {
        var header := Header(nalu);
        var startsFrame;
        DecideStart(nalus, n, timestamps);
        ghost var before := timestamps;
        if header.Some? {
          startsFrame := header.value.firstMbInSlice == 0;
        } else if nalu.timestamp.Some? {
          startsFrame := nalu.timestamp.value !in timestamps;
          timestamps := timestamps + {nalu.timestamp.value};
        } else {
          startsFrame := true;
        }
        assert startsFrame == StartsAt(nalus, n);
        if startsFrame {
          StartStep(nalus, n, frames, frameIndex, before, exact, building, built);
          assert built + [] == built;
          SatSlice(exact, nalu);
          if current.Some? {
            SatAppend(built, building.value);
            units := units + [current.value];
            built := built + [building.value];
          }
          frameIndex := frameIndex + 1;
          current := Some(AccessUnit(frameIndex, Ledger(SatAdd(pending.bits, bits), pending.complete && nalu.complete,
                                                        pending.epoch, pending.timing)));
          building := Some(AccessUnit(frameIndex, Absorbed(exact, nalu)));
          pending, exact := Ledger(0, true, None, None), Ledger(0, true, None, None);
          ShowsNothing<E, T>();
          if |frames| < MAX_FRAMES {
            frames := frames + [FirstFrame(n, frameIndex, nalu)];
          }
        } else {
          ContinueStep(nalus, n, frames, frameIndex, before, exact, building, built);
          if frames != [] && frames[|frames|-1].number == frameIndex {
            frames := frames[..|frames|-1] + [Extended(frames[|frames|-1], n, nalu)];
          }
          if current.Some? {
            var content := current.value.content;
            SatSlice(building.value.content, nalu);
            current := Some(AccessUnit(current.value.number,
                                       content.(bits := SatAdd(content.bits, bits),
                                         complete := content.complete && nalu.complete)));
            building := Some(AccessUnit(building.value.number, Absorbed(building.value.content, nalu)));
          }
        }
      }
    }
    UnitsFlushed(nalus, exact, building, built);
    assert built + [] == built;
    if current.Some? {
      SatAppend(built, building.value);
      units := units + [current.value];
      built := built + [building.value];
    }
    UnitsCounted(nalus, built);
    FramesLaid(nalus, frames);
    var numbers := Join(naluNumbers, frames);
    a := Analysis(frames, frameIndex, units, pending, naluNumbers, numbers);
  }

  lemma ShowsNothing<E, T>()
    ensures Sat<E, T>(Ledger(0, true, None, None)) == Ledger(0, true, None, None)
    ensures SatUnits<E, T>([]) == []
  {
  }

  lemma TracksNothing<E, T>(nalus: seq<Nalu<E, T>>)
    ensures Tracks(nalus, 0, [], 0, {}, Ledger(0, true, None, None), None, [])
  {
  }

  lemma EmptyStep<E, T>(nalus: seq<Nalu<E, T>>, n: nat, frames: seq<Frame>, frameIndex: nat, timestamps: set<nat>,
                        pending: Ledger<E, T>, current: Option<AccessUnit<E, T>>, units: seq<AccessUnit<E, T>>)
    requires n < |nalus| && Tracks(nalus, n, frames, frameIndex, timestamps, pending, current, units)
    requires nalus[n].data == []
    ensures Tracks(nalus, n + 1, frames, frameIndex, timestamps, pending, current, units)
    ensures Evidence(nalus, n + 1) == Evidence(nalus, n)
  {
    hide TracksFrames, TracksStamps, TracksUnits, Header;
    FramesOther(nalus, n, frames);
    StampsKeep(nalus, n, timestamps);
    UnitsEmpty(nalus, n, pending, current, units);
  }

  lemma {:induction false} OtherStep<E, T>(nalus: seq<Nalu<E, T>>, n: nat, frames: seq<Frame>, frameIndex: nat,
                                           timestamps: set<nat>, pending: Ledger<E, T>,
                                           current: Option<AccessUnit<E, T>>, units: seq<AccessUnit<E, T>>)
    requires n < |nalus| && Tracks(nalus, n, frames, frameIndex, timestamps, pending, current, units)
    requires nalus[n].data != [] && !IsSlice(nalus[n])
    ensures Tracks(nalus, n + 1, frames, frameIndex, timestamps, Absorbed(pending, nalus[n]), current, units)
    ensures pending == Owned(nalus, n, frameIndex + 1)
  {
    hide TracksFrames, TracksStamps, Header, Absorbed;
    FramesOther(nalus, n, frames);
    StampsKeep(nalus, n, timestamps);
    UnitsOther(nalus, n, pending, current, units);
  }

  lemma DecideStart<E, T>(nalus: seq<Nalu<E, T>>, n: nat, timestamps: set<nat>)
    requires n < |nalus| && TracksStamps(nalus, n, timestamps) && IsSlice(nalus[n])
    ensures StartsAt(nalus, n) <==>
      if Header(nalus[n]).Some? then Header(nalus[n]).value.firstMbInSlice == 0
      else nalus[n].timestamp.None? || nalus[n].timestamp.value !in timestamps
    ensures TracksStamps(nalus, n + 1,
      if Header(nalus[n]).None? && nalus[n].timestamp.Some? then timestamps + {nalus[n].timestamp.value}
        else timestamps)
  {
    hide Header, SeenTimestamp, IsSlice;
    if Header(nalus[n]).None? && nalus[n].timestamp.Some? {
      StampsInsert(nalus, n, timestamps);
    } else {
      StampsKeep(nalus, n, timestamps);
    }
  }

  lemma {:induction false} StartStep<E, T>(nalus: seq<Nalu<E, T>>, n: nat, frames: seq<Frame>, frameIndex: nat,
                                           timestamps: set<nat>, pending: Ledger<E, T>,
                                           current: Option<AccessUnit<E, T>>, units: seq<AccessUnit<E, T>>)
    requires n < |nalus| && Tracks(nalus, n, frames, frameIndex, timestamps, pending, current, units)
    requires nalus[n].data != [] && StartsAt(nalus, n)
    ensures Started(nalus, n + 1) == frameIndex + 1
    ensures TracksFrames(nalus, n + 1,
      if |frames| < MAX_FRAMES then frames + [FirstFrame(n, frameIndex + 1, nalus[n])] else frames)
    ensures TracksUnits(nalus, n + 1, Ledger(0, true, None, None),
      Some(AccessUnit(frameIndex + 1, Absorbed(pending, nalus[n]))), units
        + (if current.Some? then [current.value] else []))
    ensures pending == Owned(nalus, n, frameIndex + 1)
  {
    hide TracksFrames, TracksStamps, Header, Absorbed, StartsAt;
    StartOwner(nalus, n);
    FramesStart(nalus, n, frames);
    UnitsStart(nalus, n, pending, current, units);
  }

  lemma {:induction false} ContinueStep<E, T>(nalus: seq<Nalu<E, T>>, n: nat, frames: seq<Frame>, frameIndex: nat,
                                              timestamps: set<nat>, pending: Ledger<E, T>,
                                              current: Option<AccessUnit<E, T>>, units: seq<AccessUnit<E, T>>)
    requires n < |nalus| && Tracks(nalus, n, frames, frameIndex, timestamps, pending, current, units)
    requires nalus[n].data != [] && IsSlice(nalus[n]) && !StartsAt(nalus, n)
    ensures Started(nalus, n + 1) == frameIndex
    ensures TracksFrames(nalus, n + 1,
      if frames != [] && frames[|frames|-1].number == frameIndex
      then frames[..|frames|-1] + [Extended(frames[|frames|-1], n, nalus[n])] else frames)
    ensures TracksUnits(nalus, n + 1, pending,
      if current.Some? then Some(AccessUnit(current.value.number, Absorbed(current.value.content, nalus[n])))
        else None, units)
    ensures current.Some? ==> current.value.content == Owned(nalus, n, frameIndex)
  {
    hide TracksFrames, TracksStamps, Header, Absorbed, StartsAt, IsSlice, Extended;
    FramesContinue(nalus, n, frames);
    UnitsContinue(nalus, n, pending, current, units);
  }

  /** The access units handed to the simulation: one per frame, in order, each with exactly what it owns. */
  ghost predicate Units<E, T>(nalus: seq<Nalu<E, T>>, units: seq<AccessUnit<E, T>>)
  {
    && |units| == Started(nalus, |nalus|)
    && forall k :: 0 <= k < |units| ==> units[k] == AccessUnit(k + 1, Owned(nalus, |nalus|, k + 1))
  }

  /** The same as 64-bit counters show it. */
  ghost predicate Counted<E, T>(nalus: seq<Nalu<E, T>>, units: seq<AccessUnit<E, T>>)
  {
    && |units| == Started(nalus, |nalus|)
    && forall k :: 0 <= k < |units| ==> units[k] == AccessUnit(k + 1, Sat(Owned(nalus, |nalus|, k + 1)))
  }

  lemma UnitsCounted<E, T>(nalus: seq<Nalu<E, T>>, units: seq<AccessUnit<E, T>>)
    requires Units(nalus, units)
    ensures Counted(nalus, SatUnits(units))
  {
    hide Owned, Started;
  }

  lemma {:induction false} UnitsFlushed<E, T>(nalus: seq<Nalu<E, T>>, pending: Ledger<E, T>,
                                              current: Option<AccessUnit<E, T>>,
                                              units: seq<AccessUnit<E, T>>)
    requires TracksUnits(nalus, |nalus|, pending, current, units)
    ensures Units(nalus, units + (if current.Some? then [current.value] else []))
    ensures pending == Owned(nalus, |nalus|, Started(nalus, |nalus|) + 1)
  {
    hide Owned, Started;
  }

  // ---------------------------------------------------------------- the join

  ghost predicate Laid(frames: seq<Frame>)
  {
    && (forall k :: 0 <= k < |frames| ==> frames[k].firstNalu <= frames[k].lastNalu)
    && (forall k, l :: 0 <= k < l < |frames| ==> frames[k].lastNalu < frames[l].firstNalu)
  }

  lemma FramesLaid<E, T>(nalus: seq<Nalu<E, T>>, frames: seq<Frame>)
    requires TracksFrames(nalus, |nalus|, frames)
    ensures Laid(frames)
    ensures forall k :: 0 <= k < |frames| ==> Hull(nalus, |nalus|, k + 1, frames[k])
  {
    hide Hull, StartsAt;
    forall k | 0 <= k < |frames|
      ensures Hull(nalus, |nalus|, k + 1, frames[k]) && frames[k].firstNalu <= frames[k].lastNalu {
      FrameIsHull(nalus, |nalus|, k + 1);
      HullSpan(nalus, |nalus|, k + 1, frames[k]);
    }
    forall k, l | 0 <= k < l < |frames| ensures frames[k].lastNalu < frames[l].firstNalu {
      HullsOrdered(nalus, |nalus|, k + 1, l + 1, frames[k], frames[l]);
    }
  }

  lemma HullSpan<E, T>(nalus: seq<Nalu<E, T>>, n: nat, k: nat, f: Frame)
    requires n <= |nalus| && Hull(nalus, n, k, f)
    ensures f.firstNalu <= f.lastNalu
  {
  }

  /** The naive search: the first frame whose interval holds a NALU number. */
  function Containing(frames: seq<Frame>, number: nat): Option<nat>
  {
    if frames == [] then None
    else if frames[0].firstNalu <= number <= frames[0].lastNalu then Some(frames[0].number)
    else Containing(frames[1..], number)
  }

  lemma {:induction false} ContainingSkips(frames: seq<Frame>, number: nat, k: nat)
    requires k <= |frames| && forall j :: 0 <= j < k ==> !(frames[j].firstNalu <= number <= frames[j].lastNalu)
    ensures Containing(frames, number) == Containing(frames[k..], number)
    decreases k
  {
    if k == 0 {
      assert frames[0..] == frames;
    } else {
      ContainingSkips(frames[1..], number, k - 1);
      assert frames[1..][k - 1..] == frames[k..];
    }
  }

  lemma {:induction false} ContainingNone(frames: seq<Frame>, number: nat)
    requires forall j :: 0 <= j < |frames| ==> !(frames[j].firstNalu <= number <= frames[j].lastNalu)
    ensures Containing(frames, number) == None
    decreases |frames|
  {
    ContainingSkips(frames, number, |frames|);
  }

  /** One pass with a cursor over the frames gives every NALU number what the naive search would. */
  method Join(naluNumbers: seq<nat>, frames: seq<Frame>) returns (numbers: seq<Option<nat>>)
    requires Laid(frames) && forall i, j :: 0 <= i < j < |naluNumbers| ==> naluNumbers[i] < naluNumbers[j]
    ensures |numbers| == |naluNumbers|
    ensures forall i :: 0 <= i < |numbers| ==> numbers[i] == Containing(frames, naluNumbers[i])
  {
    hide Containing;
    numbers := [];
    var cursor := 0;
    for i := 0 to |naluNumbers|
      invariant |numbers| == i && cursor <= |frames|
      invariant forall j :: 0 <= j < i ==> numbers[j] == Containing(frames, naluNumbers[j])
      invariant i < |naluNumbers| ==> forall k :: 0 <= k < cursor ==> frames[k].lastNalu < naluNumbers[i]
    {
      var number := naluNumbers[i];
      while cursor < |frames| && frames[cursor].lastNalu < number
        invariant cursor <= |frames| && forall k :: 0 <= k < cursor ==> frames[k].lastNalu < number
      {
        cursor := cursor + 1;
      }
      CursorFinds(frames, number, cursor);
      numbers := numbers + [if cursor < |frames| && frames[cursor].firstNalu <= number <= frames[cursor].lastNalu
                            then Some(frames[cursor].number) else None];
    }
  }

  lemma CursorFinds(frames: seq<Frame>, number: nat, cursor: nat)
    requires Laid(frames) && cursor <= |frames| && forall k :: 0 <= k < cursor ==> frames[k].lastNalu < number
    requires cursor < |frames| ==> number <= frames[cursor].lastNalu
    ensures Containing(frames, number)
      == if cursor < |frames| && frames[cursor].firstNalu <= number then Some(frames[cursor].number) else None
  {
    if cursor < |frames| && frames[cursor].firstNalu <= number {
      ContainingSkips(frames, number, cursor);
    } else {
      ContainingNone(frames, number);
    }
  }

  // ---------------------------------------------------------------- what the analysis means

  /** A slice is numbered with its own frame exactly when that frame is among the first 50,000, and
      with none otherwise. */
  lemma SliceNumbered<E, T>(nalus: seq<Nalu<E, T>>, frames: seq<Frame>, i: nat)
    requires TracksFrames(nalus, |nalus|, frames) && i < |nalus| && IsSlice(nalus[i])
    ensures Containing(frames, i + 1)
      == if 1 <= NumberOf(nalus, i) <= MAX_FRAMES then Some(NumberOf(nalus, i)) else None
  {
    hide Hull, StartsAt, IsSlice, FrameAt, Containing;
    FramesLaid(nalus, frames);
    StartedMonotone(nalus, i + 1, |nalus|);
    var m := NumberOf(nalus, i);
    forall k | 0 <= k < |frames|
      ensures frames[k].number == k + 1 && (m == k + 1 <==> frames[k].firstNalu <= i + 1 <= frames[k].lastNalu) {
      HullHolds(nalus, k + 1, frames[k], i);
    }
    if 1 <= m <= MAX_FRAMES {
      var k := m - 1;
      ContainingAt(frames, i + 1, k);
    } else {
      ContainingNone(frames, i + 1);
    }
  }

  lemma HullHolds<E, T>(nalus: seq<Nalu<E, T>>, k: nat, f: Frame, i: nat)
    requires Hull(nalus, |nalus|, k, f) && i < |nalus| && IsSlice(nalus[i])
    ensures f.number == k && (NumberOf(nalus, i) == k <==> f.firstNalu <= i + 1 <= f.lastNalu)
  {
  }

  lemma ContainingAt(frames: seq<Frame>, number: nat, k: nat)
    requires Laid(frames) && k < |frames| && frames[k].firstNalu <= number <= frames[k].lastNalu
    ensures Containing(frames, number) == Some(frames[k].number)
  {
    hide Containing;
    forall j | 0 <= j < k ensures frames[j].lastNalu < number {
    }
    CursorFinds(frames, number, k);
  }

  ghost function UnitBits<E, T>(units: seq<AccessUnit<E, T>>): nat
  {
    if units == [] then 0 else UnitBits(units[..|units|-1]) + units[|units|-1].content.bits
  }

  /** No counter of the units 1 up to `k` saturates. */
  ghost predicate AllFit<E, T>(nalus: seq<Nalu<E, T>>, k: nat)
  {
    forall i: nat :: 1 <= i <= k ==> Owned(nalus, |nalus|, i).bits <= U64_MAX
  }

  lemma {:induction false} ShortStreamFits<E, T>(nalus: seq<Nalu<E, T>>, k: nat)
    requires TotalBits(nalus, |nalus|) <= U64_MAX
    ensures AllFit(nalus, k)
  {
    hide Owned;
    forall i: nat | 1 <= i <= k ensures Owned(nalus, |nalus|, i).bits <= U64_MAX {
      OwnedBound(nalus, |nalus|, i);
    }
  }

  lemma {:induction false} UnitBitsSum<E, T>(nalus: seq<Nalu<E, T>>, units: seq<AccessUnit<E, T>>)
    requires forall k :: 0 <= k < |units| ==> units[k] == AccessUnit(k + 1, Sat(Owned(nalus, |nalus|, k + 1)))
    ensures var owned := SumOwned(nalus, |nalus|, |units|) - Owned(nalus, |nalus|, 0).bits;
      UnitBits(units) <= owned && (UnitBits(units) == owned <==> AllFit(nalus, |units|))
    decreases |units|
  {
    hide Owned;
    if units != [] {
      UnitBitsSum(nalus, units[..|units|-1]);
      assert units[|units|-1] == AccessUnit(|units|, Sat(Owned(nalus, |nalus|, |units|)));
      assert AllFit(nalus, |units|)
        <==> AllFit(nalus, |units| - 1) && Owned(nalus, |nalus|, |units|).bits <= U64_MAX;
    }
  }

  /** Slices before the first frame; none when the first slice starts a frame. */
  lemma {:induction false} Dropped<E, T>(nalus: seq<Nalu<E, T>>, n: nat)
    requires n <= |nalus|
    ensures Owned(nalus, n, 0).bits == 0 <==> forall i: nat :: i < n && IsSlice(nalus[i]) ==> NumberOf(nalus, i) >= 1
    decreases n
  {
    hide Header, StartsAt;
    if n > 0 {
      Dropped(nalus, n - 1);
    }
  }

  /** Bits are conserved: the access units and the prefix of the next one hold 8 times the bytes seen,
      exactly when no slice precedes the first frame start and no counter saturates. They never hold
      more. */
  lemma {:induction false} BitsConserved<E, T>(nalus: seq<Nalu<E, T>>, units: seq<AccessUnit<E, T>>,
                                               pending: Ledger<E, T>)
    requires Counted(nalus, units) && pending == Sat(Owned(nalus, |nalus|, |units| + 1))
    ensures UnitBits(units) + pending.bits <= TotalBits(nalus, |nalus|) - Owned(nalus, |nalus|, 0).bits
    ensures UnitBits(units) + pending.bits == TotalBits(nalus, |nalus|)
      <==> AllFit(nalus, |units| + 1)
           && forall i: nat :: i < |nalus| && IsSlice(nalus[i]) ==> NumberOf(nalus, i) >= 1
  {
    hide Owned, IsSlice, StartsAt, NumberOf;
    UnitBitsSum(nalus, units);
    BitsOwned(nalus, |nalus|, |units| + 1);
    Dropped(nalus, |nalus|);
    assert AllFit(nalus, |units| + 1)
      <==> AllFit(nalus, |units|) && Owned(nalus, |nalus|, |units| + 1).bits <= U64_MAX;
  }

  /** Every slice follows a start exactly when the first slice is one. */
  lemma FirstSliceStarts<E, T>(nalus: seq<Nalu<E, T>>, first: nat)
    requires first < |nalus| && IsSlice(nalus[first]) && forall i: nat :: i < first ==> !IsSlice(nalus[i])
    ensures (forall i: nat :: i < |nalus| && IsSlice(nalus[i]) ==> NumberOf(nalus, i) >= 1) <==> StartsAt(nalus, first)
  {
    hide Header, IsSlice;
    NothingStarted(nalus, first);
    if StartsAt(nalus, first) {
      forall i: nat | i < |nalus| && IsSlice(nalus[i]) ensures NumberOf(nalus, i) >= 1 {
        StartedMonotone(nalus, first + 1, i + 1);
      }
    }
  }

  lemma {:induction false} NothingStarted<E, T>(nalus: seq<Nalu<E, T>>, n: nat)
    requires n <= |nalus| && forall i: nat :: i < n ==> !IsSlice(nalus[i])
    ensures Started(nalus, n) == 0
    decreases n
  {
    hide Header, IsSlice;
    if n > 0 {
      NothingStarted(nalus, n - 1);
    }
  }

  /** A stream on which the bits are not conserved: one slice that does not begin at the first
      macroblock. It starts no frame, and its bits are counted nowhere. */
  lemma LoneSliceDropped<E, T>()
    ensures var fs := [Bits.Ue(1), Bits.Ue(0), Bits.Ue(0)];
      var nalus: seq<Nalu<E, T>> := [Nalu(Bits.SliceNalu(1, fs), None, None, None, true, None, None)];
      && IsSlice(nalus[0]) && Started(nalus, 1) == 0
      && Owned(nalus, 1, 0).bits == TotalBits(nalus, 1) > 0 && Owned(nalus, 1, 1).bits == 0
  {
    hide Bits.SliceHeaderOf, Bits.SliceNalu;
    var fs := [Bits.Ue(1), Bits.Ue(0), Bits.Ue(0)];
    var n: Nalu<E, T> := Nalu(Bits.SliceNalu(1, fs), None, None, None, true, None, None);
    assert fs + [] == fs;
    Bits.SliceHeaderRoundTrip(1, 1, 0, 0, []);
    SliceNaluHeader(fs);
    var nalus := [n];
    assert !StartsAt(nalus, 0);
    assert Started(nalus, 0) == 0 && TotalBits(nalus, 0) == 0;
    assert Owned(nalus, 0, 0).bits == 0 && Owned(nalus, 0, 1).bits == 0;
  }

  lemma SliceNaluHeader(fs: seq<Bits.Field>)
    ensures Bits.SliceNalu(1, fs) != [] && Bits.SliceNalu(1, fs)[0] == 1
  {
    hide Bits.Escape, Bits.Pack, Bits.Stopped, Bits.PrintAll;
  }
}
