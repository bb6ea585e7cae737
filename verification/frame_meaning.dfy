/** What the frame analysis finds in NALUs given by their bytes. */
module FrameMeaning {
  import opened Wrappers
  import opened Frames
  import Bits

  /** A NALU that is no coded slice, by its header byte (table 7-1 of ITU-T H.264). */
  predicate Other(n: Nalu)
  {
    n.data != [] && n.data[0] % 32 != 1 && n.data[0] % 32 != 5
  }

  predicate Slice(n: Nalu)
  {
    n.data != [] && (n.data[0] % 32 == 1 || n.data[0] % 32 == 5)
  }

  /** A slice whose header can be read and names this first macroblock. */
  predicate SliceFrom(n: Nalu, firstMb: nat)
  {
    Slice(n) && Bits.SliceHeaderOf(n.data).Ok? && Bits.SliceHeaderOf(n.data).value.firstMbInSlice == firstMb
  }

  predicate Unreadable(n: Nalu)
  {
    Slice(n) && Bits.SliceHeaderOf(n.data).Err?
  }

  /** A frame starts at a slice with first macroblock 0, and at a slice without a readable header that
      has no timestamp or is the first such slice with its timestamp; nowhere else. */
  lemma StartsExactly<E, T>(nalus: seq<Nalu<E, T>>, i: nat)
    requires i < |nalus|
    ensures StartsAt(nalus, i) <==>
      || SliceFrom(nalus[i], 0)
      || (Unreadable(nalus[i]) && (nalus[i].timestamp.None? || forall j :: 0 <= j < i && Unreadable(nalus[j]) ==>
            nalus[j].timestamp != nalus[i].timestamp))
  {
    hide Bits.SliceHeaderOf;
    var t := nalus[i].timestamp;
    if t.Some? {
      forall j: nat | j < i ensures UnreadAt(nalus, j, t.value) <==> Unreadable(nalus[j]) && nalus[j].timestamp == t {
      }
      assert SeenTimestamp(nalus, i, t.value) <==> exists j: nat :: j < i && UnreadAt(nalus, j, t.value);
    }
  }

  /** An encoder's slice starts a frame exactly when its first macroblock is 0; a NALU with another
      type in its header byte never does. */
  lemma EncodedStarts<E, T>(nalus: seq<Nalu<E, T>>, i: nat, header: byte, firstMb: nat, sliceType: nat, ppsId: nat,
                            more: seq<Bits.Field>)
    requires i < |nalus|
    requires firstMb < 0xffff_ffff && sliceType < 0xffff_ffff && ppsId < 0xffff_ffff
    requires forall k :: 0 <= k < |more| ==> Bits.Printable(more[k])
    requires nalus[i].data == Bits.SliceNalu(header, [Bits.Ue(firstMb), Bits.Ue(sliceType), Bits.Ue(ppsId)] + more)
    ensures nalus[i].data != [] && nalus[i].data[0] == header
    ensures StartsAt(nalus, i) <==> (header % 32 == 1 || header % 32 == 5) && firstMb == 0
    ensures header % 32 == 1 || header % 32 == 5 ==> SliceFrom(nalus[i], firstMb)
  {
    hide Bits.SliceHeaderOf, Bits.Escape, Bits.Pack, Bits.Stopped, Bits.PrintAll, StartsAt;
    StartsExactly(nalus, i);
    if header % 32 == 1 || header % 32 == 5 {
      Bits.SliceHeaderRoundTrip(header, firstMb, sliceType, ppsId, more);
    }
  }

  // ---------------------------------------------------------------- one picture

  /** A picture: other NALUs, then a slice with first macroblock 0, then slices that go on from there. */
  ghost predicate Picture<E, T>(nalus: seq<Nalu<E, T>>, lead: nat)
  {
    && lead < |nalus|
    && (forall i :: 0 <= i < lead ==> Other(nalus[i]))
    && SliceFrom(nalus[lead], 0)
    && (forall i :: lead < i < |nalus| ==> exists firstMb: nat :: firstMb > 0 && SliceFrom(nalus[i], firstMb))
  }

  lemma {:induction false} PictureStarts<E, T>(nalus: seq<Nalu<E, T>>, lead: nat, n: nat)
    requires Picture(nalus, lead) && n <= |nalus|
    ensures Started(nalus, n) == if n <= lead then 0 else 1
    decreases n
  {
    hide StartsAt, Bits.SliceHeaderOf;
    if n > 0 {
      PictureStarts(nalus, lead, n - 1);
      StartsExactly(nalus, n - 1);
    }
  }

  lemma PictureSlices<E, T>(nalus: seq<Nalu<E, T>>, lead: nat, i: nat)
    requires Picture(nalus, lead) && i < |nalus|
    ensures IsSlice(nalus[i]) <==> i >= lead
    ensures nalus[i].data != [] && Owner(nalus, i) == 1
    ensures IsSlice(nalus[i]) ==> NumberOf(nalus, i) == 1
    ensures StartsAt(nalus, i) <==> i == lead
  {
    hide StartsAt, Bits.SliceHeaderOf, Started;
    PictureStarts(nalus, lead, i + 1);
    StartsExactly(nalus, i);
  }

  /** Picture and analysis agree on every NALU. */
  ghost predicate Settled<E, T>(nalus: seq<Nalu<E, T>>, lead: nat)
  {
    forall i: nat :: i < |nalus| ==> SettledAt(nalus, lead, i)
  }

  ghost predicate SettledAt<E, T>(nalus: seq<Nalu<E, T>>, lead: nat, i: nat)
    requires i < |nalus|
  {
    && nalus[i].data != [] && (IsSlice(nalus[i]) <==> i >= lead) && (StartsAt(nalus, i) <==> i == lead)
    && (i >= lead ==> NumberOf(nalus, i) == 1) && Owner(nalus, i) == 1
  }

  lemma PictureSettles<E, T>(nalus: seq<Nalu<E, T>>, lead: nat)
    requires Picture(nalus, lead)
    ensures Settled(nalus, lead)
  {
    hide Picture, StartsAt, IsSlice, Owner, Started;
    forall i: nat | i < |nalus| ensures SettledAt(nalus, lead, i) {
      PictureSlices(nalus, lead, i);
    }
  }

  /** One picture is one frame over its slices, IDR exactly when one of them is of type 5, and one
      access unit over all its NALUs. */
  lemma {:induction false} OnePicture<E, T>(nalus: seq<Nalu<E, T>>, lead: nat, frames: seq<Frame>,
                                            units: seq<AccessUnit<E, T>>)
    requires Picture(nalus, lead) && TracksFrames(nalus, |nalus|, frames) && Counted(nalus, units)
    ensures |frames| == 1 == |units| && lead < |nalus| && forall i :: lead <= i < |nalus| ==> nalus[i].data != []
    ensures var f := frames[0];
      && f.number == 1 && f.firstNalu == lead + 1 && f.lastNalu == |nalus|
      && f.firstSequence == nalus[lead].firstSequence
      && (f.idr <==> exists i :: lead <= i < |nalus| && nalus[i].data[0] % 32 == 5)
      && (f.complete <==> forall i :: lead <= i < |nalus| ==> nalus[i].complete)
    ensures var u := units[0];
      && u.number == 1 && u.content.bits == Min(TotalBits(nalus, |nalus|), 0xffff_ffff_ffff_ffff)
      && (u.content.complete <==> forall i :: 0 <= i < |nalus| ==> nalus[i].complete)
  {
    hide Picture, Settled, Hull, FrameAt, Owned, OwnedBy, Started;
    PictureOpens(nalus, lead);
    PictureSettles(nalus, lead);
    FrameIsHull(nalus, |nalus|, 1);
    assert FrameAt(nalus, |nalus|, 0 + 1) == Some(frames[0]);
    PictureSpan(nalus, lead, frames[0]);
    PictureFlags(nalus, lead, frames[0]);
    OwnsAll(nalus, lead, |nalus|);
    UnitComplete(nalus, lead);
  }

  lemma {:induction false} PictureOpens<E, T>(nalus: seq<Nalu<E, T>>, lead: nat)
    requires Picture(nalus, lead)
    ensures lead < |nalus| && Started(nalus, |nalus|) == 1
  {
    hide StartsAt, Bits.SliceHeaderOf, Started;
    PictureStarts(nalus, lead, |nalus|);
  }

  lemma {:induction false} UnitComplete<E, T>(nalus: seq<Nalu<E, T>>, lead: nat)
    requires Settled(nalus, lead)
    ensures Owned(nalus, |nalus|, 1).complete <==> forall i :: 0 <= i < |nalus| ==> nalus[i].complete
  {
    hide Owned, Owner, StartsAt, IsSlice, NumberOf;
    OwnedComplete(nalus, |nalus|, 1);
    forall i: nat | i < |nalus| ensures OwnedBy(nalus, i, 1) {
      assert SettledAt(nalus, lead, i);
    }
  }

  lemma PictureSpan<E, T>(nalus: seq<Nalu<E, T>>, lead: nat, f: Frame)
    requires Settled(nalus, lead) && lead < |nalus| && Hull(nalus, |nalus|, 1, f)
    ensures f.number == 1 && f.firstNalu == lead + 1 && f.lastNalu == |nalus|
    ensures f.firstSequence == nalus[lead].firstSequence
  {
    hide StartsAt, IsSlice, Owner, Started, NaluType;
    assert SettledAt(nalus, lead, f.firstNalu - 1);
    assert SettledAt(nalus, lead, |nalus| - 1);
  }

  lemma PictureFlags<E, T>(nalus: seq<Nalu<E, T>>, lead: nat, f: Frame)
    requires Settled(nalus, lead) && Hull(nalus, |nalus|, 1, f)
    ensures forall i :: lead <= i < |nalus| ==> nalus[i].data != []
    ensures f.idr <==> exists i :: lead <= i < |nalus| && nalus[i].data[0] % 32 == 5
    ensures f.complete <==> forall i :: lead <= i < |nalus| ==> nalus[i].complete
  {
    hide StartsAt, IsSlice, Owner, Started, SettledAt;
    forall i: nat | i < |nalus|
      ensures nalus[i].data != [] && (IsSlice(nalus[i]) && NumberOf(nalus, i) == 1 <==> i >= lead)
    {
      assert SettledAt(nalus, lead, i);
      SettledMeans(nalus, lead, i);
    }
  }

  lemma SettledMeans<E, T>(nalus: seq<Nalu<E, T>>, lead: nat, i: nat)
    requires i < |nalus| && SettledAt(nalus, lead, i)
    ensures nalus[i].data != [] && (IsSlice(nalus[i]) && NumberOf(nalus, i) == 1 <==> i >= lead)
  {
    hide StartsAt, IsSlice, Owner, Started;
  }

  lemma {:induction false} OwnsAll<E, T>(nalus: seq<Nalu<E, T>>, lead: nat, n: nat)
    requires Picture(nalus, lead) && n <= |nalus|
    ensures Owned(nalus, n, 1).bits == TotalBits(nalus, n)
    decreases n
  {
    hide Owner, Bits.SliceHeaderOf, NaluType;
    if n > 0 {
      OwnsAll(nalus, lead, n - 1);
      PictureSlices(nalus, lead, n - 1);
    }
  }

  /** Its HRD epoch is the last that an SEI NALU in front of the slices brings. */
  lemma PictureEpoch<E, T>(nalus: seq<Nalu<E, T>>, lead: nat, units: seq<AccessUnit<E, T>>, i: nat)
    requires Picture(nalus, lead) && Counted(nalus, units)
    requires i < lead && nalus[i].data[0] % 32 == 6
    requires forall j :: i < j < lead && nalus[j].data[0] % 32 == 6 ==> nalus[j].epoch.None? && nalus[j].timing.None?
    ensures |units| == 1
    ensures nalus[i].epoch.Some? ==> units[0].content.epoch == nalus[i].epoch
    ensures nalus[i].timing.Some? ==> units[0].content.timing == nalus[i].timing
  {
    hide StartsAt, Bits.SliceHeaderOf, Owned, Owner, Started;
    var n := |nalus|;
    PictureStarts(nalus, lead, n);
    forall j: nat | j < n ensures OwnedBy(nalus, j, 1) && (IsSlice(nalus[j]) <==> j >= lead) {
      PictureSlices(nalus, lead, j);
    }
    OwnedEpoch(nalus, n, 1);
    OwnedTiming(nalus, n, 1);
    assert nalus[i].epoch.Some? ==> LastEpoch(nalus, n, 1, i);
    assert nalus[i].timing.Some? ==> LastTiming(nalus, n, 1, i);
  }

  /** One encoded slice from the first macroblock on is one frame and one access unit, IDR exactly when
      the slice is of type 5. */
  lemma OneSlice<E, T>(n: Nalu<E, T>, header: byte, sliceType: nat, ppsId: nat, more: seq<Bits.Field>,
                       frames: seq<Frame>, units: seq<AccessUnit<E, T>>)
    requires header % 32 == 1 || header % 32 == 5
    requires sliceType < 0xffff_ffff && ppsId < 0xffff_ffff
    requires forall k :: 0 <= k < |more| ==> Bits.Printable(more[k])
    requires n.data == Bits.SliceNalu(header, [Bits.Ue(0), Bits.Ue(sliceType), Bits.Ue(ppsId)] + more)
    requires TracksFrames([n], 1, frames) && Counted([n], units)
    ensures |frames| == 1 == |units|
    ensures var f := frames[0];
      && f.number == f.firstNalu == f.lastNalu == 1 && f.firstSequence == n.firstSequence
      && (f.idr <==> header % 32 == 5) && f.complete == n.complete
    ensures units[0].number == 1 && units[0].content.complete == n.complete
    ensures units[0].content.bits == Min(8 * |n.data|, 0xffff_ffff_ffff_ffff)
  {
    hide Bits.SliceNalu, Bits.SliceHeaderOf, TracksFrames, Counted;
    EncodedStarts([n], 0, header, 0, sliceType, ppsId, more);
    OnePicture([n], 0, frames, units);
    assert [n][0] == n;
    assert TotalBits([n], 1) == TotalBits([n], 0) + 8 * |n.data|;
  }

  // ---------------------------------------------------------------- sequence numbers and limits

  /** Slice `i` is the last of frame `k` that carries a sequence number. */
  ghost predicate LastNumbered<E, T>(nalus: seq<Nalu<E, T>>, n: nat, k: nat, i: nat)
    requires i < n <= |nalus|
  {
    && InFrame(nalus, i, k) && nalus[i].lastSequence.Some?
    && forall j: nat :: i < j < n && InFrame(nalus, j, k) ==> nalus[j].lastSequence.None?
  }

  ghost predicate InFrame<E, T>(nalus: seq<Nalu<E, T>>, i: nat, k: nat)
    requires i < |nalus|
  {
    Slice(nalus[i]) && NumberOf(nalus, i) == k
  }

  /** A frame's last sequence number is that of the last of its slices that has one. */
  lemma {:induction false} FrameSequence<E, T>(nalus: seq<Nalu<E, T>>, n: nat, k: nat)
    requires n <= |nalus| && FrameAt(nalus, n, k).Some?
    ensures var f := FrameAt(nalus, n, k).value;
      && (forall i: nat :: i < n && LastNumbered(nalus, n, k, i) ==> f.lastSequence == nalus[i].lastSequence)
      && (f.lastSequence.Some? ==> exists i: nat :: i < n && LastNumbered(nalus, n, k, i))
    decreases n
  {
    hide Slice, NumberOf;
    var m := n - 1;
    SliceIs(nalus[m]);
    if FrameAt(nalus, m, k).Some? {
      FrameSequence(nalus, m, k);
      NumberedStep(nalus, m, k);
    } else {
      NoneBefore(nalus, m, k);
      NumberedStep(nalus, m, k);
    }
  }

  lemma SliceIs(n: Nalu)
    ensures IsSlice(n) <==> Slice(n)
  {
  }

  lemma {:induction false} NoneBefore<E, T>(nalus: seq<Nalu<E, T>>, n: nat, k: nat)
    requires n <= |nalus| && FrameAt(nalus, n, k).None?
    ensures forall i: nat :: i < n ==> !InFrame(nalus, i, k)
    decreases n
  {
    hide Slice, NumberOf;
    if n > 0 {
      SliceIs(nalus[n - 1]);
      NoneBefore(nalus, n - 1, k);
    }
  }

  lemma NumberedStep<E, T>(nalus: seq<Nalu<E, T>>, n: nat, k: nat)
    requires n < |nalus|
    ensures var brings := InFrame(nalus, n, k) && nalus[n].lastSequence.Some?;
      && (LastNumbered(nalus, n + 1, k, n) <==> brings)
      && forall i: nat :: i < n ==> (LastNumbered(nalus, n + 1, k, i) <==> !brings && LastNumbered(nalus, n, k, i))
  {
    hide InFrame;
    var brings := InFrame(nalus, n, k) && nalus[n].lastSequence.Some?;
    forall i: nat | i < n ensures LastNumbered(nalus, n + 1, k, i) <==> !brings && LastNumbered(nalus, n, k, i) {
      if LastNumbered(nalus, n, k, i) && !brings {
        forall j: nat | i < j < n + 1 && InFrame(nalus, j, k) ensures nalus[j].lastSequence.None? {
          assert j == n || j < n;
        }
      }
      if LastNumbered(nalus, n + 1, k, i) {
        assert InFrame(nalus, n, k) ==> nalus[n].lastSequence.None?;
      }
    }
  }

  /** The number of non-empty NALUs among the first `n`. */
  function NonEmpty<E, T>(nalus: seq<Nalu<E, T>>, n: nat): nat
    requires n <= |nalus|
  {
    if n == 0 then 0 else NonEmpty(nalus, n - 1) + (if nalus[n - 1].data == [] then 0 else 1)
  }

  /** The NALUs listed are the first 100,000 that are not empty. */
  lemma {:induction false} FirstListed<E, T>(nalus: seq<Nalu<E, T>>, n: nat, i: nat)
    requires i < n <= |nalus|
    ensures i + 1 in Evidence(nalus, n) <==> nalus[i].data != [] && NonEmpty(nalus, i) < 100_000
    decreases n
  {
    hide Evidence, NonEmpty;
    ListedCount(nalus, n - 1);
    ListedStep(nalus, n);
    if i < n - 1 {
      FirstListed(nalus, n - 1, i);
    }
  }

  lemma ListedStep<E, T>(nalus: seq<Nalu<E, T>>, n: nat)
    requires 0 < n <= |nalus|
    ensures var before := Evidence(nalus, n - 1);
      Evidence(nalus, n) == if nalus[n - 1].data != [] && |before| < 100_000 then before + [n] else before
    ensures n !in Evidence(nalus, n - 1)
  {
  }

  lemma {:induction false} ListedCount<E, T>(nalus: seq<Nalu<E, T>>, n: nat)
    requires n <= |nalus|
    ensures |Evidence(nalus, n)| == Min(NonEmpty(nalus, n), 100_000)
    decreases n
  {
    if n > 0 {
      ListedCount(nalus, n - 1);
    }
  }

  /** The first 50,000 frames are kept. */
  lemma {:induction false} FramesKept<E, T>(nalus: seq<Nalu<E, T>>, frames: seq<Frame>)
    requires TracksFrames(nalus, |nalus|, frames)
    ensures |frames| == Min(Started(nalus, |nalus|), 50_000)
  {
    hide Started, FrameAt;
  }
}
