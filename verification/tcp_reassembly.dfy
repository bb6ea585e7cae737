/** One direction of a TCP connection: sequence-number unwrapping, overlap trimming and gap skipping
    (crates/capture/src/tcp.rs, `Reassembly`). */
module TcpReassembly {
  import opened Wrappers

  const TWO_32: int := 0x1_0000_0000
  const I32_MAX: int := 0x7fff_ffff
  const MAX_PENDING_BYTES: int := 64 * 1024
  const MAX_PENDING_SEGMENTS: int := 256
  const SYNC_SEGMENTS: int := 16
  const SYNC_MICROS: int := 200_000
  const GAP_MICROS: int := 2_000_000

  type u32 = x: int | 0 <= x < TWO_32

  datatype FrameMeta = FrameMeta(number: nat, micros: nat, interface: string)

  datatype Chunk = Chunk(data: seq<byte>, meta: FrameMeta, discontinuity: bool)

  /** A chunk handed to the decoder, with the stream position of its first byte. */
  datatype Emission = Emission(at: int, chunk: Chunk) {
    function End(): int { at + |chunk.data| }
  }

  /** A received segment with its unwrapped position. */
  datatype Segment = Segment(at: int, data: seq<byte>, meta: FrameMeta) {
    function End(): int { at + |data| }
  }

  datatype State = State(
    anchor: Option<int>,
    expected: Option<int>,
    pending: map<int, Chunk>,
    pendingBytes: int,
    firstMicros: Option<int>,
    gaps: nat,
    retransmittedBytes: nat,
    lateBytes: nat)

  const EMPTY: State := State(None, None, map[], 0, None, 0, 0, 0)

  function Chunks(out: seq<Emission>): (chunks: seq<Chunk>)
    ensures |chunks| == |out| && forall i :: 0 <= i < |out| ==> chunks[i] == out[i].chunk
  {
    seq(|out|, i requires 0 <= i < |out| => out[i].chunk)
  }

  // ---------------------------------------------------------------- sequence numbers

  /** The position of a 32-bit sequence number near `reference`: it is congruent to the distance
      from the anchor and lies in a half-open window of 2^32 positions around the reference. */
  function Unwrap(anchor: int, sequence: int, reference: int): (position: int)
    ensures (position - (sequence - anchor)) % TWO_32 == 0
    ensures -I32_MAX <= position - reference <= I32_MAX + 1
  {
    var cycle := reference - reference % TWO_32;
    var raw := cycle + (sequence - anchor) % TWO_32;
    CongruentShift(sequence - anchor, reference);
    var down := if raw - reference > I32_MAX then raw - TWO_32 else raw;
    if reference - down > I32_MAX then down + TWO_32 else down
  }

  lemma CongruentShift(d: int, reference: int)
    ensures (reference - reference % TWO_32 + d % TWO_32 - d) % TWO_32 == 0
    ensures (reference - reference % TWO_32 + d % TWO_32 - TWO_32 - d) % TWO_32 == 0
    ensures (reference - reference % TWO_32 + d % TWO_32 + TWO_32 - d) % TWO_32 == 0
  {
  }

  /** The window is exactly one period wide, so the position is unique. */
  lemma UnwrapUnique(anchor: int, sequence: int, reference: int, position: int)
    requires (position - (sequence - anchor)) % TWO_32 == 0
    requires -I32_MAX <= position - reference <= I32_MAX + 1
    ensures Unwrap(anchor, sequence, reference) == position
  {
    var u := Unwrap(anchor, sequence, reference);
    assert (position - u) % TWO_32 == 0;
  }

  lemma MultipleOf(k: int)
    ensures (TWO_32 * k) % TWO_32 == 0
  {
  }

  // ---------------------------------------------------------------- transitions

  function TotalBytes(pending: map<int, Chunk>): int
    decreases |pending|
  {
    if pending == map[] then 0
    else
      var k := Least(pending.Keys);
      |pending[k].data| + TotalBytes(pending - {k})
  }

  /** Timestamp of the oldest pending chunk. */
  function Earliest(pending: map<int, Chunk>): (t: Option<int>)
    ensures t.None? <==> pending == map[]
    ensures t.Some? ==> exists k :: k in pending && t.value == pending[k].meta.micros
    ensures t.Some? ==> forall k :: k in pending ==> t.value <= pending[k].meta.micros
  {
    if pending == map[] then None
    else
      var times := set k | k in pending :: pending[k].meta.micros as int;
      var k0 := Least(pending.Keys);
      assert pending[k0].meta.micros in times;
      assert forall k :: k in pending ==> pending[k].meta.micros in times;
      Some(Least(times))
  }

  /** The first pending chunk starts at or below `expected`. */
  predicate Ready(s: State)
  {
    s.expected.Some? && s.pending != map[] && Least(s.pending.Keys) <= s.expected.value
  }

  /** The part of the first pending chunk that was already emitted. */
  function Overlap(s: State): nat
    requires Ready(s)
  {
    var k := Least(s.pending.Keys);
    Min(s.expected.value - k, |s.pending[k].data|)
  }

  function PopState(s: State): (popped: State)
    requires Ready(s)
    ensures |popped.pending| < |s.pending|
  {
    var k := Least(s.pending.Keys);
    var length := |s.pending[k].data|;
    assert (s.pending - {k}).Keys == s.pending.Keys - {k};
    s.(pending := s.pending - {k},
       pendingBytes := s.pendingBytes - length,
       retransmittedBytes := s.retransmittedBytes + Overlap(s),
       expected := Some(s.expected.value + length - Overlap(s)))
  }

  function PopOutput(s: State): seq<Emission>
    requires Ready(s)
  {
    var c := s.pending[Least(s.pending.Keys)];
    if Overlap(s) == |c.data| then []
    else [Emission(s.expected.value, c.(data := c.data[Overlap(s)..]))]
  }

  /** Pops every pending chunk at or below `expected`, cutting off what was already emitted. */
  function DrainState(s: State): (r: (State, seq<Emission>))
    decreases |s.pending|
  {
    if !Ready(s) then (s.(firstMicros := Earliest(s.pending)), [])
    else
      var (end, out) := DrainState(PopState(s));
      (end, PopOutput(s) + out)
  }

  /** Moves `expected` to the first pending chunk and drains from there. */
  function SkipState(s: State): (r: (State, seq<Emission>))
  {
    if s.pending == map[] then (s, [])
    else
      var k := Least(s.pending.Keys);
      var gap := s.expected.Some? && k > s.expected.value;
      var (end, out) := DrainState(s.(expected := Some(k), gaps := if gap then s.gaps + 1 else s.gaps));
      if gap && out != [] then (end, Flagged(out))
      else (end, out)
  }

  function FinishState(s: State): (r: (State, seq<Emission>))
    decreases |s.pending|
  {
    if s.pending == map[] then (s, [])
    else
      var (skipped, out) := SkipState(s);
      SkipShrinks(s);
      var (end, more) := FinishState(skipped);
      (end, out + more)
  }

  /** Where the next segment lands, given everything seen so far. */
  function PositionOf(s: State, sequence: u32, syn: bool): int
  {
    var first := (sequence + if syn then 1 else 0) % TWO_32;
    Unwrap(if s.anchor.Some? then s.anchor.value else first, first, if s.expected.Some? then s.expected.value else 0)
  }

  /** The state after the header of a segment is taken in: the first sequence number becomes the
      anchor and the first SYN fixes `expected`. */
  function OpenState(s: State, sequence: u32, syn: bool): State
  {
    var first := (sequence + if syn then 1 else 0) % TWO_32;
    s.(anchor := if s.anchor.Some? then s.anchor else Some(first),
       expected := if syn && s.expected.None? then Some(PositionOf(s, sequence, syn)) else s.expected)
  }

  /** Length of the prefix of a segment that lies below `expected`. */
  function Stale(s: State, position: int, length: nat): nat
  {
    if s.expected.Some? && position < s.expected.value then Min(s.expected.value - position, length) else 0
  }

  function PushState(s: State, sequence: u32, syn: bool, data: seq<byte>, meta: FrameMeta): (State, seq<Emission>)
  {
    var position := PositionOf(s, sequence, syn);
    var open := OpenState(s, sequence, syn);
    if data == [] then (open, [])
    else
      var start := Stale(open, position, |data|);
      var counted := open.(
        retransmittedBytes := open.retransmittedBytes + start,
        lateBytes := if open.gaps > 0 then open.lateBytes + start else open.lateBytes);
      if start == |data| then (counted, [])
      else StoreState(counted, position + start, Chunk(data[start..], meta, false))
  }

  function Age(s: State, chunk: Chunk): int
  {
    if s.firstMicros.Some? then Max(0, chunk.meta.micros - s.firstMicros.value) else 0
  }

  /** A chunk is inserted unless an at least as long one is already pending at the same position. */
  function InsertState(s: State, at: int, chunk: Chunk): State
  {
    s.(firstMicros := if s.firstMicros.Some? then s.firstMicros else Some(chunk.meta.micros),
       pending := s.pending[at := chunk],
       pendingBytes := s.pendingBytes - Superseded(s, at) + |chunk.data|)
  }

  function Superseded(s: State, at: int): nat
  {
    if at in s.pending then |s.pending[at].data| else 0
  }

  /** Without a SYN the stream starts at the lowest position once enough has been collected. */
  function SyncState(s: State, age: int): State
  {
    if s.expected.None? && s.pending != map[]
       && (|s.pending| >= SYNC_SEGMENTS || s.pendingBytes >= MAX_PENDING_BYTES || age >= SYNC_MICROS)
    then s.(expected := Some(Least(s.pending.Keys)))
    else s
  }

  predicate OverLimit(s: State, age: int)
  {
    || s.pendingBytes > MAX_PENDING_BYTES
    || |s.pending| > MAX_PENDING_SEGMENTS
    || (age >= GAP_MICROS && s.pending != map[])
  }

  predicate AlreadyHeld(s: State, at: int, chunk: Chunk)
  {
    at in s.pending && |s.pending[at].data| >= |chunk.data|
  }

  function StoreState(s: State, at: int, chunk: Chunk): (State, seq<Emission>)
  {
    if AlreadyHeld(s, at, chunk) then
      (s.(firstMicros := if s.firstMicros.Some? then s.firstMicros else Some(chunk.meta.micros),
          retransmittedBytes := s.retransmittedBytes + |chunk.data|), [])
    else
      var age := Age(s, chunk);
      var (drained, out) := DrainState(SyncState(InsertState(s, at, chunk), age));
      if OverLimit(drained, age) then
        var (skipped, more) := SkipState(drained);
        (skipped, out + more)
      else (drained, out)
  }

  // ---------------------------------------------------------------- invariants

  predicate CoveredBy(g: Segment, at: int, data: seq<byte>)
  {
    && g.at <= at && at + |data| <= g.End()
    && forall i :: 0 <= i < |data| ==> data[i] == g.data[at - g.at + i]
  }

  /** The chunk is a piece of one received segment and carries that segment's metadata. */
  ghost predicate Backed(h: seq<Segment>, at: int, c: Chunk)
  {
    |c.data| > 0 && exists i :: 0 <= i < |h| && CoveredBy(h[i], at, c.data) && h[i].meta == c.meta
  }

  ghost predicate Sound(s: State, h: seq<Segment>)
  {
    && (forall k :: k in s.pending ==> Backed(h, k, s.pending[k]) && !s.pending[k].discontinuity)
    && s.pendingBytes == TotalBytes(s.pending)
  }

  /** `b` is adjacent to `a`, except that a flagged chunk starts strictly later. */
  predicate Follows(a: Emission, b: Emission)
  {
    if b.chunk.discontinuity then a.End() < b.at else a.End() == b.at
  }

  ghost predicate Ordered(out: seq<Emission>)
  {
    && (forall i :: 0 <= i < |out| ==> |out[i].chunk.data| > 0)
    && (forall i, j :: 0 <= i < |out| && 0 <= j < |out| && j == i + 1 ==> Follows(out[i], out[j]))
  }

  ghost predicate AllBacked(h: seq<Segment>, out: seq<Emission>)
  {
    forall i :: 0 <= i < |out| ==> Backed(h, out[i].at, out[i].chunk)
  }

  /** An unflagged, gapless run of chunks from one position to another. */
  ghost predicate Chain(from: int, out: seq<Emission>, to: int)
  {
    && Ordered(out)
    && (forall i :: 0 <= i < |out| ==> !out[i].chunk.discontinuity)
    && (if out == [] then from == to else out[0].at == from && out[|out|-1].End() == to)
  }

  function Flags(out: seq<Emission>): nat
  {
    if out == [] then 0
    else Flags(out[..|out|-1]) + if out[|out|-1].chunk.discontinuity then 1 else 0
  }

  function Emitted(out: seq<Emission>): nat
  {
    if out == [] then 0 else |out[0].chunk.data| + Emitted(out[1..])
  }

  lemma {:induction false} FlagsConcat(a: seq<Emission>, b: seq<Emission>)
    ensures Flags(a + b) == Flags(a) + Flags(b)
  {
    if b == [] {
      assert a + b == a;
    } else {
      FlagsConcat(a, b[..|b|-1]);
      assert (a + b)[..|a+b|-1] == a + b[..|b|-1];
    }
  }

  lemma {:induction false} NoFlags(out: seq<Emission>)
    requires forall i :: 0 <= i < |out| ==> !out[i].chunk.discontinuity
    ensures Flags(out) == 0
  {
    if out != [] {
      NoFlags(out[..|out|-1]);
    }
  }

  lemma {:induction false} EmittedConcat(a: seq<Emission>, b: seq<Emission>)
    ensures Emitted(a + b) == Emitted(a) + Emitted(b)
  {
    if a == [] {
      assert a + b == b;
    } else {
      EmittedConcat(a[1..], b);
      assert (a + b)[1..] == a[1..] + b;
    }
  }

  lemma {:induction false} TotalBytesRemove(pending: map<int, Chunk>, k: int)
    requires k in pending
    ensures TotalBytes(pending) == |pending[k].data| + TotalBytes(pending - {k})
    decreases |pending|
  {
    var l := Least(pending.Keys);
    if l != k {
      TotalBytesRemove(pending - {l}, k);
      TotalBytesRemove(pending - {k}, l);
      assert pending - {l} - {k} == pending - {k} - {l};
    }
  }

  lemma BackedMonotone(h: seq<Segment>, g: Segment, at: int, c: Chunk)
    requires Backed(h, at, c)
    ensures Backed(h + [g], at, c)
  {
    var i :| 0 <= i < |h| && CoveredBy(h[i], at, c.data) && h[i].meta == c.meta;
    assert (h + [g])[i] == h[i];
  }

  lemma BackedSuffix(h: seq<Segment>, at: int, c: Chunk, n: nat)
    requires Backed(h, at, c) && n < |c.data|
    ensures Backed(h, at + n, c.(data := c.data[n..]))
  {
    var i :| 0 <= i < |h| && CoveredBy(h[i], at, c.data) && h[i].meta == c.meta;
    assert CoveredBy(h[i], at + n, c.data[n..]);
  }

  /** Draining only removes pending chunks and leaves the other fields alone. */
  lemma {:induction false} DrainFrame(s: State)
    ensures var end := DrainState(s).0;
      && end.gaps == s.gaps && end.anchor == s.anchor && end.lateBytes == s.lateBytes
      && end.firstMicros == Earliest(end.pending)
      && end.pending.Keys <= s.pending.Keys
      && (forall k :: k in end.pending ==> end.pending[k] == s.pending[k])
      && |end.pending| <= |s.pending|
      && (Ready(s) ==> |end.pending| < |s.pending|)
      && !Ready(end)
      && (s.expected.None? ==> end.pending == s.pending)
      && end.expected.None? == s.expected.None?
    decreases |s.pending|
  {
    if Ready(s) {
      DrainFrame(PopState(s));
    }
  }

  lemma SkipShrinks(s: State)
    requires s.pending != map[]
    ensures |SkipState(s).0.pending| < |s.pending|
  {
    var k := Least(s.pending.Keys);
    DrainFrame(s.(expected := Some(k),
      gaps := if s.expected.Some? && k > s.expected.value then s.gaps + 1 else s.gaps));
  }

  lemma PopBytes(s: State)
    requires Ready(s) && s.pendingBytes == TotalBytes(s.pending)
    ensures PopState(s).pendingBytes == TotalBytes(PopState(s).pending)
  {
    TotalBytesRemove(s.pending, Least(s.pending.Keys));
  }

  lemma PopSound(s: State, h: seq<Segment>)
    requires Ready(s) && Sound(s, h)
    ensures Sound(PopState(s), h) && AllBacked(h, PopOutput(s))
    ensures forall i :: 0 <= i < |PopOutput(s)| ==> !PopOutput(s)[i].chunk.discontinuity
  {
    hide Backed, TotalBytes;
    var k := Least(s.pending.Keys);
    PopBytes(s);
    if Overlap(s) < |s.pending[k].data| {
      BackedSuffix(h, k, s.pending[k], Overlap(s));
    }
  }

  lemma {:induction false} DrainSound(s: State, h: seq<Segment>)
    requires Sound(s, h)
    ensures Sound(DrainState(s).0, h) && AllBacked(h, DrainState(s).1)
    decreases |s.pending|
  {
    if Ready(s) {
      PopSound(s, h);
      hide Sound, Backed, PopState, PopOutput;
      DrainSound(PopState(s), h);
    } else {
      hide Backed;
    }
  }

  /** Draining emits one gapless run from the old `expected` to the new one. */
  lemma {:induction false} DrainChain(s: State, h: seq<Segment>)
    requires Sound(s, h)
    ensures DrainState(s).0.expected.None? == s.expected.None?
    ensures s.expected.None? ==> DrainState(s).1 == []
    ensures s.expected.Some? ==> Chain(s.expected.value, DrainState(s).1, DrainState(s).0.expected.value)
    ensures Ready(s) && Least(s.pending.Keys) == s.expected.value ==> DrainState(s).1 != []
    decreases |s.pending|
  {
    hide Backed, AllBacked, TotalBytes;
    DrainFrame(s);
    if Ready(s) {
      hide Ordered;
      var popped := PopState(s);
      PopSound(s, h);
      PopEnd(s, h);
      hide Sound;
      DrainChain(popped, h);
      var (end, out) := DrainState(popped);
      if PopOutput(s) != [] {
        ChainCons(PopOutput(s)[0], out, end.expected.value);
      } else {
        assert PopOutput(s) + out == out;
      }
    }
  }

  lemma PopEnd(s: State, h: seq<Segment>)
    requires Ready(s) && Sound(s, h)
    ensures var out := PopOutput(s);
      if out == [] then PopState(s).expected == s.expected && Least(s.pending.Keys) < s.expected.value
      else |out| == 1 && out[0].at == s.expected.value && |out[0].chunk.data| > 0
           && !out[0].chunk.discontinuity && PopState(s).expected == Some(out[0].End())
  {
    assert Backed(h, Least(s.pending.Keys), s.pending[Least(s.pending.Keys)]);
  }

  lemma ChainCons(e: Emission, out: seq<Emission>, to: int)
    requires |e.chunk.data| > 0 && !e.chunk.discontinuity && Chain(e.End(), out, to)
    ensures Chain(e.at, [e] + out, to)
  {
    var all := [e] + out;
    assert forall i :: 0 < i < |all| ==> all[i] == out[i-1];
  }

  // ---------------------------------------------------------------- whole runs

  /** What has been emitted so far, relative to the state it left behind. */
  ghost predicate Line(s: State, out: seq<Emission>)
  {
    && Ordered(out)
    && Flags(out) == s.gaps
    && (out != [] ==> !Ready(s) && s.expected == Some(out[|out|-1].End()))
  }

  ghost predicate Inv(s: State, h: seq<Segment>, out: seq<Emission>)
  {
    && Sound(s, h) && AllBacked(h, out) && Line(s, out)
    && s.firstMicros == Earliest(s.pending)
  }

  lemma OrderedConcat(a: seq<Emission>, b: seq<Emission>)
    requires Ordered(a) && Ordered(b)
    requires a != [] && b != [] ==> Follows(a[|a|-1], b[0])
    ensures Ordered(a + b)
  {
    forall i, j | 0 <= i < |a+b| && 0 <= j < |a+b| && j == i + 1 ensures Follows((a+b)[i], (a+b)[j]) {
      if j < |a| {
        assert Follows(a[i], a[j]);
      } else if i >= |a| {
        assert Follows(b[i-|a|], b[j-|a|]);
      }
    }
  }

  lemma {:induction false} AppendChain(out: seq<Emission>, from: int, run: seq<Emission>, to: int)
    requires Ordered(out) && (out != [] ==> out[|out|-1].End() == from)
    requires Chain(from, run, to)
    ensures Ordered(out + run) && Flags(out + run) == Flags(out)
    ensures out + run != [] ==> (out + run)[|out + run|-1].End() == to
  {
    OrderedConcat(out, run);
    hide Ordered, Follows, Flags;
    FlagsConcat(out, run);
    NoFlags(run);
    if run != [] {
      assert (out + run)[|out + run|-1] == run[|run|-1];
    } else {
      assert out + run == out;
    }
  }

  /** The first chunk after a skipped hole carries the flag. */
  function Flagged(run: seq<Emission>): (r: seq<Emission>)
    requires run != []
    ensures |r| == |run|
  {
    [run[0].(chunk := run[0].chunk.(discontinuity := true))] + run[1..]
  }

  lemma {:induction false} AppendJump(out: seq<Emission>, from: int, run: seq<Emission>, to: int)
    requires Ordered(out) && (out != [] ==> out[|out|-1].End() < from)
    requires Chain(from, run, to) && run != []
    ensures Ordered(out + Flagged(run)) && Flags(out + Flagged(run)) == Flags(out) + 1
    ensures Flagged(run)[|run|-1].End() == to
  {
    FlaggedOrdered(run);
    OrderedConcat(out, Flagged(run));
    JumpFlags(out, run);
  }

  lemma {:induction false} JumpFlags(out: seq<Emission>, run: seq<Emission>)
    requires run != [] && forall i :: 0 <= i < |run| ==> !run[i].chunk.discontinuity
    ensures Flags(out + Flagged(run)) == Flags(out) + 1
  {
    var flagged := Flagged(run);
    var head := flagged[..1];
    assert flagged == head + run[1..];
    NoFlags(run[1..]);
    FlagsConcat(head, run[1..]);
    assert head[..0] == [];
    assert Flags(head) == 1;
    FlagsConcat(out, flagged);
  }

  lemma FlaggedOrdered(run: seq<Emission>)
    requires Ordered(run) && run != []
    ensures Ordered(Flagged(run))
  {
    var flagged := Flagged(run);
    forall i, j | 0 <= i < |flagged| && 0 <= j < |flagged| && j == i + 1 ensures Follows(flagged[i], flagged[j]) {
      assert Follows(run[i], run[j]);
    }
  }

  lemma {:induction false} DrainInv(s: State, h: seq<Segment>, out: seq<Emission>)
    requires Sound(s, h) && AllBacked(h, out) && Ordered(out) && Flags(out) == s.gaps
    requires out != [] ==> s.expected == Some(out[|out|-1].End())
    ensures Inv(DrainState(s).0, h, out + DrainState(s).1)
  {
    hide Sound, Backed, Ordered, DrainState, Flags, Earliest;
    DrainFrame(s);
    DrainSound(s, h);
    DrainChain(s, h);
    var (end, run) := DrainState(s);
    if s.expected.Some? {
      AppendChain(out, s.expected.value, run, end.expected.value);
    } else {
      assert out + run == out;
    }
  }

  lemma SkipInv(s: State, h: seq<Segment>, out: seq<Emission>)
    requires Inv(s, h, out)
    ensures Inv(SkipState(s).0, h, out + SkipState(s).1)
  {
    hide DrainState, Flags, Backed, Ordered, AllBacked, TotalBytes, Earliest, Flagged;
    if s.pending == map[] {
      assert out + [] == out;
    } else {
      var k := Least(s.pending.Keys);
      var gap := s.expected.Some? && k > s.expected.value;
      var from := s.(expected := Some(k), gaps := if gap then s.gaps + 1 else s.gaps);
      assert Sound(from, h);
      if gap {
        SkipGapInv(s, from, k, h, out);
      } else {
        assert out == [];
        DrainInv(from, h, out);
      }
    }
  }

  lemma SkipGapInv(s: State, from: State, k: int, h: seq<Segment>, out: seq<Emission>)
    requires Inv(s, h, out) && s.pending != map[] && k == Least(s.pending.Keys)
    requires s.expected.Some? && k > s.expected.value
    requires from == s.(expected := Some(k), gaps := s.gaps + 1)
    ensures DrainState(from).1 != [] && Inv(DrainState(from).0, h, out + Flagged(DrainState(from).1))
  {
    hide DrainState, Flags, Backed, Ordered, TotalBytes, Earliest, Flagged;
    assert Sound(from, h);
    DrainFrame(from);
    DrainSound(from, h);
    DrainChain(from, h);
    assert Ready(from);
    var (end, run) := DrainState(from);
    AppendJump(out, k, run, end.expected.value);
    FlaggedBacked(h, run);
  }

  lemma FlaggedBacked(h: seq<Segment>, run: seq<Emission>)
    requires AllBacked(h, run) && run != []
    ensures AllBacked(h, Flagged(run))
  {
    var c := run[0].chunk;
    var i :| 0 <= i < |h| && CoveredBy(h[i], run[0].at, c.data) && h[i].meta == c.meta;
    assert Backed(h, run[0].at, c.(discontinuity := true));
  }

  lemma {:induction false} FinishInv(s: State, h: seq<Segment>, out: seq<Emission>)
    requires Inv(s, h, out)
    ensures Inv(FinishState(s).0, h, out + FinishState(s).1)
    ensures FinishState(s).0.pending == map[]
    decreases |s.pending|
  {
    hide Inv, SkipState;
    if s.pending == map[] {
      assert out + [] == out;
    } else {
      var (skipped, more) := SkipState(s);
      SkipShrinks(s);
      SkipInv(s, h, out);
      FinishInv(skipped, h, out + more);
      assert out + (more + FinishState(skipped).1) == out + more + FinishState(skipped).1;
    }
  }

  /** The segment that a push adds to the history. */
  function Received(s: State, sequence: u32, syn: bool, data: seq<byte>, meta: FrameMeta): Segment
  {
    Segment(PositionOf(s, sequence, syn), data, meta)
  }

  lemma InsertSound(s: State, h: seq<Segment>, at: int, chunk: Chunk)
    requires Sound(s, h) && Backed(h, at, chunk) && !chunk.discontinuity
    ensures Sound(InsertState(s, at, chunk), h)
  {
    var after := s.pending[at := chunk];
    TotalBytesRemove(after, at);
    assert after - {at} == s.pending - {at};
    if at in s.pending {
      TotalBytesRemove(s.pending, at);
    } else {
      assert s.pending - {at} == s.pending;
    }
  }

  lemma HistoryGrows(s: State, h: seq<Segment>, out: seq<Emission>, g: Segment)
    requires Inv(s, h, out)
    ensures Inv(s, h + [g], out)
  {
    forall k | k in s.pending ensures Backed(h + [g], k, s.pending[k]) {
      BackedMonotone(h, g, k, s.pending[k]);
    }
    forall i | 0 <= i < |out| ensures Backed(h + [g], out[i].at, out[i].chunk) {
      BackedMonotone(h, g, out[i].at, out[i].chunk);
    }
  }

  /** Every push keeps the invariant, whatever arrives. */
  lemma PushInv(s: State, h: seq<Segment>, out: seq<Emission>, sequence: u32, syn: bool, data: seq<byte>,
                meta: FrameMeta)
    requires Inv(s, h, out)
    ensures Inv(PushState(s, sequence, syn, data, meta).0, h + [Received(s, sequence, syn, data, meta)],
                out + PushState(s, sequence, syn, data, meta).1)
  {
    hide StoreState, Flags, Ordered, AllBacked, TotalBytes, Earliest, Unwrap;
    var g := Received(s, sequence, syn, data, meta);
    HistoryGrows(s, h, out, g);
    var open := OpenState(s, sequence, syn);
    assert Inv(open, h + [g], out);
    var start := Stale(open, g.at, |data|);
    assert out + [] == out;
    if start < |data| {
      var counted := open.(
        retransmittedBytes := open.retransmittedBytes + start,
        lateBytes := if open.gaps > 0 then open.lateBytes + start else open.lateBytes);
      assert Inv(counted, h + [g], out);
      assert (h + [g])[|h|] == g && CoveredBy(g, g.at + start, data[start..]);
      assert Backed(h + [g], g.at + start, Chunk(data[start..], meta, false));
      StoreInv(counted, h + [g], out, g.at + start, Chunk(data[start..], meta, false));
    }
  }

  lemma StoreInv(s: State, h: seq<Segment>, out: seq<Emission>, at: int, chunk: Chunk)
    requires Inv(s, h, out) && Backed(h, at, chunk) && !chunk.discontinuity
    ensures Inv(StoreState(s, at, chunk).0, h, out + StoreState(s, at, chunk).1)
  {
    hide DrainState, SkipState, Flags, Ordered, AllBacked, TotalBytes, Earliest, Backed;
    if AlreadyHeld(s, at, chunk) {
      assert out + [] == out;
    } else {
      var age := Age(s, chunk);
      InsertSound(s, h, at, chunk);
      var synced := SyncState(InsertState(s, at, chunk), age);
      assert Sound(synced, h);
      DrainInv(synced, h, out);
      var (drained, run) := DrainState(synced);
      if OverLimit(drained, age) {
        SkipInv(drained, h, out + run);
        assert out + (run + SkipState(drained).1) == out + run + SkipState(drained).1;
      }
    }
  }

  datatype Event = Arrive(sequence: u32, syn: bool, data: seq<byte>, meta: FrameMeta) | Close

  datatype Trace = Trace(state: State, history: seq<Segment>, out: seq<Emission>)

  function Step(t: Trace, e: Event): Trace
  {
    match e
    case Arrive(sequence, syn, data, meta) =>
      var (next, more) := PushState(t.state, sequence, syn, data, meta);
      Trace(next, t.history + [Received(t.state, sequence, syn, data, meta)], t.out + more)
    case Close =>
      var (next, more) := FinishState(t.state);
      Trace(next, t.history, t.out + more)
  }

  function Run(events: seq<Event>): Trace
  {
    if events == [] then Trace(EMPTY, [], [])
    else Step(Run(events[..|events|-1]), events[|events|-1])
  }

  /** Every run, with or without a SYN and under any loss, duplication and reordering: chunks are
      pieces of received segments, in strictly increasing positions, adjacent unless flagged, and
      `gaps` counts the flags. At most 256 segments wait. */
  lemma {:induction false} RunInv(events: seq<Event>)
    ensures var t := Run(events);
      Inv(t.state, t.history, t.out) && |t.state.pending| <= MAX_PENDING_SEGMENTS
  {
    if events != [] {
      var prefix := events[..|events|-1];
      RunInv(prefix);
      var t := Run(prefix);
      hide Inv, PushState, FinishState;
      match events[|events|-1]
      case Arrive(sequence, syn, data, meta) =>
        PushInv(t.state, t.history, t.out, sequence, syn, data, meta);
        PushBound(t.state, sequence, syn, data, meta);
      case Close =>
        FinishInv(t.state, t.history, t.out);
    }
  }

  lemma StoreBound(s: State, at: int, chunk: Chunk)
    requires |s.pending| <= MAX_PENDING_SEGMENTS
    ensures |StoreState(s, at, chunk).0.pending| <= MAX_PENDING_SEGMENTS
  {
    hide DrainState, Earliest, TotalBytes;
    if !AlreadyHeld(s, at, chunk) {
      var synced := SyncState(InsertState(s, at, chunk), Age(s, chunk));
      assert |synced.pending| <= |s.pending| + 1;
      DrainFrame(synced);
      var drained := DrainState(synced).0;
      if drained.pending != map[] {
        SkipShrinks(drained);
      }
    }
  }

  lemma PushBound(s: State, sequence: u32, syn: bool, data: seq<byte>, meta: FrameMeta)
    requires |s.pending| <= MAX_PENDING_SEGMENTS
    ensures |PushState(s, sequence, syn, data, meta).0.pending| <= MAX_PENDING_SEGMENTS
  {
    hide StoreState, Unwrap;
    var position := PositionOf(s, sequence, syn);
    var open := OpenState(s, sequence, syn);
    var start := Stale(open, position, |data|);
    var counted := open.(
      retransmittedBytes := open.retransmittedBytes + start,
      lateBytes := if open.gaps > 0 then open.lateBytes + start else open.lateBytes);
    StoreBound(counted, position + start, Chunk(data[start..], meta, false));
  }

  /** Emitted byte positions strictly increase. */
  lemma {:induction false} EmittedInOrder(out: seq<Emission>, i: nat, j: nat)
    requires Ordered(out) && i < j < |out|
    ensures out[i].End() <= out[j].at
    decreases j
  {
    assert Follows(out[j-1], out[j]);
    if i < j - 1 {
      EmittedInOrder(out, i, j - 1);
    }
  }

  // ---------------------------------------------------------------- byte accounting

  lemma {:induction false} DrainConserves(s: State)
    ensures s.pendingBytes + s.retransmittedBytes
         == Emitted(DrainState(s).1) + DrainState(s).0.pendingBytes + DrainState(s).0.retransmittedBytes
    decreases |s.pending|
  {
    if Ready(s) {
      DrainConserves(PopState(s));
      EmittedConcat(PopOutput(s), DrainState(PopState(s)).1);
      assert PopOutput(s) != [] ==> PopOutput(s)[1..] == [];
    }
  }

  lemma SkipConserves(s: State)
    ensures s.pendingBytes + s.retransmittedBytes
         == Emitted(SkipState(s).1) + SkipState(s).0.pendingBytes + SkipState(s).0.retransmittedBytes
  {
    if s.pending != map[] {
      var k := Least(s.pending.Keys);
      var from := s.(expected := Some(k),
        gaps := if s.expected.Some? && k > s.expected.value then s.gaps + 1 else s.gaps);
      DrainConserves(from);
      var run := DrainState(from).1;
      if run != [] {
        assert Flagged(run)[1..] == run[1..];
      }
    }
  }

  lemma StoreConserves(s: State, at: int, chunk: Chunk)
    ensures var (end, out) := StoreState(s, at, chunk);
      |chunk.data| + s.pendingBytes + s.retransmittedBytes
      == Emitted(out) + end.pendingBytes + end.retransmittedBytes
         + if AlreadyHeld(s, at, chunk) then 0 else Superseded(s, at)
  {
    hide DrainState, SkipState, Earliest, TotalBytes;
    if !AlreadyHeld(s, at, chunk) {
      var synced := SyncState(InsertState(s, at, chunk), Age(s, chunk));
      DrainConserves(synced);
      var (drained, out) := DrainState(synced);
      SkipConserves(drained);
      EmittedConcat(out, SkipState(drained).1);
    }
  }

  /** Every received byte is emitted, still pending or counted as retransmitted, except the bytes of
      a shorter pending chunk that a longer one at the same position supersedes. */
  lemma PushConserves(s: State, sequence: u32, syn: bool, data: seq<byte>, meta: FrameMeta)
    ensures var (end, out) := PushState(s, sequence, syn, data, meta);
      var open := OpenState(s, sequence, syn);
      var position := PositionOf(s, sequence, syn);
      var start := Stale(open, position, |data|);
      var chunk := Chunk(data[start..], meta, false);
      |data| + s.pendingBytes + s.retransmittedBytes
      == Emitted(out) + end.pendingBytes + end.retransmittedBytes
         + if start == |data| || AlreadyHeld(open, position + start, chunk) then 0
           else Superseded(open, position + start)
  {
    hide StoreState, Unwrap;
    var open := OpenState(s, sequence, syn);
    var position := PositionOf(s, sequence, syn);
    var start := Stale(open, position, |data|);
    var counted := open.(
      retransmittedBytes := open.retransmittedBytes + start,
      lateBytes := if open.gaps > 0 then open.lateBytes + start else open.lateBytes);
    StoreConserves(counted, position + start, Chunk(data[start..], meta, false));
  }

  // ---------------------------------------------------------------- the stateful object

  lemma ChunksConcat(a: seq<Emission>, b: seq<Emission>)
    ensures Chunks(a + b) == Chunks(a) + Chunks(b)
  {
  }

  lemma {:induction false} DrainOnce(s: State)
    ensures Ready(s) ==> DrainState(s) == (DrainState(PopState(s)).0, PopOutput(s) + DrainState(PopState(s)).1)
    ensures !Ready(s) ==> DrainState(s) == (s.(firstMicros := Earliest(s.pending)), [])
  {
  }

  /** Draining has emitted `done` so far and goes on from `s`. */
  ghost predicate Drained(was: State, done: seq<Emission>, s: State)
  {
    DrainState(was) == (DrainState(s).0, done + DrainState(s).1)
  }

  lemma DrainedNothing(was: State)
    ensures Drained(was, [], was) && Chunks([]) == []
  {
    assert [] + DrainState(was).1 == DrainState(was).1;
  }

  lemma DrainedStep(was: State, done: seq<Emission>, s: State)
    requires Drained(was, done, s) && Ready(s)
    ensures Drained(was, done + PopOutput(s), PopState(s))
    ensures Chunks(done + PopOutput(s)) == Chunks(done) + Chunks(PopOutput(s))
  {
    hide DrainState, PopState, PopOutput, Chunks;
    DrainOnce(s);
    ChunksConcat(done, PopOutput(s));
    assert done + (PopOutput(s) + DrainState(PopState(s)).1) == done + PopOutput(s) + DrainState(PopState(s)).1;
  }

  lemma {:induction false} DrainedAll(was: State, done: seq<Emission>, s: State)
    requires Drained(was, done, s) && !Ready(s)
    ensures DrainState(was) == (s.(firstMicros := Earliest(s.pending)), done)
  {
    DrainOnce(s);
    assert done + [] == done;
  }

  /** Finishing has emitted `done` so far and goes on from `s`. */
  ghost predicate Finishing(was: State, done: seq<Emission>, s: State)
  {
    FinishState(was) == (FinishState(s).0, done + FinishState(s).1)
  }

  lemma FinishingNothing(was: State)
    ensures Finishing(was, [], was) && Chunks([]) == []
  {
    assert [] + FinishState(was).1 == FinishState(was).1;
  }

  lemma FinishingStep(was: State, done: seq<Emission>, s: State)
    requires Finishing(was, done, s) && s.pending != map[]
    ensures var (next, more) := SkipState(s);
      Finishing(was, done + more, next) && Chunks(done + more) == Chunks(done) + Chunks(more)
  {
    hide SkipState, Chunks;
    var (next, more) := SkipState(s);
    ChunksConcat(done, more);
    assert done + (more + FinishState(next).1) == done + more + FinishState(next).1;
  }

  lemma {:induction false} FinishingAll(was: State, done: seq<Emission>, s: State)
    requires Finishing(was, done, s) && s.pending == map[]
    ensures FinishState(was) == (s, done)
  {
    assert done + [] == done;
  }

  class Reassembly {
    var anchor: Option<int>
    var expected: Option<int>
    var pending: map<int, Chunk>
    var pendingBytes: int
    var firstMicros: Option<int>
    var gaps: nat
    var retransmittedBytes: nat
    var lateBytes: nat

    function View(): State
      reads this
    {
      State(anchor, expected, pending, pendingBytes, firstMicros, gaps, retransmittedBytes, lateBytes)
    }

    constructor ()
      ensures View() == EMPTY
    {
      anchor, expected, firstMicros := None, None, None;
      pending, pendingBytes := map[], 0;
      gaps, retransmittedBytes, lateBytes := 0, 0, 0;
    }

    method Push(sequence: u32, syn: bool, data: seq<byte>, meta: FrameMeta) returns (output: seq<Chunk>)
      modifies this
      ensures View() == PushState(old(View()), sequence, syn, data, meta).0
      ensures output == Chunks(PushState(old(View()), sequence, syn, data, meta).1)
    {
      hide StoreState, Unwrap, Chunks;
      var first := (sequence + if syn then 1 else 0) % TWO_32;
      ghost var was := View();
      if anchor.None? {
        anchor := Some(first);
      }
      var position := Unwrap(anchor.value, first, if expected.Some? then expected.value else 0);
      assert position == PositionOf(was, sequence, syn);
      if syn && expected.None? {
        expected := Some(position);
      }
      assert View() == OpenState(was, sequence, syn);
      if data == [] {
        return [];
      }
      var start := 0;
      if expected.Some? && position < expected.value {
        start := Min(expected.value - position, |data|);
        retransmittedBytes := retransmittedBytes + start;
        if gaps > 0 {
          lateBytes := lateBytes + start;
        }
        position := position + start;
      }
      if start == |data| {
        return [];
      }
      output := Store(position, Chunk(data[start..], meta, false));
    }

    /** Insertion: a chunk at least as long at the same position wins. */
    method Insert(position: int, chunk: Chunk) returns (inserted: bool, age: int)
      modifies this
      ensures inserted == !AlreadyHeld(old(View()), position, chunk)
      ensures age == Age(old(View()), chunk)
      ensures inserted ==> View() == InsertState(old(View()), position, chunk)
      ensures !inserted ==> View() == StoreState(old(View()), position, chunk).0
    {
      hide DrainState, SkipState;
      age := 0;
      if firstMicros.None? {
        firstMicros := Some(chunk.meta.micros);
      } else {
        age := Max(0, chunk.meta.micros - firstMicros.value);
      }
      if position in pending {
        var previous := pending[position];
        if |previous.data| >= |chunk.data| {
          retransmittedBytes := retransmittedBytes + |chunk.data|;
          return false, age;
        }
        pendingBytes := pendingBytes - |previous.data|;
      }
      pendingBytes := pendingBytes + |chunk.data|;
      pending := pending[position := chunk];
      inserted := true;
    }

    /** The second half of `push`: insertion, draining and the limits. */
    method Store(position: int, chunk: Chunk) returns (output: seq<Chunk>)
      modifies this
      ensures View() == StoreState(old(View()), position, chunk).0
      ensures output == Chunks(StoreState(old(View()), position, chunk).1)
    {
      hide DrainState, SkipState, Chunks, InsertState, Age;
      var inserted, age := Insert(position, chunk);
      if !inserted {
        return [];
      }
      if expected.None? && pending != map[]
         && (|pending| >= SYNC_SEGMENTS || pendingBytes >= MAX_PENDING_BYTES || age >= SYNC_MICROS) {
        expected := Some(Least(pending.Keys));
      }
      ghost var synced := View();
      output := Drain();
      if pendingBytes > MAX_PENDING_BYTES || |pending| > MAX_PENDING_SEGMENTS
        || (age >= GAP_MICROS && pending != map[]) {
        ghost var drained := View();
        var more := SkipGap();
        ChunksConcat(DrainState(synced).1, SkipState(drained).1);
        output := output + more;
      }
    }

    /** One iteration of `drain`. */
    method Pop() returns (output: seq<Chunk>)
      requires Ready(View())
      modifies this
      ensures View() == PopState(old(View()))
      ensures output == Chunks(PopOutput(old(View())))
    {
      hide Earliest;
      var position := Least(pending.Keys);
      var chunk := pending[position];
      pending := pending - {position};
      pendingBytes := pendingBytes - |chunk.data|;
      var overlap := Min(expected.value - position, |chunk.data|);
      retransmittedBytes := retransmittedBytes + overlap;
      chunk := chunk.(data := chunk.data[overlap..]);
      output := [];
      if chunk.data != [] {
        expected := Some(expected.value + |chunk.data|);
        output := [chunk];
      }
    }

    method Drain() returns (output: seq<Chunk>)
      modifies this
      ensures View() == DrainState(old(View())).0
      ensures output == Chunks(DrainState(old(View())).1)
    {
      hide DrainState, PopState, PopOutput, Chunks, Earliest, Drained;
      ghost var was := View();
      ghost var done: seq<Emission> := [];
      output := [];
      DrainedNothing(was);
      while expected.Some? && pending != map[] && Least(pending.Keys) <= expected.value
        invariant Drained(was, done, View()) && output == Chunks(done)
        decreases |pending|
      {
        ghost var before := View();
        DrainedStep(was, done, before);
        var more := Pop();
        done := done + PopOutput(before);
        output := output + more;
      }
      DrainedAll(was, done, View());
      firstMicros := Earliest(pending);
    }

    method SkipGap() returns (output: seq<Chunk>)
      modifies this
      ensures View() == SkipState(old(View())).0
      ensures output == Chunks(SkipState(old(View())).1)
    {
      hide DrainState;
      if pending == map[] {
        return [];
      }
      var position := Least(pending.Keys);
      var gap := expected.Some? && position > expected.value;
      expected := Some(position);
      if gap {
        gaps := gaps + 1;
      }
      output := Drain();
      if gap && output != [] {
        output := output[0 := output[0].(discontinuity := true)];
      }
    }

    method Finish() returns (output: seq<Chunk>)
      modifies this
      ensures View() == FinishState(old(View())).0
      ensures output == Chunks(FinishState(old(View())).1)
    {
      hide FinishState, SkipState, Chunks, Finishing;
      ghost var was := View();
      ghost var done: seq<Emission> := [];
      output := [];
      FinishingNothing(was);
      while pending != map[]
        invariant Finishing(was, done, View()) && output == Chunks(done)
        decreases |pending|
      {
        ghost var before := View();
        SkipShrinks(before);
        FinishingStep(was, done, before);
        var more := SkipGap();
        done := done + SkipState(before).1;
        output := output + more;
      }
      FinishingAll(was, done, View());
    }
  }
}
