/** Cutting a TCP byte stream into `$`-interleaved frames (section 10.12 of RFC 2326) and RTSP
    messages, with resynchronisation on garbage (crates/capture/src/tcp.rs, `Decoder`). */
module TcpDecoder {
  import opened Wrappers
  import opened TcpReassembly

  const MAX_MESSAGE_BYTES: int := 256 * 1024
  const MAX_HEADER_BYTES: int := 64 * 1024
  const DOLLAR: byte := 0x24
  const LONGEST_METHOD: int := 14

  /** The declared body length, as a function of the header bytes. */
  type LengthOf = seq<byte> -> nat

  const METHODS: seq<string> := [
    "RTSP/", "OPTIONS ", "DESCRIBE ", "SETUP ", "PLAY ", "PAUSE ", "TEARDOWN ",
    "GET_PARAMETER ", "SET_PARAMETER ", "ANNOUNCE ", "RECORD "]

  predicate StartsWith(b: seq<byte>, prefix: string)
  {
    |prefix| <= |b| && forall i :: 0 <= i < |prefix| ==> b[i] == prefix[i] as int
  }

  predicate StartsRtsp(b: seq<byte>)
  {
    exists m :: 0 <= m < |METHODS| && StartsWith(b, METHODS[m])
  }

  /** A blank or a slash ends a method name and occurs nowhere else in it. */
  predicate Delimiter(c: int)
  {
    c == 0x20 || c == 0x2f
  }

  ghost predicate MethodShape(m: string)
  {
    && 0 < |m| <= LONGEST_METHOD
    && Delimiter(m[|m|-1] as int)
    && (forall i :: 0 <= i < |m| - 1 ==> !Delimiter(m[i] as int))
    && (forall i :: 0 <= i < |m| ==> m[i] as int != DOLLAR)
  }

  lemma MethodShapes()
    ensures forall m :: 0 <= m < |METHODS| ==> MethodShape(METHODS[m])
  {
    ShortMethodShapes();
    LongMethodShapes();
  }

  lemma ShortMethodShapes()
    ensures forall m :: 0 <= m < 7 ==> MethodShape(METHODS[m])
  {
    assert MethodShape("RTSP/") && MethodShape("OPTIONS ") && MethodShape("DESCRIBE ") && MethodShape("SETUP ");
    assert MethodShape("PLAY ") && MethodShape("PAUSE ") && MethodShape("TEARDOWN ");
  }

  lemma LongMethodShapes()
    ensures forall m :: 7 <= m < |METHODS| ==> MethodShape(METHODS[m])
  {
    assert MethodShape("GET_PARAMETER ") && MethodShape("SET_PARAMETER ");
    assert MethodShape("ANNOUNCE ") && MethodShape("RECORD ");
  }

  /** Fourteen bytes decide whether a method name starts here. */
  lemma StartsRtspStable(b: seq<byte>, x: seq<byte>)
    ensures StartsRtsp(b) ==> StartsRtsp(b + x)
    ensures |b| >= LONGEST_METHOD && StartsRtsp(b + x) ==> StartsRtsp(b)
  {
    MethodShapes();
    if StartsRtsp(b) {
      var m :| 0 <= m < |METHODS| && StartsWith(b, METHODS[m]);
      assert StartsWith(b + x, METHODS[m]);
    }
    if |b| >= LONGEST_METHOD && StartsRtsp(b + x) {
      var m :| 0 <= m < |METHODS| && StartsWith(b + x, METHODS[m]);
      forall i | 0 <= i < |METHODS[m]| ensures b[i] == METHODS[m][i] as int {
        assert (b + x)[i] == b[i];
      }
      assert StartsWith(b, METHODS[m]);
    }
  }

  predicate BlankLine(b: seq<byte>, i: int)
  {
    0 <= i && i + 4 <= |b| && b[i] == 13 && b[i+1] == 10 && b[i+2] == 13 && b[i+3] == 10
  }

  /** End of the header: just behind the first blank line. */
  function HeaderEnd(b: seq<byte>, from: nat): (end: Option<nat>)
    ensures end.None? ==> forall j :: j >= from ==> !BlankLine(b, j)
    ensures end.Some? ==> end.value >= from + 4 && BlankLine(b, end.value - 4)
                          && forall j :: from <= j < end.value - 4 ==> !BlankLine(b, j)
    decreases |b| - from
  {
    if from + 4 > |b| then None
    else if BlankLine(b, from) then Some(from + 4)
    else HeaderEnd(b, from + 1)
  }

  lemma {:induction false} HeaderEndStable(b: seq<byte>, x: seq<byte>)
    requires HeaderEnd(b, 0).Some?
    ensures HeaderEnd(b + x, 0) == HeaderEnd(b, 0)
  {
    var e := HeaderEnd(b, 0).value;
    assert forall j :: j + 4 <= |b| ==> BlankLine(b + x, j) == BlankLine(b, j);
    assert BlankLine(b + x, e - 4);
    var f := HeaderEnd(b + x, 0).value;
    assert BlankLine(b + x, f - 4);
  }

  predicate Candidate(b: seq<byte>, i: int)
  {
    0 <= i < |b| && (b[i] == DOLLAR || StartsRtsp(b[i..]))
  }

  function FirstCandidate(b: seq<byte>, from: nat): (c: Option<nat>)
    ensures c.None? ==> forall j :: j >= from ==> !Candidate(b, j)
    ensures c.Some? ==> c.value >= from && Candidate(b, c.value) && forall j :: from <= j < c.value ==> !Candidate(b, j)
    decreases |b| - from
  {
    if from >= |b| then None
    else if Candidate(b, from) then Some(from)
    else FirstCandidate(b, from + 1)
  }

  /** How much garbage to drop: up to the next candidate, else all but a short suffix. */
  function Resync(b: seq<byte>): (n: nat)
    requires |b| >= 16
    ensures 0 < n < |b|
  {
    var c := FirstCandidate(b, 1);
    if c.Some? then c.value else |b| - 15
  }

  /** The two version bits of an RTP or RTCP header. */
  function Version(b: int): int
  {
    b / 64
  }

  datatype Move = Wait | Drop(n: nat) | Take(n: nat) | Overflow

  /** The next move on a non-empty buffer. */
  function Next(lengthOf: LengthOf, b: seq<byte>): (m: Move)
    requires b != []
    ensures m.Drop? || m.Take? ==> 0 < m.n <= |b|
  {
    if b[0] == DOLLAR then
      if |b| < 4 then Wait
      else
        var length := Be16(b[2], b[3]);
        if length < 4 then Drop(1)
        else if |b| >= 5 && Version(b[4]) != 2 then Drop(1)
        else if |b| < length + 4 then Wait
        else Take(length + 4)
    else if StartsRtsp(b) then
      match HeaderEnd(b, 0)
      case None => if |b| > MAX_HEADER_BYTES then Overflow else Wait
      case Some(end) =>
        var length := lengthOf(b[..end]);
        if length > MAX_MESSAGE_BYTES - end then Overflow
        else if |b| < end + length then Wait
        else Take(end + length)
    else if |b| < 16 then Wait
    else Drop(Resync(b))
  }

  /** A framed message: its raw bytes and their position in the stream. */
  datatype Frame = Frame(at: int, raw: seq<byte>) {
    function End(): int { at + |raw| }
  }

  datatype Decoded = Decoded(frames: seq<Frame>, discarded: nat, rest: seq<byte>, overflow: bool)

  /** Everything that can be cut from a buffer whose first byte is at position `at`. */
  function Decode(lengthOf: LengthOf, b: seq<byte>, at: int): (r: Decoded)
    ensures |r.rest| <= |b|
    decreases |b|
  {
    if b == [] then Decoded([], 0, [], false)
    else
      match Next(lengthOf, b)
      case Wait => Decoded([], 0, b, false)
      case Overflow => Decoded([], |b|, [], true)
      case Drop(n) => Discarding(n, Decode(lengthOf, b[n..], at + n))
      case Take(n) => Framing(Frame(at, b[..n]), Decode(lengthOf, b[n..], at + n))
  }

  function Discarding(n: nat, r: Decoded): Decoded
  {
    r.(discarded := n + r.discarded)
  }

  function Framing(f: Frame, r: Decoded): Decoded
  {
    r.(frames := [f] + r.frames)
  }

  function Continue(first: Decoded, second: Decoded): Decoded
  {
    Decoded(first.frames + second.frames, first.discarded + second.discarded, second.rest, second.overflow)
  }

  /** One unfolding of `Decode`. */
  lemma DecodeOnce(lengthOf: LengthOf, b: seq<byte>, at: int)
    requires b != []
    ensures Next(lengthOf, b).Wait? ==> Decode(lengthOf, b, at) == Decoded([], 0, b, false)
    ensures Next(lengthOf, b).Overflow? ==> Decode(lengthOf, b, at) == Decoded([], |b|, [], true)
    ensures Next(lengthOf, b).Drop? ==>
      Decode(lengthOf, b, at) == Discarding(Next(lengthOf, b).n,
        Decode(lengthOf, b[Next(lengthOf, b).n..], at + Next(lengthOf, b).n))
    ensures Next(lengthOf, b).Take? ==>
      Decode(lengthOf, b, at) == Framing(Frame(at, b[..Next(lengthOf, b).n]),
                                         Decode(lengthOf, b[Next(lengthOf, b).n..], at + Next(lengthOf, b).n))
  {
  }

  // ---------------------------------------------------------------- chunking independence

  /** A move that consumes bytes by recognising them does not change when more bytes follow. */
  lemma NextStable(lengthOf: LengthOf, a: seq<byte>, x: seq<byte>)
    requires a != []
    ensures Next(lengthOf, a).Take? ==> Next(lengthOf, a + x) == Next(lengthOf, a)
    ensures Next(lengthOf, a).Drop? && a[0] == DOLLAR ==> Next(lengthOf, a + x) == Next(lengthOf, a)
  {
    hide Candidate, StartsRtsp;
    StartsRtspStable(a, x);
    if a[0] != DOLLAR && StartsRtsp(a) && HeaderEnd(a, 0).Some? {
      HeaderEndStable(a, x);
      var end := HeaderEnd(a, 0).value;
      assert (a + x)[..end] == a[..end];
    }
  }

  lemma CandidateStable(a: seq<byte>, x: seq<byte>, i: nat)
    requires i < |a|
    ensures Candidate(a, i) ==> Candidate(a + x, i)
    ensures i + LONGEST_METHOD <= |a| && Candidate(a + x, i) ==> Candidate(a, i)
  {
    StartsRtspStable(a[i..], x);
    assert (a + x)[i..] == a[i..] + x;
  }

  /** No byte that follows can create a candidate before the first one: a method name cut off at the
      end of the buffer cannot contain a dollar sign or a whole other method name. */
  lemma {:induction false} FirstCandidateStable(a: seq<byte>, x: seq<byte>)
    requires FirstCandidate(a, 1).Some?
    ensures FirstCandidate(a + x, 1) == FirstCandidate(a, 1)
  {
    var n := FirstCandidate(a, 1).value;
    CandidateStable(a, x, n);
    forall j: nat | 1 <= j < n ensures !Candidate(a + x, j) {
      if Candidate(a + x, j) {
        NoEarlierCandidate(a, x, j, n);
      }
    }
  }

  lemma NoEarlierCandidate(a: seq<byte>, x: seq<byte>, j: nat, n: nat)
    requires j < n < |a| && Candidate(a, n) && Candidate(a + x, j)
    ensures Candidate(a, j)
  {
    var b := (a + x)[j..];
    if a[j] != DOLLAR {
      MethodShapes();
      var m :| 0 <= m < |METHODS| && StartsWith(b, METHODS[m]);
      var t := n;
      if a[n] != DOLLAR {
        var k :| 0 <= k < |METHODS| && StartsWith(a[n..], METHODS[k]);
        t := n + |METHODS[k]| - 1;
        assert a[n..][t-n] == METHODS[k][t-n] as int;
      }
      assert b[t-j] == a[t];
      MarkEnds(b, METHODS[m], t - j);
      assert StartsWith(a[j..], METHODS[m]);
    }
  }

  lemma MarkEnds(b: seq<byte>, name: string, k: nat)
    requires MethodShape(name) && StartsWith(b, name) && k < |b|
    requires b[k] == DOLLAR || Delimiter(b[k])
    ensures |name| <= k + 1
  {
  }

  lemma NextResync(lengthOf: LengthOf, b: seq<byte>)
    requires |b| >= 16 && !Candidate(b, 0)
    ensures Next(lengthOf, b) == Drop(Resync(b))
  {
    assert b[0..] == b;
  }

  /** Garbage: dropping to a short suffix and going on from there equals dropping in one go. */
  lemma {:induction false} ResyncStable(a: seq<byte>, x: seq<byte>)
    requires |a| >= 16 && !Candidate(a, 0) && x != []
    ensures var n := Resync(a);
      if FirstCandidate(a, 1).Some? then Resync(a + x) == n
      else !Candidate(a[n..], 0) && !Candidate(a[n..] + x, 0) && Resync(a + x) == n + Resync(a[n..] + x)
    ensures !Candidate(a + x, 0)
  {
    hide Candidate;
    CandidateStable(a, x, 0);
    if FirstCandidate(a, 1).Some? {
      FirstCandidateStable(a, x);
    } else {
      var n := Resync(a);
      CandidateShift(a[..n], a[n..]);
      assert a == a[..n] + a[n..];
      SuffixResync(a, x, n);
      CandidateStable(a[n..], x, 0);
    }
  }

  lemma {:induction false} SuffixResync(a: seq<byte>, x: seq<byte>, n: nat)
    requires |a| >= 16 && x != [] && n == |a| - 15 && FirstCandidate(a, 1).None?
    ensures Resync(a + x) == n + Resync(a[n..] + x)
  {
    hide Candidate;
    var b := a[n..] + x;
    assert a + x == a[..n] + b;
    CandidateShift(a[..n], b);
    forall j: nat | 1 <= j <= n ensures !Candidate(a + x, j) {
      CandidateStable(a, x, j);
    }
    var c, d := FirstCandidate(a + x, 1), FirstCandidate(b, 1);
    assert c.Some? ==> Candidate(b, c.value - n);
    assert d.Some? ==> Candidate(a + x, n + d.value);
  }

  lemma CandidateShift(p: seq<byte>, b: seq<byte>)
    ensures forall i: nat :: Candidate(b, i) <==> Candidate(p + b, |p| + i)
  {
    forall i: nat ensures Candidate(b, i) <==> Candidate(p + b, |p| + i) {
      if i < |b| {
        assert b[i..] == (p + b)[|p|+i..];
      }
    }
  }

  /** Decoding `a` and then what is left with `x` appended is decoding `a + x`. */
  ghost predicate Extends(lengthOf: LengthOf, a: seq<byte>, x: seq<byte>, at: int)
  {
    var first := Decode(lengthOf, a, at);
    Decode(lengthOf, a + x, at) == Continue(first, Decode(lengthOf, first.rest + x, at + |a| - |first.rest|))
  }

  lemma ContinueAfterMove(f: Frame, n: nat, r: Decoded, second: Decoded)
    ensures Framing(f, Continue(r, second)) == Continue(Framing(f, r), second)
    ensures Discarding(n, Continue(r, second)) == Continue(Discarding(n, r), second)
  {
    assert [f] + (r.frames + second.frames) == [f] + r.frames + second.frames;
  }

  lemma CutAppend(a: seq<byte>, x: seq<byte>, n: nat)
    requires n <= |a|
    ensures (a + x)[..n] == a[..n] && (a + x)[n..] == a[n..] + x
  {
  }

  lemma MoveExtends(lengthOf: LengthOf, a: seq<byte>, x: seq<byte>, at: int, n: nat)
    requires 0 < n <= |a| && Next(lengthOf, a + x) == Next(lengthOf, a)
    requires Next(lengthOf, a) == Take(n) || Next(lengthOf, a) == Drop(n)
    requires Extends(lengthOf, a[n..], x, at + n)
    ensures Extends(lengthOf, a, x, at)
  {
    hide Next, Continue, Framing, Discarding;
    CutAppend(a, x, n);
    DecodeOnce(lengthOf, a, at);
    DecodeOnce(lengthOf, a + x, at);
    hide Decode;
    var later := Decode(lengthOf, a[n..], at + n);
    var second := Decode(lengthOf, later.rest + x, at + |a| - |later.rest|);
    ContinueAfterMove(Frame(at, a[..n]), n, later, second);
    RestKept(Frame(at, a[..n]), n, later);
  }

  lemma RestKept(f: Frame, n: nat, r: Decoded)
    ensures Framing(f, r).rest == r.rest && Discarding(n, r).rest == r.rest
  {
  }

  lemma {:induction false} GarbageExtends(lengthOf: LengthOf, a: seq<byte>, x: seq<byte>, at: int)
    requires |a| >= 16 && !Candidate(a, 0) && x != [] && FirstCandidate(a, 1).None?
    ensures Extends(lengthOf, a, x, at)
  {
    hide Next, Candidate;
    var n := Resync(a);
    NextResync(lengthOf, a);
    ResyncStable(a, x);
    NextResync(lengthOf, a + x);
    var rest := a[n..];
    ShortWaits(lengthOf, rest);
    assert Decode(lengthOf, a, at) == Decoded([], n, rest, false);
    NextResync(lengthOf, rest + x);
    var k := Resync(rest + x);
    assert (a + x)[n+k..] == (rest + x)[k..];
  }

  lemma {:induction false} DecodeExtends(lengthOf: LengthOf, a: seq<byte>, x: seq<byte>, at: int)
    requires !Decode(lengthOf, a, at).overflow
    ensures Extends(lengthOf, a, x, at)
    decreases |a|
  {
    hide Next, Candidate;
    if a == [] || x == [] {
      DecodeSettles(lengthOf, a, at);
      assert x == [] ==> a + x == a && Decode(lengthOf, a, at).rest + x == Decode(lengthOf, a, at).rest;
      assert a == [] ==> a + x == x;
    } else if !Next(lengthOf, a).Wait? {
      assert Next(lengthOf, a).Take? || Next(lengthOf, a).Drop?;
      var n := Next(lengthOf, a).n;
      if Next(lengthOf, a).Take? || a[0] == DOLLAR {
        NextStable(lengthOf, a, x);
      } else {
        DropIsGarbage(lengthOf, a);
        if FirstCandidate(a, 1).None? {
          GarbageExtends(lengthOf, a, x, at);
          return;
        }
        ResyncStable(a, x);
        NextResync(lengthOf, a + x);
      }
      DecodeExtends(lengthOf, a[n..], x, at + n);
      MoveExtends(lengthOf, a, x, at, n);
    }
  }

  lemma DropIsGarbage(lengthOf: LengthOf, a: seq<byte>)
    requires a != [] && Next(lengthOf, a).Drop? && a[0] != DOLLAR
    ensures |a| >= 16 && !Candidate(a, 0) && Next(lengthOf, a) == Drop(Resync(a))
  {
    assert a[0..] == a;
  }

  lemma ShortWaits(lengthOf: LengthOf, a: seq<byte>)
    requires a != [] && |a| < 16 && !Candidate(a, 0)
    ensures Next(lengthOf, a) == Wait
  {
    assert a[0..] == a;
  }

  /** Decoding again what is left over changes nothing. */
  lemma {:induction false} DecodeSettles(lengthOf: LengthOf, a: seq<byte>, at: int)
    requires !Decode(lengthOf, a, at).overflow
    ensures var rest := Decode(lengthOf, a, at).rest;
      forall p :: Decode(lengthOf, rest, p) == Decoded([], 0, rest, false)
    decreases |a|
  {
    hide Next;
    if a != [] {
      match Next(lengthOf, a)
      case Wait =>
      case Take(n) => DecodeSettles(lengthOf, a[n..], at + n);
      case Drop(n) => DecodeSettles(lengthOf, a[n..], at + n);
    }
  }

  // ---------------------------------------------------------------- what frames are

  function FramedBytes(frames: seq<Frame>): nat
  {
    if frames == [] then 0 else |frames[0].raw| + FramedBytes(frames[1..])
  }

  /** Non-empty frames in increasing, disjoint position within `[from, to)`. */
  ghost predicate Within(from: int, frames: seq<Frame>, to: int)
    decreases |frames|
  {
    if frames == [] then from <= to
    else from <= frames[0].at && |frames[0].raw| > 0 && Within(frames[0].End(), frames[1..], to)
  }

  lemma {:induction false} WithinFrom(from: int, later: int, frames: seq<Frame>, to: int)
    requires Within(later, frames, to) && from <= later
    ensures Within(from, frames, to)
  {
    if frames == [] {
    } else {
      assert from <= frames[0].at;
    }
  }

  lemma {:induction false} WithinConcat(from: int, a: seq<Frame>, mid: int, b: seq<Frame>, to: int)
    requires Within(from, a, mid) && Within(mid, b, to)
    ensures Within(from, a + b, to)
    decreases |a|
  {
    if a == [] {
      assert a + b == b;
    } else {
      WithinConcat(a[0].End(), a[1..], mid, b, to);
      assert (a + b)[1..] == a[1..] + b;
    }
  }

  /** `raw` is the slice of `b` at its position, `b` starting at position `at`. */
  predicate SliceAt(f: Frame, b: seq<byte>, at: int)
  {
    at <= f.at && f.End() <= at + |b| && f.raw == b[f.at - at..f.End() - at]
  }

  /** Every byte is framed, discarded or left over. */
  lemma {:induction false} DecodeConserves(lengthOf: LengthOf, b: seq<byte>, at: int)
    ensures var r := Decode(lengthOf, b, at);
      |b| == FramedBytes(r.frames) + r.discarded + |r.rest|
    decreases |b|
  {
    hide Next;
    if b != [] && (Next(lengthOf, b).Take? || Next(lengthOf, b).Drop?) {
      var n := Next(lengthOf, b).n;
      DecodeConserves(lengthOf, b[n..], at + n);
      var later := Decode(lengthOf, b[n..], at + n);
      assert ([Frame(at, b[..n])] + later.frames)[1..] == later.frames;
    }
  }

  /** Frames are disjoint, in order and end before what is left over. */
  ghost predicate InOrder(lengthOf: LengthOf, b: seq<byte>, at: int)
  {
    var r := Decode(lengthOf, b, at);
    Within(at, r.frames, at + |b| - |r.rest|)
  }

  lemma {:induction false} DecodeOrder(lengthOf: LengthOf, b: seq<byte>, at: int)
    ensures InOrder(lengthOf, b, at)
    decreases |b|
  {
    hide Next;
    if b != [] && (Next(lengthOf, b).Take? || Next(lengthOf, b).Drop?) {
      hide InOrder;
      var n := Next(lengthOf, b).n;
      DecodeOrder(lengthOf, b[n..], at + n);
      MoveOrder(lengthOf, b, at, n);
    }
  }

  lemma MoveOrder(lengthOf: LengthOf, b: seq<byte>, at: int, n: nat)
    requires 0 < n <= |b| && (Next(lengthOf, b) == Take(n) || Next(lengthOf, b) == Drop(n))
    requires InOrder(lengthOf, b[n..], at + n)
    ensures InOrder(lengthOf, b, at)
  {
    hide Next;
    DecodeOnce(lengthOf, b, at);
    hide Decode, Within;
    var later := Decode(lengthOf, b[n..], at + n);
    var to := at + |b| - |later.rest|;
    WithinCons(Frame(at, b[..n]), later.frames, to);
    WithinFrom(at, at + n, later.frames, to);
  }

  lemma WithinCons(f: Frame, frames: seq<Frame>, to: int)
    requires |f.raw| > 0 ==> Within(f.End(), frames, to)
    ensures |f.raw| > 0 ==> Within(f.at, [f] + frames, to)
  {
    assert ([f] + frames)[1..] == frames;
  }

  ghost predicate AllSlices(frames: seq<Frame>, b: seq<byte>, at: int)
  {
    forall i :: 0 <= i < |frames| ==> SliceAt(frames[i], b, at)
  }

  predicate AllProper(frames: seq<Frame>)
  {
    forall i :: 0 <= i < |frames| ==> Proper(frames[i].raw)
  }

  lemma SlicesShift(frames: seq<Frame>, b: seq<byte>, at: int, n: nat)
    requires n <= |b| && AllSlices(frames, b[n..], at + n)
    ensures AllSlices(frames, b, at)
    ensures AllSlices([Frame(at, b[..n])] + frames, b, at)
  {
    forall i | 0 <= i < |frames| ensures SliceAt(frames[i], b, at) {
      SliceShift(frames[i], b, at, n);
    }
  }

  /** Frames are slices of the input. */
  lemma {:induction false} DecodeSlices(lengthOf: LengthOf, b: seq<byte>, at: int)
    ensures AllSlices(Decode(lengthOf, b, at).frames, b, at)
    ensures AllProper(Decode(lengthOf, b, at).frames)
    decreases |b|
  {
    hide Next;
    if b != [] && (Next(lengthOf, b).Take? || Next(lengthOf, b).Drop?) {
      TakeProper(lengthOf, b);
      DecodeOnce(lengthOf, b, at);
      hide Decode, Proper, AllSlices;
      var n := Next(lengthOf, b).n;
      DecodeSlices(lengthOf, b[n..], at + n);
      SlicesShift(Decode(lengthOf, b[n..], at + n).frames, b, at, n);
    }
  }

  /** What is left over is the end of the input. */
  lemma {:induction false} DecodeRest(lengthOf: LengthOf, b: seq<byte>, at: int)
    ensures var rest := Decode(lengthOf, b, at).rest;
      rest == b[|b| - |rest|..]
    decreases |b|
  {
    hide Next;
    if b != [] && (Next(lengthOf, b).Take? || Next(lengthOf, b).Drop?) {
      hide Decode;
      DecodeOnce(lengthOf, b, at);
      var n := Next(lengthOf, b).n;
      var rest := Decode(lengthOf, b, at).rest;
      DecodeRest(lengthOf, b[n..], at + n);
      assert b[n..][|b| - n - |rest|..] == b[|b| - |rest|..];
    }
  }

  /** A non-empty message; an interleaved frame has its four header bytes. */
  predicate Proper(raw: seq<byte>)
  {
    raw != [] && (raw[0] == DOLLAR ==> |raw| >= 4)
  }

  lemma TakeProper(lengthOf: LengthOf, b: seq<byte>)
    requires b != []
    ensures Next(lengthOf, b).Take? ==> Proper(b[..Next(lengthOf, b).n])
  {
  }

  lemma SliceShift(f: Frame, b: seq<byte>, at: int, n: nat)
    requires n <= |b| && SliceAt(f, b[n..], at + n)
    ensures SliceAt(f, b, at)
  {
    assert b[n..][f.at - at - n..f.End() - at - n] == b[f.at - at..f.End() - at];
  }

  // ---------------------------------------------------------------- metadata spans

  datatype Span = Span(length: nat, meta: FrameMeta)

  function SpanBytes(spans: seq<Span>): nat
  {
    if spans == [] then 0 else spans[0].length + SpanBytes(spans[1..])
  }

  /** Removes `count` bytes from the front of the spans. */
  function DropSpans(spans: seq<Span>, count: nat): (rest: seq<Span>)
    decreases spans
  {
    if count == 0 || spans == [] then spans
    else if spans[0].length > count then [spans[0].(length := spans[0].length - count)] + spans[1..]
    else DropSpans(spans[1..], count - spans[0].length)
  }

  lemma {:induction false} DropSpansBytes(spans: seq<Span>, count: nat)
    requires count <= SpanBytes(spans)
    ensures SpanBytes(DropSpans(spans, count)) == SpanBytes(spans) - count
    decreases spans
  {
    if count != 0 {
      if spans[0].length > count {
        assert DropSpans(spans, count)[1..] == spans[1..];
      } else {
        DropSpansBytes(spans[1..], count - spans[0].length);
      }
    }
  }

  lemma {:induction false} DropSpansTwice(spans: seq<Span>, a: nat, b: nat)
    requires a + b <= SpanBytes(spans)
    ensures DropSpans(DropSpans(spans, a), b) == DropSpans(spans, a + b)
    decreases spans
  {
    if a != 0 && b != 0 {
      if spans[0].length > a {
        var cut := spans[0].(length := spans[0].length - a);
        assert DropSpans(spans, a)[1..] == spans[1..] && DropSpans(spans, a)[0] == cut;
      } else {
        DropSpansTwice(spans[1..], a - spans[0].length, b);
      }
    }
  }

  lemma {:induction false} DropSpansAppend(spans: seq<Span>, more: seq<Span>, count: nat)
    requires count <= SpanBytes(spans)
    ensures DropSpans(spans + more, count) == DropSpans(spans, count) + more
    decreases spans
  {
    if count != 0 {
      assert (spans + more)[1..] == spans[1..] + more;
      if spans[0].length > count {
        var cut := [spans[0].(length := spans[0].length - count)];
        assert cut + (spans[1..] + more) == cut + spans[1..] + more;
      } else {
        DropSpansAppend(spans[1..], more, count - spans[0].length);
      }
    }
  }

  lemma {:induction false} SpanBytesConcat(a: seq<Span>, b: seq<Span>)
    ensures SpanBytes(a + b) == SpanBytes(a) + SpanBytes(b)
    decreases a
  {
    if a == [] {
      assert a + b == b;
    } else {
      assert (a + b)[1..] == a[1..] + b;
      SpanBytesConcat(a[1..], b);
    }
  }

  // ---------------------------------------------------------------- decoder state

  datatype Message =
    | Interleaved(channel: byte, payload: seq<byte>, meta: FrameMeta)
    | Rtsp(text: seq<byte>, meta: FrameMeta)

  datatype Buffered = Buffered(buffer: seq<byte>, spans: seq<Span>, discardedBytes: nat)

  const IDLE: Buffered := Buffered([], [], 0)

  /** One span byte per buffered byte. */
  predicate Consistent(d: Buffered)
  {
    SpanBytes(d.spans) == |d.buffer|
  }

  function ToMessage(raw: seq<byte>, meta: FrameMeta): Message
    requires Proper(raw)
  {
    if raw[0] == DOLLAR then Interleaved(raw[1], raw[4..], meta) else Rtsp(raw, meta)
  }

  /** The metadata of the span that holds the byte `offset` bytes into the buffer. */
  function MetaAt(spans: seq<Span>, offset: nat): FrameMeta
    requires offset < SpanBytes(spans)
  {
    DropSpansBytes(spans, offset);
    DropSpans(spans, offset)[0].meta
  }

  /** Frames of the buffer that starts at position `at`, each with the metadata of its first byte. */
  function Messages(frames: seq<Frame>, spans: seq<Span>, at: int): (messages: seq<Message>)
    requires forall i :: 0 <= i < |frames| ==> Proper(frames[i].raw) && 0 <= frames[i].at - at < SpanBytes(spans)
    ensures |messages| == |frames|
    ensures forall i :: 0 <= i < |frames| ==> messages[i] == ToMessage(frames[i].raw, MetaAt(spans, frames[i].at - at))
  {
    seq(|frames|, i requires 0 <= i < |frames| => ToMessage(frames[i].raw, MetaAt(spans, frames[i].at - at)))
  }

  /** The buffer once a chunk has been taken in. */
  function Filled(d: Buffered, chunk: Chunk): Buffered
  {
    var kept := if chunk.discontinuity then Buffered([], [], d.discardedBytes + |d.buffer|) else d;
    Buffered(kept.buffer + chunk.data, kept.spans + [Span(|chunk.data|, chunk.meta)], kept.discardedBytes)
  }

  datatype Parsed = Parsed(state: Buffered, frames: seq<Frame>, messages: seq<Message>)

  /** Decoding a filled buffer whose first byte is at position `at`. */
  function Parse(lengthOf: LengthOf, d: Buffered, at: int): Parsed
    requires Consistent(d)
  {
    if |d.buffer| > MAX_MESSAGE_BYTES then Parsed(Buffered([], [], d.discardedBytes + |d.buffer|), [], [])
    else
      var r := Decode(lengthOf, d.buffer, at);
      DecodeSlices(lengthOf, d.buffer, at);
      Parsed(
        Buffered(r.rest, if r.overflow then [] else DropSpans(d.spans, |d.buffer| - |r.rest|),
          d.discardedBytes + r.discarded),
        r.frames, Messages(r.frames, d.spans, at))
  }

  /** A size limit made the decoder drop its buffer. */
  predicate Overfull(lengthOf: LengthOf, d: Buffered, at: int)
  {
    |d.buffer| > MAX_MESSAGE_BYTES || Decode(lengthOf, d.buffer, at).overflow
  }

  lemma FilledConsistent(d: Buffered, chunk: Chunk)
    requires Consistent(d)
    ensures Consistent(Filled(d, chunk))
  {
    var kept := if chunk.discontinuity then [] else d.spans;
    var span := Span(|chunk.data|, chunk.meta);
    assert [span][1..] == [];
    SpanBytesConcat(kept, [span]);
  }

  lemma ParseConsistent(lengthOf: LengthOf, d: Buffered, at: int)
    requires Consistent(d)
    ensures Consistent(Parse(lengthOf, d, at).state)
  {
    hide Decode;
    var r := Decode(lengthOf, d.buffer, at);
    DropSpansBytes(d.spans, |d.buffer| - |r.rest|);
    OverflowEmpty(lengthOf, d.buffer, at);
  }

  lemma {:induction false} OverflowEmpty(lengthOf: LengthOf, b: seq<byte>, at: int)
    ensures Decode(lengthOf, b, at).overflow ==> Decode(lengthOf, b, at).rest == []
    decreases |b|
  {
    hide Next;
    if b != [] {
      match Next(lengthOf, b)
      case Wait =>
      case Overflow =>
      case Drop(n) => OverflowEmpty(lengthOf, b[n..], at + n);
      case Take(n) => OverflowEmpty(lengthOf, b[n..], at + n);
    }
  }

  // ---------------------------------------------------------------- the stateful object

  /** The state after one move on a non-empty buffer. */
  function Moved(d: Buffered, m: Move): Buffered
    requires m.Drop? || m.Take? ==> m.n <= |d.buffer|
  {
    match m
    case Wait => d
    case Overflow => Buffered([], [], d.discardedBytes + |d.buffer|)
    case Drop(n) => Buffered(d.buffer[n..], DropSpans(d.spans, n), d.discardedBytes + n)
    case Take(n) => Buffered(d.buffer[n..], DropSpans(d.spans, n), d.discardedBytes)
  }

  lemma MovedConsistent(lengthOf: LengthOf, d: Buffered)
    requires Consistent(d) && d.buffer != []
    ensures Consistent(Moved(d, Next(lengthOf, d.buffer)))
  {
    hide Next;
    var m := Next(lengthOf, d.buffer);
    if m.Drop? || m.Take? {
      DropSpansBytes(d.spans, m.n);
    }
  }

  /** Where the decoding loop stands: `done` frames cut from `was`, `d` still to be decoded. */
  ghost predicate Progress(lengthOf: LengthOf, was: Buffered, at: int, done: seq<Frame>, d: Buffered)
  {
    var r := Decode(lengthOf, was.buffer, at);
    && |d.buffer| <= |was.buffer| && d.discardedBytes >= was.discardedBytes
    && var pos := |was.buffer| - |d.buffer|;
    && d.spans == DropSpans(was.spans, pos)
    && r == Continue(Decoded(done, d.discardedBytes - was.discardedBytes, [], false),
      Decode(lengthOf, d.buffer, at + pos))
  }

  lemma ProgressStart(lengthOf: LengthOf, d: Buffered, at: int)
    ensures Progress(lengthOf, d, at, [], d)
  {
    hide Decode;
    assert [] + Decode(lengthOf, d.buffer, at).frames == Decode(lengthOf, d.buffer, at).frames;
  }

  lemma ProgressStep(lengthOf: LengthOf, was: Buffered, at: int, done: seq<Frame>, d: Buffered, n: nat)
    requires Consistent(was) && Progress(lengthOf, was, at, done, d) && d.buffer != []
    requires 0 < n <= |d.buffer| && (Next(lengthOf, d.buffer) == Take(n) || Next(lengthOf, d.buffer) == Drop(n))
    ensures var pos := |was.buffer| - |d.buffer|;
      var more := if Next(lengthOf, d.buffer).Take? then [Frame(at + pos, d.buffer[..n])] else [];
      Progress(lengthOf, was, at, done + more, Moved(d, Next(lengthOf, d.buffer)))
  {
    hide Next, Decode, DropSpans, SpanBytes, Continue;
    var pos := |was.buffer| - |d.buffer|;
    DropSpansTwice(was.spans, pos, n);
    DecodeOnce(lengthOf, d.buffer, at + pos);
    var later := Decode(lengthOf, d.buffer[n..], at + pos + n);
    ContinueStep(done, d.discardedBytes - was.discardedBytes, n, Frame(at + pos, d.buffer[..n]), later);
  }

  lemma ContinueStep(done: seq<Frame>, discarded: nat, n: nat, f: Frame, later: Decoded)
    ensures Continue(Decoded(done, discarded, [], false), Discarding(n, later))
      == Continue(Decoded(done + [], discarded + n, [], false), later)
    ensures Continue(Decoded(done, discarded, [], false), Framing(f, later))
      == Continue(Decoded(done + [f], discarded, [], false), later)
  {
    assert done + [] == done;
    assert done + ([f] + later.frames) == done + [f] + later.frames;
  }

  /** When the loop stops, the state is the one `Parse` describes. */
  lemma ProgressEnd(lengthOf: LengthOf, was: Buffered, at: int, done: seq<Frame>, d: Buffered)
    requires Consistent(was) && |was.buffer| <= MAX_MESSAGE_BYTES && Progress(lengthOf, was, at, done, d)
    requires d.buffer == [] || Next(lengthOf, d.buffer).Wait? || Next(lengthOf, d.buffer).Overflow?
    ensures var end := if d.buffer == [] then d else Moved(d, Next(lengthOf, d.buffer));
      Parse(lengthOf, was, at).state == end && Parse(lengthOf, was, at).frames == done
  {
    hide Next;
    if d.buffer != [] {
      DecodeOnce(lengthOf, d.buffer, at + |was.buffer| - |d.buffer|);
    }
    assert done + [] == done;
  }

  class Decoder {
    const lengthOf: LengthOf
    var buffer: seq<byte>
    var spans: seq<Span>
    var discardedBytes: nat

    function View(): Buffered
      reads this
    {
      Buffered(buffer, spans, discardedBytes)
    }

    constructor (lengthOf: LengthOf)
      ensures View() == IDLE && this.lengthOf == lengthOf
    {
      this.lengthOf := lengthOf;
      buffer, spans, discardedBytes := [], [], 0;
    }

    method Clear()
      modifies this
      ensures View() == Buffered([], [], old(discardedBytes) + |old(buffer)|)
    {
      discardedBytes := discardedBytes + |buffer|;
      buffer, spans := [], [];
    }

    method Discard(count: nat)
      requires count <= |buffer|
      modifies this`buffer, this`spans
      ensures buffer == old(buffer)[count..] && spans == DropSpans(old(spans), count)
    {
      buffer := buffer[count..];
      var remaining := count;
      while remaining > 0
        invariant DropSpans(spans, remaining) == DropSpans(old(spans), count)
        invariant buffer == old(buffer)[count..]
        decreases spans
      {
        if spans == [] {
          break;
        }
        var length := spans[0].length;
        if length > remaining {
          spans := [spans[0].(length := length - remaining)] + spans[1..];
          remaining := 0;
          break;
        }
        remaining := remaining - length;
        spans := spans[1..];
      }
    }

    /** `at` is the stream position of the first byte buffered once the chunk is taken in. */
    method Push(chunk: Chunk, ghost at: int) returns (output: seq<Message>)
      requires Consistent(View())
      modifies this
      ensures Consistent(Filled(old(View()), chunk)) && Consistent(View())
      ensures View() == Parse(lengthOf, Filled(old(View()), chunk), at).state
      ensures output == Parse(lengthOf, Filled(old(View()), chunk), at).messages
    {
      hide Decode, DropSpans, SpanBytes;
      FilledConsistent(View(), chunk);
      ghost var filled := Filled(View(), chunk);
      if chunk.discontinuity {
        Clear();
      }
      spans := spans + [Span(|chunk.data|, chunk.meta)];
      buffer := buffer + chunk.data;
      assert View() == filled;
      ParseConsistent(lengthOf, filled, at);
      if |buffer| > MAX_MESSAGE_BYTES {
        Clear();
        return [];
      }
      output := Cut(at);
    }

    /** The decoding loop. */
    method Cut(ghost at: int) returns (output: seq<Message>)
      requires Consistent(View()) && |buffer| <= MAX_MESSAGE_BYTES
      modifies this
      ensures View() == Parse(lengthOf, old(View()), at).state
      ensures output == Parse(lengthOf, old(View()), at).messages
    {
      hide Next, Decode, DropSpans, SpanBytes, MetaAt, Progress, Moved, Proper;
      ghost var was := View();
      ghost var done: seq<Frame> := [];
      output := [];
      ProgressStart(lengthOf, was, at);
      while buffer != []
        invariant Consistent(View()) && Progress(lengthOf, was, at, done, View()) && |buffer| <= |was.buffer|
        invariant Labels(was.spans, at, done, output)
        decreases |buffer|
      {
        ghost var before := View();
        ghost var move := Next(lengthOf, buffer);
        MovedConsistent(lengthOf, before);
        var more, message := Advance();
        if !more {
          ProgressEnd(lengthOf, was, at, done, before);
          LabelsMessages(was.spans, at, done, output);
          return;
        }
        ProgressStep(lengthOf, was, at, done, before, move.n);
        if message.Some? {
          LabelsStep(lengthOf, was, at, done, before, output, message.value, move.n);
          done := done + [Frame(at + |was.buffer| - |before.buffer|, before.buffer[..move.n])];
          output := output + [message.value];
        } else {
          assert done + [] == done;
        }
        MovedShorter(before, move);
      }
      ProgressEnd(lengthOf, was, at, done, View());
      LabelsMessages(was.spans, at, done, output);
    }

    /** One pass of the decoding loop; `more` says whether the loop goes on. */
    method Advance() returns (more: bool, message: Option<Message>)
      requires buffer != [] && Consistent(View())
      modifies this
      ensures View() == Moved(old(View()), Next(lengthOf, old(buffer)))
      ensures more == (Next(lengthOf, old(buffer)).Drop? || Next(lengthOf, old(buffer)).Take?)
      ensures message.Some? == Next(lengthOf, old(buffer)).Take?
      ensures message.Some? ==> old(spans) != [] && Proper(old(buffer)[..Next(lengthOf, old(buffer)).n])
      ensures message.Some? ==>
        message.value == ToMessage(old(buffer)[..Next(lengthOf, old(buffer)).n], old(spans)[0].meta)
    {
      hide StartsRtsp, DropSpans, HeaderEnd;
      message := None;
      if buffer[0] == DOLLAR {
        if |buffer| < 4 {
          return false, None;
        }
        var length := Be16(buffer[2], buffer[3]);
        if length < 4 {
          Discard(1);
          discardedBytes := discardedBytes + 1;
          return true, None;
        }
        if |buffer| >= 5 && Version(buffer[4]) != 2 {
          Discard(1);
          discardedBytes := discardedBytes + 1;
          return true, None;
        }
        if |buffer| < length + 4 {
          return false, None;
        }
        message := Some(Interleaved(buffer[1], buffer[4..length + 4], spans[0].meta));
        assert buffer[..length + 4][4..] == buffer[4..length + 4];
        Discard(length + 4);
        return true, message;
      } else if StartsRtsp(buffer) {
        var end := HeaderEnd(buffer, 0);
        if end.None? {
          if |buffer| > MAX_HEADER_BYTES {
            Clear();
          }
          return false, None;
        }
        var length := lengthOf(buffer[..end.value]);
        if length > MAX_MESSAGE_BYTES - end.value {
          Clear();
          return false, None;
        }
        if |buffer| < end.value + length {
          return false, None;
        }
        message := Some(Rtsp(buffer[..end.value + length], spans[0].meta));
        Discard(end.value + length);
        return true, message;
      } else {
        if |buffer| < 16 {
          return false, None;
        }
        var next := FirstCandidate(buffer, 1);
        var count := if next.Some? then next.value else |buffer| - 15;
        discardedBytes := discardedBytes + count;
        Discard(count);
        return true, None;
      }
    }
  }

  lemma MovedShorter(d: Buffered, m: Move)
    requires (m.Drop? || m.Take?) && 0 < m.n <= |d.buffer|
    ensures |Moved(d, m).buffer| < |d.buffer|
  {
  }

  /** The messages handed over so far, each with the metadata at its frame's position. */
  ghost predicate Labels(spans: seq<Span>, at: int, done: seq<Frame>, output: seq<Message>)
  {
    |output| == |done| &&
    forall i :: 0 <= i < |done| ==>
      Proper(done[i].raw) && 0 <= done[i].at - at < SpanBytes(spans)
      && output[i] == ToMessage(done[i].raw, MetaAt(spans, done[i].at - at))
  }

  lemma {:induction false} LabelsMessages(spans: seq<Span>, at: int, done: seq<Frame>, output: seq<Message>)
    requires Labels(spans, at, done, output)
    ensures forall i :: 0 <= i < |done| ==> Proper(done[i].raw) && 0 <= done[i].at - at < SpanBytes(spans)
    ensures output == Messages(done, spans, at)
  {
    hide MetaAt, SpanBytes, Proper;
  }

  lemma LabelsStep(lengthOf: LengthOf, was: Buffered, at: int, done: seq<Frame>, d: Buffered,
                   output: seq<Message>, message: Message, n: nat)
    requires Consistent(was) && Labels(was.spans, at, done, output)
    requires Progress(lengthOf, was, at, done, d) && 0 < n <= |d.buffer|
    requires d.spans != [] && Proper(d.buffer[..n]) && message == ToMessage(d.buffer[..n], d.spans[0].meta)
    ensures Labels(was.spans, at, done + [Frame(at + |was.buffer| - |d.buffer|, d.buffer[..n])], output + [message])
  {
    hide Decode, DropSpans, SpanBytes, Proper;
  }
}
