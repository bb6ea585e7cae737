/** Annex B byte streams cut into NAL units three ways: the streaming iterator of
    crates/analyzer/src/lib.rs, the whole-buffer splitter of crates/h264/src/analyze.rs and the ranged
    reader of crates/analyzer/src/video_syntax.rs. */
module AnnexB {
  import opened Wrappers

  type Bytes = seq<byte>

  function Zeros(n: nat): (z: Bytes)
    ensures |z| == n && forall i :: 0 <= i < n ==> z[i] == 0
  {
    seq(n, i => 0)
  }

  // ---------------------------------------------------------------- the streaming scan

  /** State of the streaming iterator: the open unit without its trailing zeros, the zeros seen since,
      and the units completed so far. */
  datatype Scan = Scan(current: Bytes, zeros: nat, started: bool, units: seq<Bytes>)

  const START: Scan := Scan([], 0, false, [])

  predicate EndsCode(s: Scan, b: byte)
  {
    b == 1 && s.zeros >= 2
  }

  function ScanByte(s: Scan, b: byte): Scan
  {
    if b == 0 then s.(zeros := s.zeros + 1)
    else if EndsCode(s, b) then
      if s.started && s.current != [] then Scan([], 0, s.started, s.units + [s.current])
      else s.(zeros := 0, started := true)
    else if s.started then s.(current := s.current + Zeros(s.zeros) + [b], zeros := 0)
    else s.(zeros := 0)
  }

  function ScanAll(s: Scan, bytes: Bytes): Scan
    decreases |bytes|
  {
    if bytes == [] then s else ScanAll(ScanByte(s, bytes[0]), bytes[1..])
  }

  /** The open unit at the end of the input, its trailing zeros included. */
  function Tail(s: Scan): Bytes
  {
    if s.started then s.current + Zeros(s.zeros) else s.current
  }

  function Flush(s: Scan): seq<Bytes>
  {
    if Tail(s) == [] then s.units else s.units + [Tail(s)]
  }

  /** The units of a byte stream, as the streaming iterator sees them. */
  function Units(bytes: Bytes): seq<Bytes>
  {
    Flush(ScanAll(START, bytes))
  }

  lemma {:induction false} ScanConcat(s: Scan, a: Bytes, b: Bytes)
    ensures ScanAll(s, a + b) == ScanAll(ScanAll(s, a), b)
    decreases |a|
  {
    if a == [] {
      assert a + b == b;
    } else {
      assert (a + b)[1..] == a[1..] + b;
      ScanConcat(ScanByte(s, a[0]), a[1..], b);
    }
  }

  /** Completed units are only ever appended. */
  lemma {:induction false} ScanAppends(s: Scan, bytes: Bytes, units: seq<Bytes>)
    ensures ScanAll(s.(units := units + s.units), bytes)
         == ScanAll(s, bytes).(units := units + ScanAll(s, bytes).units)
    decreases |bytes|
  {
    if bytes != [] {
      var next := ScanByte(s, bytes[0]);
      assert units + (s.units + [s.current]) == units + s.units + [s.current];
      assert ScanByte(s.(units := units + s.units), bytes[0]) == next.(units := units + next.units);
      ScanAppends(next, bytes[1..], units);
    }
  }

  /** The list still to come from an iterator in this state with this input left. */
  function Coming(s: Scan, bytes: Bytes): seq<Bytes>
  {
    Flush(ScanAll(s.(units := []), bytes))
  }

  lemma {:induction false} FlushAppends(s: Scan, bytes: Bytes)
    ensures Flush(ScanAll(s, bytes)) == s.units + Coming(s, bytes)
  {
    var bare := s.(units := []);
    ScanAppends(bare, bytes, s.units);
    assert s.units + [] == s.units;
    assert bare.(units := s.units + bare.units) == s;
    var end := ScanAll(bare, bytes);
    assert s.units + (end.units + [Tail(end)]) == s.units + end.units + [Tail(end)];
  }

  // ---------------------------------------------------------------- the iterator object

  /** `fill_buf` returns the first non-empty chunk, or nothing at the end of the input. */
  class AnnexBNalus {
    var chunks: seq<Bytes>
    var current: Bytes
    var pendingZeros: nat
    var started: bool
    var finished: bool

    function View(): Scan
      reads this
    {
      Scan(current, pendingZeros, started, [])
    }

    ghost predicate Valid()
      reads this
    {
      forall c :: c in chunks ==> c != []
    }

    /** What the iterator is still going to yield. */
    function Rest(): seq<Bytes>
      reads this
    {
      if finished then [] else Coming(View(), Flatten(chunks))
    }

    constructor (chunks: seq<Bytes>)
      requires forall c :: c in chunks ==> c != []
      ensures Valid() && Rest() == Units(Flatten(chunks)) && !finished
    {
      this.chunks := chunks;
      current, pendingZeros, started, finished := [], 0, false, false;
    }

    /** Yields the first unit still to come; none if there is none. */
    method Next() returns (item: Option<Bytes>)
      requires Valid()
      modifies this
      ensures Valid()
      ensures old(Rest()) == if item.Some? then [item.value] + Rest() else []
      ensures item.None? ==> finished
      ensures item.Some? ==> item.value != []
    {
      if finished {
        return None;
      }
      ghost var was := Rest();
      while true
        invariant Valid() && !finished && Coming(View(), Flatten(chunks)) == was
        decreases |chunks|
      {
        if chunks == [] {
          finished := true;
          if started {
            current := current + Zeros(pendingZeros);
          }
          pendingZeros := 0;
          if current == [] {
            return None;
          }
          item := Some(current);
          current := [];
          return;
        }
        var completed := ReadChunk();
        if completed.Some? {
          return completed;
        }
      }
    }

    /** The inner loop: consumes the first chunk, or its beginning up to the end of a unit. */
    method ReadChunk() returns (completed: Option<Bytes>)
      requires Valid() && chunks != [] && !finished
      modifies this
      ensures Valid() && !finished
      ensures old(Coming(View(), Flatten(chunks)))
           == (if completed.Some? then [completed.value] else []) + Coming(View(), Flatten(chunks))
      ensures completed.None? ==> |chunks| < |old(chunks)|
      ensures completed.Some? ==> completed.value != []
    {
      hide ScanAll, Flush, Zeros;
      ghost var all := Flatten(chunks);
      var buffer, later := chunks[0], chunks[1..];
      completed := None;
      var consumed := 0;
      assert all[0..] == all && buffer[0..] + Flatten(later) == all;
      while consumed < |buffer| && completed.None?
        invariant 0 <= consumed <= |buffer|
        invariant buffer[consumed..] + Flatten(later) == all[consumed..]
        invariant completed.None? ==> Coming(View(), all[consumed..]) == old(Coming(View(), Flatten(chunks)))
        invariant completed.Some? ==> completed.value != []
        invariant completed.Some? ==>
          [completed.value] + Coming(View(), all[consumed..]) == old(Coming(View(), Flatten(chunks)))
        invariant chunks == old(chunks) && !finished
      {
        var b := buffer[consumed];
        ghost var before := View();
        ComingOnce(before, all[consumed..]);
        assert all[consumed..][0] == b && all[consumed..][1..] == all[consumed + 1..];
        assert buffer[consumed..][1..] == buffer[consumed + 1..];
        consumed := consumed + 1;
        assert [] + Coming(ScanByte(before, b), all[consumed..]) == Coming(ScanByte(before, b), all[consumed..]);
        if b == 0 {
          pendingZeros := pendingZeros + 1;
        } else if b == 1 && pendingZeros >= 2 {
          pendingZeros := 0;
          if started && current != [] {
            completed := Some(current);
            current := [];
          } else {
            started := true;
          }
        } else {
          if started {
            current := current + Zeros(pendingZeros) + [b];
          }
          pendingZeros := 0;
        }
      }
      assert [] + Coming(View(), all[consumed..]) == Coming(View(), all[consumed..]);
      assert forall c :: c in later ==> c in chunks;
      if consumed == |buffer| {
        chunks := later;
        assert buffer[consumed..] + Flatten(later) == Flatten(later);
      } else {
        chunks := [buffer[consumed..]] + later;
        assert chunks[1..] == later;
      }
    }
  }

  /** One byte of the list still to come. */
  lemma ComingOnce(s: Scan, bytes: Bytes)
    requires bytes != [] && s.units == []
    ensures Coming(s, bytes) ==
      (if EndsCode(s, bytes[0]) && s.started && s.current != [] then [s.current] else [])
      + Coming(ScanByte(s, bytes[0]), bytes[1..])
  {
    var next := ScanByte(s, bytes[0]);
    assert s.(units := []) == s;
    FlushAppends(next, bytes[1..]);
    assert Coming(s, bytes) == Flush(ScanAll(next, bytes[1..]));
  }

  /** Collecting the iterator over any partition of the input into read buffers gives the same list. */
  method Collect(chunks: seq<Bytes>) returns (units: seq<Bytes>)
    requires forall c :: c in chunks ==> c != []
    ensures units == Units(Flatten(chunks))
  {
    hide ScanAll, Flush, Flatten, Coming;
    var nalus := new AnnexBNalus(chunks);
    units := [];
    assert [] + nalus.Rest() == nalus.Rest();
    while true
      invariant nalus.Valid() && fresh(nalus)
      invariant units + nalus.Rest() == Units(Flatten(chunks))
      decreases |nalus.Rest()|
    {
      ghost var rest := nalus.Rest();
      var item := nalus.Next();
      if item.None? {
        return;
      }
      assert units + ([item.value] + nalus.Rest()) == units + [item.value] + nalus.Rest();
      units := units + [item.value];
    }
  }

  // ---------------------------------------------------------------- the whole-buffer splitter

  /** Length of the start code at a position: 3, 4 or 0 for none. The short one is tried first. */
  function StartCode(b: Bytes, i: nat): (n: nat)
    ensures n == 0 || (n == 3 && i + 3 <= |b|) || (n == 4 && i + 4 <= |b|)
  {
    if i + 3 <= |b| && b[i] == 0 && b[i+1] == 0 && b[i+2] == 1 then 3
    else if i + 4 <= |b| && b[i] == 0 && b[i+1] == 0 && b[i+2] == 0 && b[i+3] == 1 then 4
    else 0
  }

  datatype Code = Code(at: nat, length: nat) {
    function End(): nat { at + length }
  }

  /** The start codes found by scanning from `i`. */
  function CodesFrom(b: Bytes, i: nat): seq<Code>
    decreases |b| - i
  {
    if i + 3 > |b| then []
    else
      var n := StartCode(b, i);
      if n == 0 then CodesFrom(b, i + 1) else [Code(i, n)] + CodesFrom(b, i + n)
  }

  function Piece(b: Bytes, from: nat, to: nat): seq<Bytes>
    requires to <= |b|
  {
    if from < to then [b[from..to]] else []
  }

  predicate InBuffer(b: Bytes, codes: seq<Code>)
  {
    forall k :: 0 <= k < |codes| ==> codes[k].End() <= |b|
  }

  lemma {:induction false} CodesInBuffer(b: Bytes, i: nat)
    ensures InBuffer(b, CodesFrom(b, i))
    decreases |b| - i
  {
    if i + 3 <= |b| {
      CodesInBuffer(b, i + if StartCode(b, i) == 0 then 1 else StartCode(b, i));
    }
  }

  /** The non-empty pieces between start codes, the first of them opened at `open`. */
  function Pieces(b: Bytes, open: Option<nat>, codes: seq<Code>): seq<Bytes>
    requires InBuffer(b, codes)
    decreases |codes|
  {
    if codes == [] then if open.Some? then Piece(b, open.value, |b|) else []
    else
      (if open.Some? then Piece(b, open.value, codes[0].at) else [])
      + Pieces(b, Some(codes[0].End()), codes[1..])
  }

  function Split(b: Bytes, open: Option<nat>, i: nat): seq<Bytes>
  {
    CodesInBuffer(b, i);
    Pieces(b, open, CodesFrom(b, i))
  }

  /** `split_annex_b`. */
  method SplitAnnexB(input: Bytes) returns (units: seq<Bytes>)
    ensures units == Split(input, None, 0)
  {
    hide CodesFrom, Pieces, PiecesAt, InBuffer, StartCode;
    var codes := FindCodes(input);
    CodesInBuffer(input, 0);
    units := [];
    var position := 0;
    PiecesFrom(input, codes);
    PiecesDone(input, codes);
    while position < |codes|
      invariant 0 <= position <= |codes|
      invariant units + PiecesAt(input, codes, position) == Pieces(input, None, codes)
    {
      PiecesNext(input, codes, position);
      var dataStart := codes[position].End();
      var dataEnd := if position + 1 < |codes| then codes[position + 1].at else |input|;
      ghost var before := units;
      if dataStart < dataEnd {
        units := units + [input[dataStart..dataEnd]];
      }
      assert units == before + Piece(input, dataStart, dataEnd);
      position := position + 1;
    }
  }

  /** The pieces opened by the start codes from `position` on. */
  function PiecesAt(b: Bytes, codes: seq<Code>, position: nat): seq<Bytes>
    requires position <= |codes| && InBuffer(b, codes)
  {
    if position == |codes| then [] else Pieces(b, Some(codes[position].End()), codes[position + 1..])
  }

  lemma {:induction false} PiecesFrom(b: Bytes, codes: seq<Code>)
    requires InBuffer(b, codes)
    ensures Pieces(b, None, codes) == PiecesAt(b, codes, 0)
  {
    if codes != [] {
      assert Pieces(b, None, codes) == [] + Pieces(b, Some(codes[0].End()), codes[1..]);
    }
  }

  lemma PiecesDone(b: Bytes, codes: seq<Code>)
    requires InBuffer(b, codes)
    ensures PiecesAt(b, codes, |codes|) == []
  {
  }

  lemma PiecesNext(b: Bytes, codes: seq<Code>, position: nat)
    requires position < |codes| && InBuffer(b, codes)
    ensures var end := if position + 1 < |codes| then codes[position + 1].at else |b|;
      && end <= |b|
      && PiecesAt(b, codes, position) == Piece(b, codes[position].End(), end) + PiecesAt(b, codes, position + 1)
  {
    var rest := codes[position + 1..];
    if rest != [] {
      assert rest[1..] == codes[position + 2..];
      assert codes[position + 1].End() <= |b|;
    }
  }

  lemma CodesStep(b: Bytes, i: nat)
    requires i + 3 <= |b|
    ensures var n := StartCode(b, i);
      CodesFrom(b, i) == if n == 0 then CodesFrom(b, i + 1) else [Code(i, n)] + CodesFrom(b, i + n)
  {
    hide StartCode;
  }

  lemma {:induction false} CodesEnd(b: Bytes, i: nat)
    requires i + 3 > |b|
    ensures CodesFrom(b, i) == []
  {
  }

  method FindCodes(input: Bytes) returns (codes: seq<Code>)
    ensures codes == CodesFrom(input, 0)
  {
    hide CodesFrom, StartCode;
    codes := [];
    var index := 0;
    while index + 3 <= |input|
      invariant codes + CodesFrom(input, index) == CodesFrom(input, 0)
      decreases |input| - index
    {
      var length := StartCode(input, index);
      CodesStep(input, index);
      if length == 0 {
        index := index + 1;
      } else {
        assert codes + ([Code(index, length)] + CodesFrom(input, index + length))
          == codes + [Code(index, length)] + CodesFrom(input, index + length);
        codes := codes + [Code(index, length)];
        index := index + length;
      }
    }
    CodesEnd(input, index);
  }

  // ---------------------------------------------------------------- streaming refines splitting

  function TotalLength(units: seq<Bytes>): nat
  {
    if units == [] then 0 else |units[0]| + TotalLength(units[1..])
  }

  lemma {:induction false} TotalLengthConcat(a: seq<Bytes>, b: seq<Bytes>)
    ensures TotalLength(a + b) == TotalLength(a) + TotalLength(b)
  {
    if a == [] {
      assert a + b == b;
    } else {
      assert (a + b)[1..] == a[1..] + b;
      TotalLengthConcat(a[1..], b);
    }
  }

  /** Zero bytes that the splitter leaves at the end of a unit and the iterator drops: those in front
      of the four bytes of a long start code. `zeros` of them are pending at `i`. */
  function Excess(b: Bytes, i: nat, zeros: nat, open: bool): nat
    decreases |b| - i
  {
    if i + 3 > |b| then 0
    else
      var n := StartCode(b, i);
      if n > 0 then (if open then zeros else 0) + Excess(b, i + n, 0, true)
      else Excess(b, i + 1, if b[i] == 0 then zeros + 1 else 0, open)
  }

  /** What the splitter knows at index `i`: `zeros` zero bytes precede it, and no start code was missed. */
  ghost predicate Scanned(b: Bytes, i: nat, zeros: nat)
  {
    && zeros <= i <= |b|
    && (forall k :: i - zeros <= k < i ==> b[k] == 0)
    && (zeros >= 2 && i < |b| ==> b[i] != 1)
    && (zeros >= 1 && i + 1 < |b| && b[i] == 0 ==> b[i + 1] != 1)
    && (zeros >= 1 && i + 2 < |b| && b[i] == 0 && b[i + 1] == 0 ==> b[i + 2] != 1)
  }

  /** The iterator's state matches the splitter's open unit. */
  ghost predicate Matches(b: Bytes, i: nat, open: Option<nat>, s: Scan)
  {
    && Scanned(b, i, s.zeros) && s.units == []
    && (s.started <==> open.Some?) && (open.None? ==> s.current == [])
    && (open.Some? ==> open.value <= i - s.zeros && b[open.value..i] == s.current + Zeros(s.zeros))
  }

  /** Stepping over a byte that ends no start code. */
  lemma StepMatches(b: Bytes, i: nat, open: Option<nat>, s: Scan)
    requires Matches(b, i, open, s) && i + 3 <= |b| && StartCode(b, i) == 0
    ensures Matches(b, i + 1, open, ScanByte(s, b[i])) && !EndsCode(s, b[i])
    ensures ScanByte(s, b[i]).zeros == if b[i] == 0 then s.zeros + 1 else 0
  {
    var next := ScanByte(s, b[i]);
    if open.Some? {
      assert b[open.value..i + 1] == b[open.value..i] + [b[i]];
      assert Zeros(s.zeros + 1) == Zeros(s.zeros) + [0];
      assert b[open.value..i + 1] == next.current + Zeros(next.zeros);
    }
  }

  /** Reading a start code closes the open unit. */
  lemma {:induction false} CodeMatches(b: Bytes, i: nat, open: Option<nat>, s: Scan)
    requires Matches(b, i, open, s) && StartCode(b, i) > 0
    ensures var n := StartCode(b, i);
      && ScanAll(s, b[i..i + n]) == Scan([], 0, true, if s.current == [] then [] else [s.current])
      && (n == 3 ==> s.zeros == 0)
      && Scanned(b, i + n, 0) && b[i + n..i + n] == [] + Zeros(0)
  {
    var n := StartCode(b, i);
    var code := b[i..i + n];
    var s1 := ScanByte(s, 0);
    var s2 := ScanByte(s1, 0);
    assert code[0] == 0 && code[1] == 0;
    assert ScanAll(s, code) == ScanAll(s1, code[1..]) == ScanAll(s2, code[1..][1..]);
    assert code[1..][1..] == code[2..];
    if n == 3 {
      assert code[2..] == [1];
      assert ScanAll(s2, [1]) == ScanAll(ScanByte(s2, 1), [1][1..]);
    } else {
      var s3 := ScanByte(s2, 0);
      assert code[2..] == [0, 1] && [0, 1][1..] == [1];
      assert ScanAll(s2, [0, 1]) == ScanAll(s3, [1]);
      assert ScanAll(s3, [1]) == ScanAll(ScanByte(s3, 1), [1][1..]);
    }
  }

  /** At the end of the buffer no start code fits any more. */
  lemma {:induction false} EndMatches(b: Bytes, i: nat, open: Option<nat>, s: Scan)
    requires Matches(b, i, open, s) && i + 3 > |b|
    ensures Flush(ScanAll(s, b[i..])) == if open.Some? then Piece(b, open.value, |b|) else []
    decreases |b| - i
  {
    if i == |b| {
      EndFlushes(b, open, s);
    } else {
      hide Matches, Flush, ScanByte, Piece;
      EndStep(b, i, open, s);
      assert b[i..][1..] == b[i + 1..];
      EndMatches(b, i + 1, open, ScanByte(s, b[i]));
    }
  }

  lemma {:induction false} EndFlushes(b: Bytes, open: Option<nat>, s: Scan)
    requires Matches(b, |b|, open, s)
    ensures Flush(ScanAll(s, b[|b|..])) == if open.Some? then Piece(b, open.value, |b|) else []
  {
    assert b[|b|..] == [];
  }

  lemma EndStep(b: Bytes, i: nat, open: Option<nat>, s: Scan)
    requires Matches(b, i, open, s) && i < |b| < i + 3
    ensures Matches(b, i + 1, open, ScanByte(s, b[i]))
  {
    var next := ScanByte(s, b[i]);
    if open.Some? {
      assert b[open.value..i + 1] == b[open.value..i] + [b[i]];
      assert Zeros(s.zeros + 1) == Zeros(s.zeros) + [0];
      assert b[open.value..i + 1] == next.current + Zeros(next.zeros);
    }
  }

  /** Difference between a unit of the splitter and that of the iterator at a start code. */
  lemma PieceMatches(b: Bytes, i: nat, open: Option<nat>, s: Scan)
    requires Matches(b, i, open, s)
    ensures var piece, unit := Opened(b, open, i), Unit(s);
      && (s.zeros == 0 || open.None? ==> piece == unit)
      && TotalLength(piece) == TotalLength(unit) + if open.Some? then s.zeros else 0
  {
    assert Zeros(0) == [] && s.current + [] == s.current;
    if open.Some? {
      assert |b[open.value..i]| == |s.current| + s.zeros;
      assert [b[open.value..i]][1..] == [] && [s.current][1..] == [];
    }
  }

  function Opened(b: Bytes, open: Option<nat>, to: nat): seq<Bytes>
    requires to <= |b|
  {
    if open.Some? then Piece(b, open.value, to) else []
  }

  function Unit(s: Scan): seq<Bytes>
  {
    if s.current == [] then [] else [s.current]
  }

  lemma SplitCons(b: Bytes, i: nat, open: Option<nat>)
    requires StartCode(b, i) > 0
    ensures var next := i + StartCode(b, i); Split(b, open, i) == Opened(b, open, i) + Split(b, Some(next), next)
  {
    CodesInBuffer(b, i);
    CodesInBuffer(b, i + StartCode(b, i));
    assert CodesFrom(b, i)[1..] == CodesFrom(b, i + StartCode(b, i));
  }

  lemma {:induction false} ScanCons(b: Bytes, i: nat, open: Option<nat>, s: Scan)
    requires Matches(b, i, open, s) && StartCode(b, i) > 0
    ensures Flush(ScanAll(s, b[i..])) == Unit(s) + Flush(ScanAll(Scan([], 0, true, []), b[i + StartCode(b, i)..]))
  {
    hide Matches, ScanByte, StartCode, Flush, ScanAll, Scanned;
    CodeMatches(b, i, open, s);
    var next := i + StartCode(b, i);
    assert b[i..] == b[i..next] + b[next..];
    ScanConcat(s, b[i..next], b[next..]);
    FlushAppends(Scan([], 0, true, Unit(s)), b[next..]);
  }

  /** From here on the two lists differ by the excess zero bytes, and not at all if there are none. */
  ghost predicate Refines(b: Bytes, i: nat, open: Option<nat>, s: Scan)
    requires i <= |b|
  {
    var excess := Excess(b, i, s.zeros, open.Some?);
    && (excess == 0 ==> Split(b, open, i) == Flush(ScanAll(s, b[i..])))
    && TotalLength(Split(b, open, i)) == TotalLength(Flush(ScanAll(s, b[i..]))) + excess
  }

  lemma RefinesAtCode(b: Bytes, i: nat, open: Option<nat>, s: Scan)
    requires Matches(b, i, open, s) && StartCode(b, i) > 0
    requires var next := i + StartCode(b, i); Refines(b, next, Some(next), Scan([], 0, true, []))
    ensures Refines(b, i, open, s)
  {
    hide Split, ScanAll, Flush, StartCode;
    var next := i + StartCode(b, i);
    SplitCons(b, i, open);
    ScanCons(b, i, open, s);
    PieceMatches(b, i, open, s);
    hide Matches, Piece;
    TotalLengthConcat(Opened(b, open, i), Split(b, Some(next), next));
    TotalLengthConcat(Unit(s), Flush(ScanAll(Scan([], 0, true, []), b[next..])));
  }

  lemma RefinesStep(b: Bytes, i: nat, open: Option<nat>, s: Scan)
    requires Matches(b, i, open, s) && i + 3 <= |b| && StartCode(b, i) == 0
    requires Refines(b, i + 1, open, ScanByte(s, b[i]))
    ensures Refines(b, i, open, s)
  {
    StepMatches(b, i, open, s);
    hide Flush, TotalLength, Matches, Scanned;
    assert b[i..][1..] == b[i + 1..];
  }

  lemma RefinesEnd(b: Bytes, i: nat, open: Option<nat>, s: Scan)
    requires Matches(b, i, open, s) && i + 3 > |b|
    ensures Refines(b, i, open, s)
  {
    EndMatches(b, i, open, s);
  }

  lemma {:induction false} SplitRefinesScan(b: Bytes, i: nat, open: Option<nat>, s: Scan)
    requires Matches(b, i, open, s)
    ensures Refines(b, i, open, s)
    decreases |b| - i
  {
    hide Refines;
    if i + 3 > |b| {
      RefinesEnd(b, i, open, s);
    } else if StartCode(b, i) == 0 {
      StepMatches(b, i, open, s);
      SplitRefinesScan(b, i + 1, open, ScanByte(s, b[i]));
      RefinesStep(b, i, open, s);
    } else {
      var next := i + StartCode(b, i);
      CodeMatches(b, i, open, s);
      SplitRefinesScan(b, next, Some(next), Scan([], 0, true, []));
      RefinesAtCode(b, i, open, s);
    }
  }

  /** A start code that is not the first and is preceded by at least four zero bytes (one byte more
      than the longest start code takes up). */
  ghost predicate HasLongCode(b: Bytes)
  {
    exists j, t :: Opens(b, j) && j + 3 <= t && LongCode(b, t)
  }

  predicate Opens(b: Bytes, j: int)
  {
    0 <= j && j + 3 <= |b| && b[j] == 0 && b[j + 1] == 0 && b[j + 2] == 1
  }

  predicate LongCode(b: Bytes, t: int)
  {
    0 <= t && t + 5 <= |b| && b[t] == 0 && b[t + 1] == 0 && b[t + 2] == 0 && b[t + 3] == 0 && b[t + 4] == 1
  }

  /** An excess comes from a long code behind a start code. */
  lemma {:induction false} ExcessIsLongCode(b: Bytes, i: nat, open: Option<nat>, zeros: nat)
    requires Scanned(b, i, zeros)
    requires open.Some? ==> 3 <= open.value <= i - zeros && Opens(b, open.value - 3)
    requires Excess(b, i, zeros, open.Some?) > 0
    ensures HasLongCode(b)
    decreases |b| - i
  {
    var n := StartCode(b, i);
    if n == 0 {
      ExcessIsLongCode(b, i + 1, open, if b[i] == 0 then zeros + 1 else 0);
    } else if open.Some? && zeros > 0 {
      assert Opens(b, open.value - 3) && LongCode(b, i - 1);
    } else {
      assert Opens(b, i + n - 3);
      ExcessIsLongCode(b, i + n, Some(i + n), 0);
    }
  }

  /** A long code still ahead, behind an opened unit or behind a start code still ahead, is an excess. */
  lemma {:induction false} LongCodeIsExcess(b: Bytes, i: nat, open: bool, zeros: nat, j: int, t: int)
    requires Scanned(b, i, zeros) && LongCode(b, t) && t >= i - zeros
    requires open || (Opens(b, j) && j >= i - zeros && j + 3 <= t)
    ensures Excess(b, i, zeros, open) > 0
    decreases |b| - i
  {
    var n := StartCode(b, i);
    if i + 3 <= |b| {
      if n == 0 {
        LongCodeIsExcess(b, i + 1, open, if b[i] == 0 then zeros + 1 else 0, j, t);
      } else if !(open && zeros > 0) {
        LongCodeIsExcess(b, i + n, true, 0, j, t);
      }
    }
  }

  /** The streaming iterator yields the splitter's list exactly when no start code but the first is
      preceded by four or more zero bytes. */
  lemma StreamingIsSplitting(b: Bytes)
    ensures Units(b) == Split(b, None, 0) <==> !HasLongCode(b)
  {
    hide ScanAll, Flush, Split;
    assert Matches(b, 0, None, START);
    assert b[0..] == b;
    SplitRefinesScan(b, 0, None, START);
    if HasLongCode(b) {
      var j, t :| Opens(b, j) && j + 3 <= t && LongCode(b, t);
      LongCodeIsExcess(b, 0, false, 0, j, t);
    } else if Excess(b, 0, 0, false) > 0 {
      ExcessIsLongCode(b, 0, None, 0);
    }
  }

  /** An input on which the two differ: four zero bytes in front of the second start code. */
  lemma LongCodeDiffers()
    ensures var b: Bytes := [0, 0, 1, 9, 0, 0, 0, 0, 1]; HasLongCode(b) && Units(b) != Split(b, None, 0)
  {
    hide Units, Split;
    var b: Bytes := [0, 0, 1, 9, 0, 0, 0, 0, 1];
    assert Opens(b, 0) && LongCode(b, 4);
    StreamingIsSplitting(b);
  }

  // ---------------------------------------------------------------- the ranged reader

  /** A unit with its number and the offset of its first byte; number 0 is what precedes the first
      start code. */
  datatype Ranged = Ranged(index: nat, offset: nat, data: Bytes)

  /** State of the ranged reader's scan at an absolute position. */
  datatype Cursor = Cursor(current: Bytes, zeros: nat, index: nat, offset: nat)

  function CursorByte(c: Cursor, b: byte, position: nat): Cursor
  {
    if b == 0 then c.(zeros := c.zeros + 1)
    else if b == 1 && c.zeros >= 2 then Cursor([], 0, c.index + 1, position + 1)
    else c.(current := c.current + Zeros(c.zeros) + [b], zeros := 0)
  }

  /** All units from a cursor on, empty ones included; a start code ends one, the end of input the last. */
  function RangedFrom(c: Cursor, bytes: Bytes, position: nat): seq<Ranged>
    decreases |bytes|
  {
    if bytes == [] then [Ranged(c.index, c.offset, c.current + Zeros(c.zeros))]
    else
      var next := CursorByte(c, bytes[0], position);
      (if next.index > c.index then [Ranged(c.index, c.offset, c.current)] else [])
        + RangedFrom(next, bytes[1..], position + 1)
  }

  function AllRanged(input: Bytes): seq<Ranged>
  {
    RangedFrom(Cursor([], 0, 0, 0), input, 0)
  }

  predicate Wanted(u: Ranged, first: nat, last: nat)
  {
    first <= u.index <= last && u.data != []
  }

  /** The non-empty units with numbers `first` to `last`. */
  function Select(units: seq<Ranged>, first: nat, last: nat): seq<Ranged>
  {
    if units == [] then []
    else (if Wanted(units[0], first, last) then [units[0]] else []) + Select(units[1..], first, last)
  }

  function Retained(units: seq<Ranged>): nat
  {
    if units == [] then 0 else |units[0].data| + Retained(units[1..])
  }

  lemma {:induction false} RetainedConcat(a: seq<Ranged>, b: seq<Ranged>)
    ensures Retained(a + b) == Retained(a) + Retained(b)
  {
    if a == [] {
      assert a + b == b;
    } else {
      assert (a + b)[1..] == a[1..] + b;
      RetainedConcat(a[1..], b);
    }
  }

  lemma {:induction false} SelectCons(u: Ranged, units: seq<Ranged>, first: nat, last: nat)
    ensures Select([u] + units, first, last)
      == (if Wanted(u, first, last) then [u] else []) + Select(units, first, last)
    ensures [] + units == units
  {
    assert ([u] + units)[1..] == units;
  }

  /** Every unit lies in the input at its offset, and numbers count up. */
  ghost predicate Located(input: Bytes, units: seq<Ranged>, index: nat)
  {
    forall k :: 0 <= k < |units| ==>
      units[k].index == index + k && units[k].offset + |units[k].data| <= |input|
      && units[k].data == input[units[k].offset..units[k].offset + |units[k].data|]
  }

  /** The cursor's open unit is the input from its offset to its position. */
  ghost predicate Follows(input: Bytes, c: Cursor, position: nat)
  {
    && position <= |input| && c.offset + |c.current| + c.zeros == position
    && input[c.offset..position] == c.current + Zeros(c.zeros)
  }

  lemma FollowsByte(input: Bytes, c: Cursor, position: nat)
    requires Follows(input, c, position) && position < |input|
    ensures Follows(input, CursorByte(c, input[position], position), position + 1)
    ensures c.current == input[c.offset..c.offset + |c.current|]
  {
    var b := input[position];
    var next := CursorByte(c, b, position);
    assert Zeros(c.zeros + 1) == Zeros(c.zeros) + [0];
    assert c.current == input[c.offset..position][..|c.current|];
    if next.index == c.index {
      assert input[c.offset..position + 1] == input[c.offset..position] + [b];
    } else {
      assert input[position + 1..position + 1] == [] + Zeros(0);
    }
  }

  lemma {:induction false} RangedLocated(input: Bytes, c: Cursor, position: nat)
    requires Follows(input, c, position)
    ensures Located(input, RangedFrom(c, input[position..], position), c.index)
    decreases |input| - position
  {
    if position < |input| {
      var next := CursorByte(c, input[position], position);
      FollowsByte(input, c, position);
      hide Follows, CursorByte;
      assert input[position..][1..] == input[position + 1..];
      RangedLocated(input, next, position + 1);
      LocatedCons(input, c, next, RangedFrom(next, input[position + 1..], position + 1));
    } else {
      assert input[c.offset..position] == c.current + Zeros(c.zeros);
    }
  }

  lemma LocatedCons(input: Bytes, c: Cursor, next: Cursor, rest: seq<Ranged>)
    requires c.offset + |c.current| <= |input| && c.current == input[c.offset..c.offset + |c.current|]
    requires Located(input, rest, next.index) && c.index <= next.index <= c.index + 1
    ensures Located(input, (if next.index > c.index then [Ranged(c.index, c.offset, c.current)] else []) + rest,
      c.index)
  {
    if next.index > c.index {
      var u := Ranged(c.index, c.offset, c.current);
      assert forall k :: 0 < k < |[u] + rest| ==> ([u] + rest)[k] == rest[k - 1];
    } else {
      assert [] + rest == rest;
    }
  }

  // ---------------------------------------------------------------- the ranged reader and the iterator

  /** The non-empty units from number 1 on, without their numbers. */
  function DataOf(units: seq<Ranged>): seq<Bytes>
  {
    if units == [] then []
    else (if units[0].index >= 1 && units[0].data != [] then [units[0].data] else []) + DataOf(units[1..])
  }

  /** Cursor and iterator read the same unit; before the first start code the iterator keeps nothing. */
  predicate Same(c: Cursor, s: Scan)
  {
    c.zeros == s.zeros && s.units == [] && (s.started <==> c.index >= 1)
    && s.current == if s.started then c.current else []
  }

  lemma {:induction false} DataCons(u: Ranged, rest: seq<Ranged>)
    ensures DataOf([u] + rest) == (if u.index >= 1 && u.data != [] then [u.data] else []) + DataOf(rest)
    ensures [] + rest == rest && [] + DataOf(rest) == DataOf(rest) && DataOf([]) == []
  {
    assert ([u] + rest)[1..] == rest;
  }

  lemma SameByte(c: Cursor, s: Scan, b: byte, position: nat)
    requires Same(c, s)
    ensures var next, after := CursorByte(c, b, position), ScanByte(s, b);
      && Same(next, after.(units := []))
      && c.index <= next.index <= c.index + 1
      && after.units == if next.index > c.index && c.index >= 1 && c.current != [] then [c.current] else []
  {
  }

  lemma {:induction false} RangedIsStreaming(c: Cursor, s: Scan, bytes: Bytes, position: nat)
    requires Same(c, s)
    ensures DataOf(RangedFrom(c, bytes, position)) == Flush(ScanAll(s, bytes))
    decreases |bytes|
  {
    if bytes == [] {
      DataCons(Ranged(c.index, c.offset, c.current + Zeros(c.zeros)), []);
      assert [Ranged(c.index, c.offset, c.current + Zeros(c.zeros))] + []
        == [Ranged(c.index, c.offset, c.current + Zeros(c.zeros))];
    } else {
      hide Flush, DataOf;
      var next, after := CursorByte(c, bytes[0], position), ScanByte(s, bytes[0]);
      SameByte(c, s, bytes[0], position);
      FlushAppends(after, bytes[1..]);
      RangedIsStreaming(next, after.(units := []), bytes[1..], position + 1);
      hide Same, CursorByte, ScanByte;
      DataCons(Ranged(c.index, c.offset, c.current), RangedFrom(next, bytes[1..], position + 1));
    }
  }

  /** Behind the first start code no unit is empty. */
  ghost predicate NoneEmpty(units: seq<Ranged>)
  {
    forall k :: 0 < k < |units| ==> units[k].data != []
  }

  /** Unit `k` of the ranged reader is the `k`-th unit of the streaming list, for all of them, exactly
      when no unit behind a start code is empty. */
  lemma RangedNumbering(input: Bytes)
    ensures var units, list := AllRanged(input), Units(input);
      |units| == |list| + 1 && (forall k :: 0 < k < |units| ==> units[k].data == list[k - 1])
      <==> NoneEmpty(units)
  {
    hide ScanAll, Flush, RangedFrom;
    AllLocated(input);
    RangedIsStreaming(Cursor([], 0, 0, 0), START, input, 0);
    var units := AllRanged(input);
    RangedSome(Cursor([], 0, 0, 0), input, 0);
    if NoneEmpty(units) {
      NumberedData(units, 0);
    } else {
      var k :| 0 < k < |units| && units[k].data == [];
      FewerData(units, 0, k);
    }
  }

  /** An input on which the numbers differ: two start codes with nothing between them. */
  lemma EmptyUnitShifts()
    ensures var b: Bytes := [0, 0, 1, 0, 0, 1, 9];
      AllRanged(b) == [Ranged(0, 0, []), Ranged(1, 3, []), Ranged(2, 6, [9])] && Units(b) == [[9]]
  {
    hide RangedFrom, ScanAll, Flush, DataOf;
    var b: Bytes := [0, 0, 1, 0, 0, 1, 9];
    RangedCode(Cursor([], 0, 0, 0), b, 0);
    assert b[3..] == [0, 0, 1, 9] && b[3..][3..] == [9];
    RangedCode(Cursor([], 0, 1, 3), b[3..], 3);
    RangedFinal(Cursor([], 0, 2, 6), 9, 6);
    assert AllRanged(b) == [Ranged(0, 0, [])] + ([Ranged(1, 3, [])] + [Ranged(2, 6, [9])]);
    RangedIsStreaming(Cursor([], 0, 0, 0), START, b, 0);
    EmptyUnitData();
  }

  lemma EmptyUnitData()
    ensures DataOf([Ranged(0, 0, []), Ranged(1, 3, []), Ranged(2, 6, [9])]) == [[9]]
  {
    assert DataOf([Ranged(2, 6, [9])]) == [[9]];
    assert [Ranged(1, 3, []), Ranged(2, 6, [9])][1..] == [Ranged(2, 6, [9])];
    assert [Ranged(0, 0, []), Ranged(1, 3, []), Ranged(2, 6, [9])][1..] == [Ranged(1, 3, []), Ranged(2, 6, [9])];
  }

  lemma RangedCode(c: Cursor, bytes: Bytes, position: nat)
    requires |bytes| >= 3 && bytes[0] == 0 && bytes[1] == 0 && bytes[2] == 1
    ensures RangedFrom(c, bytes, position) == [Ranged(c.index, c.offset, c.current)]
      + RangedFrom(Cursor([], 0, c.index + 1, position + 3), bytes[3..], position + 3)
  {
    var b1, b2 := bytes[1..], bytes[2..];
    assert b1[1..] == b2 && b2[1..] == bytes[3..];
    var c1 := CursorByte(c, 0, position);
    var c2 := CursorByte(c1, 0, position + 1);
    assert RangedFrom(c, bytes, position) == [] + RangedFrom(c1, b1, position + 1);
    assert RangedFrom(c1, b1, position + 1) == [] + RangedFrom(c2, b2, position + 2);
  }

  lemma {:induction false} RangedFinal(c: Cursor, b: byte, position: nat)
    requires c.zeros == 0 && c.current == [] && b > 1
    ensures RangedFrom(c, [b], position) == [Ranged(c.index, c.offset, [b])]
  {
    var bytes: Bytes := [b];
    assert bytes[1..] == [];
    var next := CursorByte(c, b, position);
    assert next.current == [b] && next.zeros == 0;
    assert RangedFrom(next, [], position + 1) == [Ranged(next.index, next.offset, next.current + Zeros(0))];
    assert RangedFrom(c, bytes, position) == [] + RangedFrom(next, [], position + 1);
    assert [b] + Zeros(0) == [b];
  }

  lemma {:induction false} FewerData(units: seq<Ranged>, index: nat, k: nat)
    requires forall i :: 0 <= i < |units| ==> units[i].index == index + i
    requires k < |units| && units[k].data == [] && (index == 0 ==> k > 0)
    ensures |DataOf(units)| + (if index == 0 then 1 else 0) < |units|
    decreases |units|
  {
    DataAtMost(units[1..]);
    if k > 0 {
      FewerData(units[1..], index + 1, k - 1);
    }
  }

  lemma {:induction false} DataAtMost(units: seq<Ranged>)
    ensures |DataOf(units)| <= |units|
  {
    if units != [] {
      DataAtMost(units[1..]);
    }
  }

  lemma {:induction false} RangedSome(c: Cursor, bytes: Bytes, position: nat)
    ensures |RangedFrom(c, bytes, position)| > 0
    decreases |bytes|
  {
    if bytes != [] {
      RangedSome(CursorByte(c, bytes[0], position), bytes[1..], position + 1);
    }
  }

  lemma {:induction false} NumberedData(units: seq<Ranged>, index: nat)
    requires forall k :: 0 <= k < |units| ==> units[k].index == index + k && (index + k >= 1 ==> units[k].data != [])
    ensures index >= 1 ==>
      |DataOf(units)| == |units| && forall k :: 0 <= k < |units| ==> DataOf(units)[k] == units[k].data
    ensures index == 0 && units != [] ==>
      |DataOf(units)| == |units| - 1 && forall k :: 0 < k < |units| ==> DataOf(units)[k - 1] == units[k].data
    decreases |units|
  {
    if units != [] {
      NumberedData(units[1..], index + 1);
    }
  }

  // ---------------------------------------------------------------- the reading loop

  datatype RangeError = TooLarge

  predicate InRange(index: nat, first: nat, last: nat)
  {
    first <= index <= last
  }

  /** What the reader holds after `position` bytes: `done` are the units already closed and `c` is the
      scan's cursor; only units in the range are kept. */
  ghost predicate Reading(input: Bytes, position: nat, first: nat, last: nat, limit: nat, done: seq<Ranged>, c: Cursor,
                          selected: seq<Ranged>, current: Bytes, retained: nat)
  {
    && position <= |input|
    && AllRanged(input) == done + RangedFrom(c, input[position..], position)
    && selected == Select(done, first, last)
    && current == (if InRange(c.index, first, last) then c.current else [])
    && retained == Retained(selected) + |current| && retained <= limit
  }

  lemma {:induction false} SelectConcat(a: seq<Ranged>, b: seq<Ranged>, first: nat, last: nat)
    ensures Select(a + b, first, last) == Select(a, first, last) + Select(b, first, last)
  {
    hide Select, Wanted;
    if a == [] {
      SelectNone(first, last);
      assert a + b == b && [] + Select(b, first, last) == Select(b, first, last);
    } else {
      var rest, kept := a[1..], if Wanted(a[0], first, last) then [a[0]] else [];
      assert a == [a[0]] + rest && a + b == [a[0]] + (rest + b);
      SelectCons(a[0], rest, first, last);
      SelectCons(a[0], rest + b, first, last);
      SelectConcat(rest, b, first, last);
      assert kept + (Select(rest, first, last) + Select(b, first, last))
        == kept + Select(rest, first, last) + Select(b, first, last);
    }
  }

  lemma SelectNone(first: nat, last: nat)
    ensures Select([], first, last) == []
  {
  }

  /** Units closed later have later numbers. */
  lemma {:induction false} SelectLater(c: Cursor, bytes: Bytes, position: nat, first: nat, last: nat)
    requires c.index > last
    ensures Select(RangedFrom(c, bytes, position), first, last) == []
    decreases |bytes|
  {
    if bytes == [] {
      SelectCons(Ranged(c.index, c.offset, c.current + Zeros(c.zeros)), [], first, last);
      assert [Ranged(c.index, c.offset, c.current + Zeros(c.zeros))] + []
        == [Ranged(c.index, c.offset, c.current + Zeros(c.zeros))];
    } else {
      var next := CursorByte(c, bytes[0], position);
      SelectLater(next, bytes[1..], position + 1, first, last);
      hide Select;
      SelectCons(Ranged(c.index, c.offset, c.current), RangedFrom(next, bytes[1..], position + 1), first, last);
    }
  }

  /** The open unit only grows until it is closed, so what is retained of it counts at the end. */
  lemma {:induction false} RetainedGrows(c: Cursor, bytes: Bytes, position: nat, first: nat, last: nat)
    requires InRange(c.index, first, last)
    ensures Retained(Select(RangedFrom(c, bytes, position), first, last)) >= |c.current|
    decreases |bytes|
  {
    if bytes == [] {
      var u := Ranged(c.index, c.offset, c.current + Zeros(c.zeros));
      SelectCons(u, [], first, last);
      assert [u] + [] == [u] && [u][1..] == [];
    } else {
      var next := CursorByte(c, bytes[0], position);
      var u, rest := Ranged(c.index, c.offset, c.current), RangedFrom(next, bytes[1..], position + 1);
      SelectCons(u, rest, first, last);
      if next.index == c.index {
        RetainedGrows(next, bytes[1..], position + 1, first, last);
      } else {
        hide Select;
        RetainedConcat([u], Select(rest, first, last));
        assert [u][1..] == [];
      }
    }
  }

  /** The result the reader owes for this input. */
  function RangeResult(input: Bytes, first: nat, last: nat, limit: nat): Result<seq<Ranged>, RangeError>
  {
    var wanted := Select(AllRanged(input), first, last);
    if Retained(wanted) > limit then Err(TooLarge) else Ok(wanted)
  }

  lemma RangedOnce(c: Cursor, bytes: Bytes, position: nat)
    requires bytes != []
    ensures var next := CursorByte(c, bytes[0], position);
      RangedFrom(c, bytes, position)
      == (if next.index > c.index then [Ranged(c.index, c.offset, c.current)] else [])
        + RangedFrom(next, bytes[1..], position + 1)
  {
  }

  /** A start code closes the open unit. */
  lemma ReadCode(input: Bytes, position: nat, first: nat, last: nat, limit: nat, done: seq<Ranged>, c: Cursor,
                 selected: seq<Ranged>, current: Bytes, retained: nat)
    requires Reading(input, position, first, last, limit, done, c, selected, current, retained)
    requires position < |input| && input[position] == 1 && c.zeros >= 2
    ensures var u := Ranged(c.index, c.offset, c.current);
      var kept := if InRange(c.index, first, last) && current != [] then [u] else [];
      && Reading(input, position + 1, first, last, limit, done + [u], Cursor([], 0, c.index + 1, position + 1),
        selected + kept, [], retained)
      && (c.index >= last ==> RangeResult(input, first, last, limit) == Ok(selected + kept))
  {
    hide RangedFrom, AllRanged, Select;
    var u := Ranged(c.index, c.offset, c.current);
    var next := Cursor([], 0, c.index + 1, position + 1);
    var rest := RangedFrom(next, input[position + 1..], position + 1);
    assert input[position..][0] == 1 && input[position..][1..] == input[position + 1..];
    RangedOnce(c, input[position..], position);
    assert done + ([u] + rest) == done + [u] + rest;
    SelectConcat(done, [u], first, last);
    SelectOne(u, first, last);
    var kept := if Wanted(u, first, last) then [u] else [];
    RetainedConcat(selected, kept);
    assert Retained([u]) == |u.data| by { assert [u][1..] == []; }
    if c.index >= last {
      SelectLater(next, input[position + 1..], position + 1, first, last);
      SelectConcat(done + [u], rest, first, last);
      assert selected + kept + [] == selected + kept;
    }
  }

  lemma SelectOne(u: Ranged, first: nat, last: nat)
    ensures Select([u], first, last) == if Wanted(u, first, last) then [u] else []
  {
    assert [u][1..] == [];
  }

  /** Any other byte extends the open unit or its trailing zeros. */
  lemma ReadPlain(input: Bytes, position: nat, first: nat, last: nat, limit: nat, done: seq<Ranged>, c: Cursor,
                  selected: seq<Ranged>, current: Bytes, retained: nat)
    requires Reading(input, position, first, last, limit, done, c, selected, current, retained)
    requires position < |input| && !(input[position] == 1 && c.zeros >= 2)
    ensures var next := CursorByte(c, input[position], position);
      var now := if InRange(c.index, first, last) then next.current else [];
      var kept := retained - |current| + |now|;
      if kept > limit then RangeResult(input, first, last, limit).Err?
      else Reading(input, position + 1, first, last, limit, done, next, selected, now, kept)
  {
    hide RangedFrom, AllRanged, Select;
    var next := CursorByte(c, input[position], position);
    var rest := RangedFrom(next, input[position + 1..], position + 1);
    assert input[position..][0] == input[position] && input[position..][1..] == input[position + 1..];
    RangedOnce(c, input[position..], position);
    assert [] + rest == rest;
    if InRange(c.index, first, last) {
      RetainedGrows(next, input[position + 1..], position + 1, first, last);
      SelectConcat(done, rest, first, last);
      RetainedConcat(selected, Select(rest, first, last));
    }
  }

  /** The end of the input closes the last unit, trailing zeros included. */
  lemma ReadEnd(input: Bytes, first: nat, last: nat, limit: nat, done: seq<Ranged>, c: Cursor,
                selected: seq<Ranged>, current: Bytes, retained: nat)
    requires Reading(input, |input|, first, last, limit, done, c, selected, current, retained)
    ensures var u := Ranged(c.index, c.offset, current + Zeros(c.zeros));
      RangeResult(input, first, last, limit) ==
        if !InRange(c.index, first, last) then Ok(selected)
        else if retained + c.zeros > limit then Err(TooLarge)
        else Ok(selected + if u.data != [] then [u] else [])
  {
    hide AllRanged, Select;
    assert input[|input|..] == [];
    var u := Ranged(c.index, c.offset, c.current + Zeros(c.zeros));
    SelectConcat(done, [u], first, last);
    SelectOne(u, first, last);
    RetainedConcat(selected, Select([u], first, last));
    assert Retained([u]) == |u.data| by { assert [u][1..] == []; }
    assert selected + [] == selected;
  }

  /** The reader's local variables. */
  datatype Reader = Reader(selected: seq<Ranged>, current: Bytes, zeros: nat, index: nat, offset: nat, retained: nat)

  /** What the variables hold after `position` bytes, for some units already closed. */
  ghost predicate Holds(input: Bytes, position: nat, first: nat, last: nat, limit: nat, rd: Reader)
  {
    exists done, c :: HoldsFor(input, position, first, last, limit, rd, done, c)
  }

  ghost predicate HoldsFor(input: Bytes, position: nat, first: nat, last: nat, limit: nat, rd: Reader,
                           done: seq<Ranged>, c: Cursor)
  {
    && Reading(input, position, first, last, limit, done, c, rd.selected, rd.current, rd.retained)
    && c.zeros == rd.zeros && c.index == rd.index && c.offset == rd.offset
  }

  /** One byte; `stop` is the result if the reader is through or over the limit. */
  method ReadByte(rd: Reader, b: byte, position: nat, first: nat, last: nat, limit: nat, ghost input: Bytes)
    returns (next: Reader, stop: Option<Result<seq<Ranged>, RangeError>>)
    requires Holds(input, position, first, last, limit, rd) && position < |input| && b == input[position]
    ensures stop.Some? ==> stop.value == RangeResult(input, first, last, limit)
    ensures stop.None? ==> Holds(input, position + 1, first, last, limit, next)
  {
    ghost var done, c :| HoldsFor(input, position, first, last, limit, rd, done, c);
    hide Reading, RangeResult, Zeros;
    next, stop := rd, None;
    ReadingInside(input, position, first, last, limit, done, c, rd.selected, rd.current, rd.retained);
    if b == 1 && rd.zeros >= 2 {
      ReadCode(input, position, first, last, limit, done, c, rd.selected, rd.current, rd.retained);
      var u := Ranged(rd.index, rd.offset, rd.current);
      var selected := rd.selected + if InRange(rd.index, first, last) && rd.current != [] then [u] else [];
      if rd.index >= last {
        return rd, Some(Ok(selected));
      }
      next := Reader(selected, [], 0, rd.index + 1, position + 1, rd.retained);
      assert HoldsFor(input, position + 1, first, last, limit, next,
        done + [Ranged(c.index, c.offset, c.current)], Cursor([], 0, c.index + 1, position + 1));
    } else {
      ReadPlain(input, position, first, last, limit, done, c, rd.selected, rd.current, rd.retained);
      if b == 0 {
        next := rd.(zeros := rd.zeros + 1);
      } else {
        if InRange(rd.index, first, last) {
          if rd.zeros >= Max(0, limit - rd.retained) {
            ErrIsTooLarge(RangeResult(input, first, last, limit));
            return rd, Some(Err(TooLarge));
          }
          next := rd.(retained := rd.retained + rd.zeros + 1, current := rd.current + Zeros(rd.zeros) + [b]);
        }
        next := next.(zeros := 0);
      }
      assert HoldsFor(input, position + 1, first, last, limit, next, done, CursorByte(c, b, position));
    }
  }

  /** `read_range`: exactly the non-empty units `first` to `last` with their offsets, or an error
      exactly when they exceed the limit, for any partition of the input into read buffers. */
  method ReadRange(chunks: seq<Bytes>, first: nat, last: nat, limit: nat) returns (r: Result<seq<Ranged>, RangeError>)
    requires forall c :: c in chunks ==> c != []
    ensures r == RangeResult(Flatten(chunks), first, last, limit)
  {
    hide Holds, RangeResult;
    ghost var input := Flatten(chunks);
    var left := chunks;
    var rd := Reader([], [], 0, 0, 0, 0);
    var absolute := 0;
    StartsReading(input, first, last, limit);
    assert input[0..] == input;
    while left != []
      invariant absolute <= |input| && Holds(input, absolute, first, last, limit, rd)
      invariant input[absolute..] == Flatten(left)
      decreases |left|
    {
      var buffer := left[0];
      var consumed := 0;
      assert buffer[0..] == buffer;
      while consumed < |buffer|
        invariant 0 <= consumed <= |buffer| && absolute + consumed <= |input|
        invariant Holds(input, absolute + consumed, first, last, limit, rd)
        invariant input[absolute + consumed..] == buffer[consumed..] + Flatten(left[1..])
      {
        var position := absolute + consumed;
        assert input[position] == input[position..][0] == buffer[consumed];
        assert input[position + 1..] == input[position..][1..] == buffer[consumed + 1..] + Flatten(left[1..]);
        var stop;
        rd, stop := ReadByte(rd, buffer[consumed], position, first, last, limit, input);
        if stop.Some? {
          return stop.value;
        }
        consumed := consumed + 1;
      }
      absolute := absolute + consumed;
      left := left[1..];
      assert buffer[consumed..] + Flatten(left) == Flatten(left);
    }
    r := FinishRange(rd, first, last, limit, input);
  }

  /** The end of the input. */
  method FinishRange(rd: Reader, first: nat, last: nat, limit: nat, ghost input: Bytes)
    returns (r: Result<seq<Ranged>, RangeError>)
    requires Holds(input, |input|, first, last, limit, rd)
    ensures r == RangeResult(input, first, last, limit)
  {
    ghost var done, c :| HoldsFor(input, |input|, first, last, limit, rd, done, c);
    hide Reading, RangeResult, Zeros;
    ReadingInside(input, |input|, first, last, limit, done, c, rd.selected, rd.current, rd.retained);
    ReadEnd(input, first, last, limit, done, c, rd.selected, rd.current, rd.retained);
    if InRange(rd.index, first, last) {
      if rd.zeros > Max(0, limit - rd.retained) {
        return Err(TooLarge);
      }
      var current := rd.current + Zeros(rd.zeros);
      return Ok(rd.selected + if current != [] then [Ranged(rd.index, rd.offset, current)] else []);
    }
    r := Ok(rd.selected);
  }

  lemma StartsReading(input: Bytes, first: nat, last: nat, limit: nat)
    ensures Holds(input, 0, first, last, limit, Reader([], [], 0, 0, 0, 0))
  {
    hide RangedFrom;
    var c := Cursor([], 0, 0, 0);
    assert input[0..] == input && [] + RangedFrom(c, input, 0) == RangedFrom(c, input, 0);
    assert HoldsFor(input, 0, first, last, limit, Reader([], [], 0, 0, 0, 0), [], c);
  }

  lemma ReadingInside(input: Bytes, position: nat, first: nat, last: nat, limit: nat, done: seq<Ranged>, c: Cursor,
                      selected: seq<Ranged>, current: Bytes, retained: nat)
    requires Reading(input, position, first, last, limit, done, c, selected, current, retained)
    ensures position <= |input| && |current| <= retained <= limit
    ensures current == if InRange(c.index, first, last) then c.current else []
  {
  }

  lemma ErrIsTooLarge(r: Result<seq<Ranged>, RangeError>)
    ensures r.Err? ==> r == Err(TooLarge)
  {
    if r.Err? {
      assert r.error.TooLarge?;
    }
  }

  lemma {:induction false} SelectNothing(units: seq<Ranged>, first: nat, last: nat)
    requires forall k :: 0 <= k < |units| ==> !Wanted(units[k], first, last)
    ensures Select(units, first, last) == []
  {
    hide Wanted;
    if units != [] {
      SelectNothing(units[1..], first, last);
    }
  }

  lemma {:induction false} SelectAll(units: seq<Ranged>, first: nat, last: nat)
    requires forall k :: 0 <= k < |units| ==> Wanted(units[k], first, last)
    ensures Select(units, first, last) == units
  {
    hide Wanted;
    if units != [] {
      SelectAll(units[1..], first, last);
    }
  }

  lemma ThreeParts<T>(s: seq<T>, from: nat, to: nat)
    requires from <= to <= |s|
    ensures s == s[..from] + (s[from..to] + s[to..])
    ensures [] + (s[from..to] + []) == s[from..to]
  {
  }

  /** With consecutive numbers and no empty unit behind a start code, selecting is slicing. */
  lemma {:induction false} SelectSlices(units: seq<Ranged>, first: nat, last: nat)
    requires NoneEmpty(units) && forall k :: 0 <= k < |units| ==> units[k].index == k
    requires 1 <= first <= last
    ensures Select(units, first, last) == units[Min(|units|, first)..Min(|units|, last + 1)]
  {
    hide Select;
    var from, to := Min(|units|, first), Min(|units|, last + 1);
    var a, b, c := units[..from], units[from..to], units[to..];
    ThreeParts(units, from, to);
    SelectNothing(a, first, last);
    SelectAll(b, first, last);
    SelectNothing(c, first, last);
    SelectConcat(b, c, first, last);
    SelectConcat(a, b + c, first, last);
  }

  /** Units `first` to `last` of a list, as far as there are any; the first one is number 1. */
  function Numbered(list: seq<Bytes>, first: nat, last: nat): seq<Bytes>
    requires 1 <= first <= last
  {
    list[Min(|list|, first - 1)..Min(|list|, last)]
  }

  lemma {:induction false} RetainedIsLength(units: seq<Ranged>, list: seq<Bytes>)
    requires |units| == |list| && forall k :: 0 <= k < |units| ==> units[k].data == list[k]
    ensures Retained(units) == TotalLength(list)
  {
    if units != [] {
      RetainedIsLength(units[1..], list[1..]);
    }
  }

  /** Ranged reader and iterator agree: without an empty unit behind a start code the result is units
      `first` to `last` of the streaming list, each with its number and its place in the input, or an
      error exactly when these units together exceed the limit. */
  lemma {:induction false} RangeIsStreaming(input: Bytes, first: nat, last: nat, limit: nat)
    requires 1 <= first <= last
    requires NoneEmpty(AllRanged(input))
    ensures var r, wanted := RangeResult(input, first, last, limit), Numbered(Units(input), first, last);
      && (r.Err? <==> TotalLength(wanted) > limit)
      && (r.Ok? ==>
            && |r.value| == |wanted|
            && forall k :: 0 <= k < |wanted| ==>
                 && r.value[k].index == first + k && r.value[k].data == wanted[k]
                 && r.value[k].offset + |wanted[k]| <= |input|
                 && wanted[k] == input[r.value[k].offset..r.value[k].offset + |wanted[k]|])
  {
    hide RangedFrom, ScanAll, Flush, Retained, AllRanged, Units, Select, TotalLength;
    RangedNumbering(input);
    AllLocated(input);
    var units, wanted := AllRanged(input), Numbered(Units(input), first, last);
    SelectSlices(units, first, last);
    var got := Select(units, first, last);
    forall k | 0 <= k < |wanted| ensures got[k] == units[first + k] && got[k].data == wanted[k] {
    }
    RetainedIsLength(got, wanted);
  }

  lemma AllLocated(input: Bytes)
    ensures Located(input, AllRanged(input), 0)
  {
    assert input[0..] == input && input[0..0] == [] + Zeros(0);
    assert Follows(input, Cursor([], 0, 0, 0), 0);
    RangedLocated(input, Cursor([], 0, 0, 0), 0);
  }
}
