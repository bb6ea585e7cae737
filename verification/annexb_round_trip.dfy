/** Annex B streams as an encoder writes them (section B.1.1 of ITU-T H.264), read back. */
module AnnexBRoundTrip {
  import opened Wrappers
  import opened AnnexB

  predicate CodeAt(b: Bytes, t: nat)
  {
    t + 3 <= |b| && b[t] == 0 && b[t + 1] == 0 && b[t + 2] == 1
  }

  predicate NoCode(b: Bytes)
  {
    forall t: nat :: t + 3 <= |b| ==> !CodeAt(b, t)
  }

  /** What an encoder puts behind a start code: something, without a start code in it, and without a zero
      byte at its end. */
  predicate Payload(u: Bytes)
  {
    u != [] && NoCode(u) && u[|u| - 1] != 0
  }

  ghost predicate AllPayloads(units: seq<Bytes>)
  {
    forall i :: 0 <= i < |units| ==> Payload(units[i])
  }

  /** Every unit behind a start code of its own, with any number of extra zero bytes in front of it. */
  function Stream(units: seq<Bytes>, extra: seq<nat>): Bytes
    requires |extra| == |units|
  {
    if units == [] then [] else Zeros(2 + extra[0]) + [1] + units[0] + Stream(units[1..], extra[1..])
  }

  // ---------------------------------------------------------------- pieces of a scan

  /** The scan has read `p` since the unit was opened. */
  ghost predicate HasRead(s: Scan, p: Bytes)
  {
    s.current + Zeros(s.zeros) == p
  }

  lemma {:induction false} ScanZeros(s: Scan, n: nat)
    ensures ScanAll(s, Zeros(n)) == s.(zeros := s.zeros + n)
    decreases n
  {
    if n > 0 {
      assert Zeros(n)[0] == 0 && Zeros(n)[1..] == Zeros(n - 1);
      ScanZeros(s.(zeros := s.zeros + 1), n - 1);
    }
  }

  /** A start code closes what was open. */
  lemma {:induction false} ScanCode(s: Scan, n: nat)
    requires n >= 2
    ensures ScanAll(s, Zeros(n) + [1])
      == Scan(if s.started then [] else s.current, 0, true,
              if s.started && s.current != [] then s.units + [s.current] else s.units)
  {
    ScanZeros(s, n);
    ScanConcat(s, Zeros(n), [1]);
    var t := s.(zeros := s.zeros + n);
    assert ScanAll(t, [1]) == ScanAll(ScanByte(t, 1), [1][1..]);
  }

  lemma StepReads(s: Scan, p: Bytes, b: byte)
    requires s.started && HasRead(s, p) && NoCode(p + [b])
    ensures var next := ScanByte(s, b);
      next.started && next.units == s.units && HasRead(next, p + [b]) && (b != 0 ==> next.zeros == 0)
  {
    if s.zeros >= 2 {
      NotOne(p + [b], |p|);
    }
    if b == 0 {
      assert Zeros(s.zeros + 1) == Zeros(s.zeros) + [0];
      assert s.current + (Zeros(s.zeros) + [0]) == p + [0];
    } else {
      assert ScanByte(s, b).current + Zeros(0) == s.current + Zeros(s.zeros) + [b];
    }
  }

  /** Behind two zero bytes there is no one. */
  lemma NotOne(b: Bytes, t: nat)
    requires NoCode(b) && 2 <= t < |b| && b[t - 2] == 0 && b[t - 1] == 0
    ensures b[t] != 1
  {
    assert !CodeAt(b, t - 2);
  }

  lemma NoCodePrefix(b: Bytes, n: nat)
    requires NoCode(b) && n <= |b|
    ensures NoCode(b[..n])
  {
    forall t: nat | t + 3 <= n ensures !CodeAt(b[..n], t) {
      assert !CodeAt(b, t);
    }
  }

  lemma {:induction false} ScanReads(s: Scan, p: Bytes, rest: Bytes)
    requires s.started && HasRead(s, p) && NoCode(p + rest)
    ensures var end := ScanAll(s, rest);
      && end.started && end.units == s.units && HasRead(end, p + rest)
      && (rest != [] && rest[|rest| - 1] != 0 ==> end.zeros == 0)
    decreases |rest|
  {
    hide HasRead, ScanByte;
    if rest == [] {
      assert p + rest == p;
    } else {
      assert (p + rest)[..|p| + 1] == p + [rest[0]] && p + [rest[0]] + rest[1..] == p + rest;
      NoCodePrefix(p + rest, |p| + 1);
      StepReads(s, p, rest[0]);
      ScanReads(ScanByte(s, rest[0]), p + [rest[0]], rest[1..]);
    }
  }

  /** A payload is read as it is. */
  lemma {:induction false} ScanPayload(units: seq<Bytes>, u: Bytes)
    requires Payload(u)
    ensures ScanAll(Scan([], 0, true, units), u) == Scan(u, 0, true, units)
  {
    var s := Scan([], 0, true, units);
    assert [] + Zeros(0) == [] && [] + u == u;
    ScanReads(s, [], u);
    var end := ScanAll(s, u);
    assert end.current + Zeros(0) == end.current;
  }

  /** Before the first start code nothing is kept. */
  lemma {:induction false} ScanJunk(s: Scan, p: Bytes, rest: Bytes)
    requires !s.started && s.current == [] && NoCode(p + rest)
    requires s.zeros <= |p| && forall k :: |p| - s.zeros <= k < |p| ==> p[k] == 0
    ensures var end := ScanAll(s, rest); !end.started && end.current == [] && end.units == s.units
    decreases |rest|
  {
    if rest != [] {
      var next, more := ScanByte(s, rest[0]), p + [rest[0]];
      assert more + rest[1..] == p + rest;
      if s.zeros >= 2 {
        NotOne(p + rest, |p|);
      }
      ScanJunk(next, more, rest[1..]);
    }
  }

  // ---------------------------------------------------------------- round trips

  /** What a start code leaves of the units read so far. */
  function Closed(s: Scan): seq<Bytes>
  {
    s.units + (if s.started && s.current != [] then [s.current] else [])
  }

  lemma {:induction false} StreamHead(s: Scan, n: nat, u: Bytes, rest: Bytes)
    requires Payload(u) && (!s.started ==> s.current == [])
    ensures ScanAll(s, Zeros(2 + n) + [1] + u + rest) == ScanAll(Scan(u, 0, true, Closed(s)), rest)
  {
    hide Payload, ScanAll, ScanByte;
    var head := Zeros(2 + n) + [1];
    ScanCode(s, 2 + n);
    assert ScanAll(s, head) == Scan([], 0, true, Closed(s));
    ScanPayload(Closed(s), u);
    ScanConcat(s, head, u);
    ScanConcat(s, head + u, rest);
  }

  lemma {:induction false} ScanStream(s: Scan, units: seq<Bytes>, extra: seq<nat>)
    requires AllPayloads(units) && |extra| == |units|
    requires if s.started then s.zeros == 0 else s.current == []
    ensures Flush(ScanAll(s, Stream(units, extra))) == if units == [] then Flush(s) else Closed(s) + units
    decreases |units|
  {
    hide Payload, ScanByte, ScanAll, Flush, Zeros, Closed;
    if units == [] {
      ScanNothing(s);
    } else {
      var u, rest := units[0], Stream(units[1..], extra[1..]);
      StreamHead(s, extra[0], u, rest);
      PayloadNonEmpty(u);
      ScanStream(Scan(u, 0, true, Closed(s)), units[1..], extra[1..]);
      assert units == [u] + units[1..];
      ClosedNext(u, Closed(s), units[1..]);
    }
  }

  lemma {:induction false} ScanNothing(s: Scan)
    ensures ScanAll(s, []) == s
  {
  }

  lemma ClosedNext(u: Bytes, done: seq<Bytes>, later: seq<Bytes>)
    requires u != []
    ensures var s := Scan(u, 0, true, done);
      && (later == [] ==> Flush(s) == done + [u])
      && Closed(s) + later == done + ([u] + later)
  {
    assert u + Zeros(0) == u;
  }

  lemma PayloadNonEmpty(u: Bytes)
    requires Payload(u)
    ensures u != []
  {
  }

  /** Whatever an encoder writes is read back unit by unit by the iterator, whatever precedes the first
      start code and however many zero bytes stand in front of each. */
  lemma {:induction false} IteratorRoundTrip(junk: Bytes, units: seq<Bytes>, extra: seq<nat>)
    requires NoCode(junk) && AllPayloads(units) && |extra| == |units|
    ensures Units(junk + Stream(units, extra)) == units
  {
    hide AllPayloads;
    assert [] + junk == junk;
    ScanJunk(START, [], junk);
    ScanConcat(START, junk, Stream(units, extra));
    ScanStream(ScanAll(START, junk), units, extra);
  }

  /** And by the splitter exactly when no start code but the first has two or more zero bytes too many. */
  lemma {:induction false} SplitterRoundTrip(junk: Bytes, units: seq<Bytes>, extra: seq<nat>)
    requires NoCode(junk) && AllPayloads(units) && |extra| == |units|
    ensures Split(junk + Stream(units, extra), None, 0) == units <==> !HasLongCode(junk + Stream(units, extra))
  {
    hide Units, Split;
    IteratorRoundTrip(junk, units, extra);
    StreamingIsSplitting(junk + Stream(units, extra));
  }

  /** The ranged reader finds the same units, and each where it stands in the input. */
  lemma {:induction false} RangedRoundTrip(junk: Bytes, units: seq<Bytes>, extra: seq<nat>)
    requires NoCode(junk) && AllPayloads(units) && |extra| == |units|
    ensures var b := junk + Stream(units, extra);
      DataOf(AllRanged(b)) == units && Located(b, AllRanged(b), 0)
  {
    hide RangedFrom, ScanAll, Flush, DataOf, NoCode, AllPayloads;
    var b := junk + Stream(units, extra);
    IteratorRoundTrip(junk, units, extra);
    RangedIsStreaming(Cursor([], 0, 0, 0), START, b, 0);
    AllLocated(b);
  }
}
