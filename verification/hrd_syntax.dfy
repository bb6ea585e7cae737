/** Hypothetical reference decoder parameters of a sequence parameter set
    (parse_hrd in crates/h264/src/parameter.rs; section E.1.2 of ITU-T H.264). */
module HrdSyntax {
  import opened Wrappers
  import opened Bits

  datatype CpbEntry = CpbEntry(bitRate: nat, cpbSize: nat, cbr: bool)

  datatype Hrd = Hrd(cpbCount: nat, maximumBitRate: nat, maximumCpbSize: nat, allCbr: bool, entries: seq<CpbEntry>,
                     initialDelayLength: nat, removalDelayLength: nat, outputDelayLength: nat, timeOffsetLength: nat)

  // ---------------------------------------------------------------- step-by-step reading

  /** Elements read so far, followed by the outcome of reading the others. */
  function Joined(got: seq<Field>, others: Read<seq<Field>>): Read<seq<Field>>
  {
    Read(if others.result.Ok? then Ok(got + others.result.value) else others.result, others.position)
  }

  /** Reading all of `shapes` from `start` has come as far as `got` and `pos`. */
  ghost predicate Progress(shapes: seq<Field>, bits: BitString, start: nat, got: seq<Field>, pos: nat)
  {
    && |got| <= |shapes| && start <= |bits| && pos <= |bits|
    && ReadAll(shapes, bits, start) == Joined(got, ReadAll(shapes[|got|..], bits, pos))
  }

  lemma ProgressStart(shapes: seq<Field>, bits: BitString, start: nat)
    requires start <= |bits|
    ensures Progress(shapes, bits, start, [], start)
  {
    var r := ReadAll(shapes, bits, start);
    assert shapes[0..] == shapes;
    assert r.result.Ok? ==> [] + r.result.value == r.result.value;
  }

  lemma {:induction false} ProgressStep(shapes: seq<Field>, bits: BitString, start: nat, got: seq<Field>, pos: nat)
    requires Progress(shapes, bits, start, got, pos) && |got| < |shapes|
    ensures var r := ReadField(shapes[|got|], bits, pos);
      r.result.Ok? ==> Progress(shapes, bits, start, got + [r.result.value], r.position)
    ensures var r := ReadField(shapes[|got|], bits, pos);
      r.result.Err? ==> ReadAll(shapes, bits, start) == Read(Err(r.result.error), r.position)
  {
    hide ReadField;
    var left := shapes[|got|..];
    var r := ReadField(shapes[|got|], bits, pos);
    ReadFieldBound(shapes[|got|], bits, pos);
    assert left[1..] == shapes[|got| + 1..];
    if r.result.Ok? {
      var others := ReadAll(left[1..], bits, r.position);
      assert others.result.Ok? ==>
        got + ([r.result.value] + others.result.value) == got + [r.result.value] + others.result.value;
    }
  }

  lemma {:induction false} ProgressDone(shapes: seq<Field>, bits: BitString, start: nat, got: seq<Field>, pos: nat)
    requires Progress(shapes, bits, start, got, pos) && |got| == |shapes|
    ensures ReadAll(shapes, bits, start) == Read(Ok(got), pos)
  {
    assert shapes[|got|..] == [];
    assert got + [] == got;
  }

  // ---------------------------------------------------------------- the syntax

  /** The elements behind the CPB count: two scales, three elements per CPB, four lengths. */
  function Shape(count: nat): (shapes: seq<Field>)
    ensures |shapes| == 6 + 3 * count
  {
    seq(6 + 3 * count, i requires 0 <= i < 6 + 3 * count => ShapeOf(count, i))
  }

  function ShapeOf(count: nat, i: nat): Field
  {
    if i < 2 then Fixed(0, 4)
    else if i >= 2 + 3 * count then Fixed(0, 5)
    else if (i - 2) % 3 == 2 then Fixed(0, 1) else Ue(0)
  }

  function Number(f: Field): nat
  {
    match f
    case Fixed(v, _) => v
    case Ue(v) => v
    case Se(_) => 0
  }

  function EntryOf(fs: seq<Field>, i: nat): CpbEntry
    requires 5 + 3 * i <= |fs|
  {
    CpbEntry((Number(fs[2 + 3 * i]) + 1) * Pow2(6 + Number(fs[0])),
      (Number(fs[3 + 3 * i]) + 1) * Pow2(4 + Number(fs[1])),
             Number(fs[4 + 3 * i]) == 1)
  }

  function EntriesOf(fs: seq<Field>, n: nat): (entries: seq<CpbEntry>)
    requires 2 + 3 * n <= |fs|
    ensures |entries| == n && forall i :: 0 <= i < n ==> entries[i] == EntryOf(fs, i)
  {
    seq(n, i requires 0 <= i < n => EntryOf(fs, i))
  }

  function MaxRate(entries: seq<CpbEntry>): (m: nat)
  {
    if entries == [] then 0 else Max(MaxRate(entries[..|entries|-1]), entries[|entries|-1].bitRate)
  }

  function MaxSize(entries: seq<CpbEntry>): (m: nat)
  {
    if entries == [] then 0 else Max(MaxSize(entries[..|entries|-1]), entries[|entries|-1].cpbSize)
  }

  predicate AllCbr(entries: seq<CpbEntry>)
  {
    forall i :: 0 <= i < |entries| ==> entries[i].cbr
  }

  function HrdFrom(count: nat, fs: seq<Field>): Hrd
    requires |fs| == 6 + 3 * count
  {
    var entries := EntriesOf(fs, count);
    var tail := 2 + 3 * count;
    Hrd(count, MaxRate(entries), MaxSize(entries), AllCbr(entries), entries,
        Number(fs[tail]) + 1, Number(fs[tail + 1]) + 1, Number(fs[tail + 2]) + 1, Number(fs[tail + 3]))
  }

  function HrdAt(bits: BitString, pos: nat): Result<(Hrd, nat), ParameterError>
    requires pos <= |bits|
  {
    var c := ReadUeAt(bits, pos);
    if c.result.Err? then Err(Broken(c.result.error))
    else
      var count := Min(c.result.value + 1, TWO_32 - 1);
      if count > 32 then Err(InvalidHrdCpbCount)
      else
        var body := ReadAll(Shape(count), bits, c.position);
        if body.result.Err? then Err(Broken(body.result.error))
        else
          ReadAllLength(Shape(count), bits, c.position);
          Ok((HrdFrom(count, body.result.value), body.position))
  }

  lemma {:induction false} ReadAllLength(shapes: seq<Field>, bits: BitString, pos: nat)
    requires pos <= |bits|
    ensures var r := ReadAll(shapes, bits, pos).result;
      r.Ok? ==> |r.value| == |shapes| && forall i :: 0 <= i < |shapes| ==> Fits(shapes[i], r.value[i])
    decreases |shapes|
  {
    hide ReadUeAt;
    if shapes != [] {
      var first := ReadField(shapes[0], bits, pos);
      ReadFieldBound(shapes[0], bits, pos);
      FitsShape(shapes[0], bits, pos);
      hide Fits, ReadField;
      if first.result.Ok? {
        ReadAllLength(shapes[1..], bits, first.position);
      }
    }
  }

  /** An element read as a shape is of its kind and in its range. */
  ghost predicate Fits(shape: Field, f: Field)
  {
    match shape
    case Fixed(_, c) => f.Fixed? && f.count == c && f.value < Pow2(c)
    case Ue(_) => f.Ue? && f.code <= TWO_32 - 2
    case Se(_) => f.Se?
  }

  lemma FitsShape(shape: Field, bits: BitString, pos: nat)
    requires pos <= |bits|
    ensures var r := ReadField(shape, bits, pos).result; r.Ok? ==> Fits(shape, r.value)
  {
    hide ReadUeAt;
    if shape.Ue? && ReadUeAt(bits, pos).result.Ok? {
      UeRange(bits, pos);
    }
  }

  // ---------------------------------------------------------------- the parser

  method ParseHrd(bits: BitReader) returns (r: Result<Hrd, ParameterError>)
    requires bits.Valid()
    modifies bits
    ensures bits.Valid()
    ensures var expected := HrdAt(BitsOf(bits.data), old(bits.position));
      && (expected.Err? ==> r == Err(expected.error))
      && (expected.Ok? ==> r == Ok(expected.value.0) && bits.position == expected.value.1)
  {
    hide ReadUeAt, ReadAll, BitsOf, HrdFrom, Shape;
    var code := bits.ReadUe();
    if code.Err? {
      return Err(Broken(code.error));
    }
    var value: nat := code.value;
    var cpbCount := Min(value + 1, TWO_32 - 1);
    if cpbCount > 32 {
      return Err(InvalidHrdCpbCount);
    }
    r := ParseBody(bits, cpbCount);
  }

  method ParseBody(bits: BitReader, cpbCount: nat) returns (r: Result<Hrd, ParameterError>)
    requires bits.Valid()
    modifies bits
    ensures bits.Valid()
    ensures var body := ReadAll(Shape(cpbCount), BitsOf(bits.data), old(bits.position));
      && (body.result.Err? ==> r == Err(Broken(body.result.error)))
      && (body.result.Ok? ==> |body.result.value| == 6 + 3 * cpbCount && r == Ok(HrdFrom(cpbCount, body.result.value)))
      && (body.result.Ok? ==> bits.position == body.position)
  {
    hide ReadAll, ReadField, Progress, BitsOf, Pow2, EntryOf, MaxRate, MaxSize, AllCbr;
    ghost var shapes, all, start, got := Shape(cpbCount), BitsOf(bits.data), bits.position, [];
    ProgressStart(shapes, all, start);
    var bitRateScale: Result<nat, BitError>;
    var cpbSizeScale: Result<nat, BitError>;
    bitRateScale, got := ReadFixed(bits, 4, shapes, start, got);
    if bitRateScale.Err? { return Err(Broken(bitRateScale.error)); }
    cpbSizeScale, got := ReadFixed(bits, 4, shapes, start, got);
    if cpbSizeScale.Err? { return Err(Broken(cpbSizeScale.error)); }
    MaximaStart();
    var maximumBitRate, maximumCpbSize, allCbr, entries := 0, 0, true, [];
    for i := 0 to cpbCount
      invariant bits.Valid() && |got| == 2 + 3 * i && Progress(shapes, all, start, got, bits.position)
      invariant Number(got[0]) == bitRateScale.value && Number(got[1]) == cpbSizeScale.value
      invariant entries == EntriesOf(got, i)
      invariant maximumBitRate == MaxRate(entries) && maximumCpbSize == MaxSize(entries) && allCbr == AllCbr(entries)
    {
      ghost var before := got;
      var entry: Result<CpbEntry, BitError>;
      entry, got := ReadEntry(bits, bitRateScale.value, cpbSizeScale.value, shapes, cpbCount, i, start, got);
      if entry.Err? { return Err(Broken(entry.error)); }
      EntriesGrow(before, got, i, entry.value);
      MaximaGrow(entries, entry.value);
      maximumBitRate := Max(maximumBitRate, entry.value.bitRate);
      maximumCpbSize := Max(maximumCpbSize, entry.value.cpbSize);
      allCbr := allCbr && entry.value.cbr;
      entries := entries + [entry.value];
    }
    ghost var body := got;
    var initialLength: Result<nat, BitError>;
    var removalLength: Result<nat, BitError>;
    var outputLength: Result<nat, BitError>;
    var offsetLength: Result<nat, BitError>;
    initialLength, got := ReadFixed(bits, 5, shapes, start, got);
    if initialLength.Err? { return Err(Broken(initialLength.error)); }
    removalLength, got := ReadFixed(bits, 5, shapes, start, got);
    if removalLength.Err? { return Err(Broken(removalLength.error)); }
    outputLength, got := ReadFixed(bits, 5, shapes, start, got);
    if outputLength.Err? { return Err(Broken(outputLength.error)); }
    offsetLength, got := ReadFixed(bits, 5, shapes, start, got);
    if offsetLength.Err? { return Err(Broken(offsetLength.error)); }
    ProgressDone(shapes, all, start, got, bits.position);
    EntriesPrefix(body, got, cpbCount);
    r := Ok(Hrd(cpbCount, maximumBitRate, maximumCpbSize, allCbr, entries,
                initialLength.value + 1, removalLength.value + 1, outputLength.value + 1, offsetLength.value));
  }

  /** Reads the next element, which is of fixed width. */
  method ReadFixed(bits: BitReader, count: nat, ghost shapes: seq<Field>, ghost start: nat, ghost got: seq<Field>)
    returns (r: Result<nat, BitError>, ghost more: seq<Field>)
    requires bits.Valid() && Progress(shapes, BitsOf(bits.data), start, got, bits.position)
    requires |got| < |shapes| && shapes[|got|] == Fixed(0, count)
    modifies bits
    ensures bits.Valid()
    ensures r.Ok? ==> more == got + [Fixed(r.value, count)]
    ensures r.Ok? ==> Progress(shapes, BitsOf(bits.data), start, more, bits.position)
    ensures r.Err? ==> start <= |BitsOf(bits.data)| && ReadAll(shapes, BitsOf(bits.data), start).result == Err(r.error)
  {
    ProgressStep(shapes, BitsOf(bits.data), start, got, bits.position);
    hide Progress, ReadAll, BitsOf;
    var word := bits.ReadBits(count);
    r := if word.Ok? then Ok(word.value) else Err(word.error);
    more := if word.Ok? then got + [Fixed(word.value, count)] else got;
  }

  method ReadCode(bits: BitReader, ghost shapes: seq<Field>, ghost start: nat, ghost got: seq<Field>)
    returns (r: Result<nat, BitError>, ghost more: seq<Field>)
    requires bits.Valid() && Progress(shapes, BitsOf(bits.data), start, got, bits.position)
    requires |got| < |shapes| && shapes[|got|] == Ue(0)
    modifies bits
    ensures bits.Valid()
    ensures r.Ok? ==> more == got + [Ue(r.value)]
    ensures r.Ok? ==> Progress(shapes, BitsOf(bits.data), start, more, bits.position)
    ensures r.Err? ==> start <= |BitsOf(bits.data)| && ReadAll(shapes, BitsOf(bits.data), start).result == Err(r.error)
  {
    ProgressStep(shapes, BitsOf(bits.data), start, got, bits.position);
    hide Progress, ReadAll, BitsOf, ReadUeAt;
    var code := bits.ReadUe();
    r := if code.Ok? then Ok(code.value) else Err(code.error);
    more := if code.Ok? then got + [Ue(code.value)] else got;
  }

  method ReadEntry(bits: BitReader, bitRateScale: nat, cpbSizeScale: nat,
                   ghost shapes: seq<Field>, ghost count: nat, ghost i: nat, ghost start: nat, ghost got: seq<Field>)
    returns (r: Result<CpbEntry, BitError>, ghost more: seq<Field>)
    requires bits.Valid() && Progress(shapes, BitsOf(bits.data), start, got, bits.position)
    requires shapes == Shape(count) && i < count && |got| == 2 + 3 * i
    requires Number(got[0]) == bitRateScale && Number(got[1]) == cpbSizeScale
    modifies bits
    ensures bits.Valid()
    ensures r.Ok? ==> |more| == 5 + 3 * i && more[..|got|] == got && r.value == EntryOf(more, i)
    ensures r.Ok? ==> Progress(shapes, BitsOf(bits.data), start, more, bits.position)
    ensures r.Err? ==> start <= |BitsOf(bits.data)| && ReadAll(shapes, BitsOf(bits.data), start).result == Err(r.error)
  {
    hide ReadAll, ReadField, Progress, BitsOf, Pow2;
    more := got;
    var bitRateValue: Result<nat, BitError>;
    var cpbSizeValue: Result<nat, BitError>;
    var cbr: Result<nat, BitError>;
    bitRateValue, more := ReadCode(bits, shapes, start, more);
    if bitRateValue.Err? { return Err(bitRateValue.error), more; }
    cpbSizeValue, more := ReadCode(bits, shapes, start, more);
    if cpbSizeValue.Err? { return Err(cpbSizeValue.error), more; }
    cbr, more := ReadFixed(bits, 1, shapes, start, more);
    if cbr.Err? { return Err(cbr.error), more; }
    r := Ok(CpbEntry((bitRateValue.value + 1) * Pow2(6 + bitRateScale),
      (cpbSizeValue.value + 1) * Pow2(4 + cpbSizeScale),
                     cbr.value == 1));
  }

  lemma EntriesGrow(before: seq<Field>, after: seq<Field>, i: nat, entry: CpbEntry)
    requires |before| == 2 + 3 * i && |after| == 5 + 3 * i && after[..|before|] == before && entry == EntryOf(after, i)
    ensures EntriesOf(after, i + 1) == EntriesOf(before, i) + [entry]
  {
    hide Pow2;
  }

  lemma EntriesPrefix(before: seq<Field>, after: seq<Field>, n: nat)
    requires |before| == 2 + 3 * n && |after| >= |before| && after[..|before|] == before
    ensures EntriesOf(after, n) == EntriesOf(before, n)
  {
    hide Pow2;
  }

  lemma MaximaStart()
    ensures MaxRate([]) == 0 && MaxSize([]) == 0 && AllCbr([])
  {
  }

  lemma {:induction false} RateBelow(entries: seq<CpbEntry>, limit: nat)
    requires limit > 0 && forall i :: 0 <= i < |entries| ==> entries[i].bitRate < limit
    ensures MaxRate(entries) < limit
    decreases |entries|
  {
    if entries != [] {
      RateBelow(entries[..|entries|-1], limit);
    }
  }

  lemma {:induction false} MaximaGrow(entries: seq<CpbEntry>, e: CpbEntry)
    ensures MaxRate(entries + [e]) == Max(MaxRate(entries), e.bitRate)
    ensures MaxSize(entries + [e]) == Max(MaxSize(entries), e.cpbSize)
    ensures AllCbr(entries + [e]) == (AllCbr(entries) && e.cbr)
  {
    var longer := entries + [e];
    assert longer[..|entries|] == entries;
    assert longer[|entries|] == e;
  }

  // ---------------------------------------------------------------- what is parsed

  /** Two values that some entry attains and none exceeds. */
  ghost predicate Maxima(entries: seq<CpbEntry>, rate: nat, size: nat)
  {
    && (forall i :: 0 <= i < |entries| ==> entries[i].bitRate <= rate && entries[i].cpbSize <= size)
    && (exists i :: 0 <= i < |entries| && entries[i].bitRate == rate)
    && (exists i :: 0 <= i < |entries| && entries[i].cpbSize == size)
  }

  lemma {:induction false} MaximaHold(entries: seq<CpbEntry>)
    requires entries != []
    ensures Maxima(entries, MaxRate(entries), MaxSize(entries))
    decreases |entries|
  {
    var front, last := entries[..|entries|-1], entries[|entries|-1];
    if front == [] {
      assert MaxRate(front) == 0 && MaxSize(front) == 0;
      assert entries[0].bitRate == MaxRate(entries) && entries[0].cpbSize == MaxSize(entries);
    } else {
      MaximaHold(front);
      var i :| 0 <= i < |front| && front[i].bitRate == MaxRate(front);
      var j :| 0 <= j < |front| && front[j].cpbSize == MaxSize(front);
      assert entries[if MaxRate(entries) == MaxRate(front) then i else |front|].bitRate == MaxRate(entries);
      assert entries[if MaxSize(entries) == MaxSize(front) then j else |front|].cpbSize == MaxSize(entries);
    }
  }

  ghost predicate WellFormed(h: Hrd)
  {
    && 1 <= h.cpbCount == |h.entries| <= 32
    && Maxima(h.entries, h.maximumBitRate, h.maximumCpbSize)
    && (h.allCbr <==> forall i :: 0 <= i < |h.entries| ==> h.entries[i].cbr)
    && h.maximumBitRate < Pow2(53)
    && 1 <= h.initialDelayLength <= 32 && 1 <= h.removalDelayLength <= 32 && 1 <= h.outputDelayLength <= 32
    && h.timeOffsetLength < 32
  }

  /** Accepted parameters have 1 to 32 CPBs with an entry each, maxima that some entry attains and none
      exceeds, values that fit 64 bits, and delay fields of 1 to 32 bits. */
  lemma ParsedIsWellFormed(bits: BitString, pos: nat)
    requires pos <= |bits| && HrdAt(bits, pos).Ok?
    ensures WellFormed(HrdAt(bits, pos).value.0)
  {
    hide ReadUeAt, ReadAll, WellFormed, HrdFrom, Fits, Shape;
    var c := ReadUeAt(bits, pos);
    var count := Min(c.result.value + 1, TWO_32 - 1);
    ReadAllLength(Shape(count), bits, c.position);
    FromIsWellFormed(count, ReadAll(Shape(count), bits, c.position).result.value);
  }

  lemma FromIsWellFormed(count: nat, fs: seq<Field>)
    requires Encodable(count, fs)
    ensures WellFormed(HrdFrom(count, fs))
  {
    LengthsFit(count, fs);
    RatesFit(count, fs);
    MaximaHold(EntriesOf(fs, count));
    hide Pow2, Fits, EntryOf, Shape, MaxRate, MaxSize, EntriesOf, Maxima;
  }

  lemma LengthsFit(count: nat, fs: seq<Field>)
    requires |fs| == 6 + 3 * count && forall i :: 0 <= i < |fs| ==> Fits(Shape(count)[i], fs[i])
    ensures forall i :: 2 + 3 * count <= i < |fs| ==> Number(fs[i]) < 32
    ensures Number(fs[0]) < 16
  {
    assert Pow2(5) == 2 * Pow2(4) && Pow2(4) == 2 * Pow2(3) && Pow2(3) == 2 * Pow2(2) && Pow2(2) == 2 * Pow2(1)
      && Pow2(1) == 2;
    hide Pow2;
    forall i | 2 + 3 * count <= i < |fs| ensures Number(fs[i]) < 32 {
      assert Fits(Shape(count)[i], fs[i]);
    }
    assert Fits(Shape(count)[0], fs[0]);
  }

  lemma RatesFit(count: nat, fs: seq<Field>)
    requires |fs| == 6 + 3 * count && forall i :: 0 <= i < |fs| ==> Fits(Shape(count)[i], fs[i])
    requires Number(fs[0]) < 16
    ensures MaxRate(EntriesOf(fs, count)) < Pow2(53)
  {
    hide Pow2, MaxRate;
    var entries := EntriesOf(fs, count);
    forall i | 0 <= i < count ensures entries[i].bitRate < Pow2(53) {
      assert Fits(Shape(count)[2 + 3 * i], fs[2 + 3 * i]);
      RateFits(Number(fs[2 + 3 * i]), Number(fs[0]));
    }
    RateBelow(entries, Pow2(53));
  }

  lemma RateFits(value: nat, scale: nat)
    requires value <= TWO_32 - 2 && scale < 16
    ensures (value + 1) * Pow2(6 + scale) < Pow2(53)
  {
    Pow2Values();
    Pow2Monotone(6 + scale, 21);
    Pow2Add(21, 32);
    MulBound(value + 1, TWO_32, Pow2(6 + scale), Pow2(21));
  }

  lemma MulBound(a: nat, b: nat, c: nat, d: nat)
    requires a < b && 0 < c <= d
    ensures a * c < b * d
  {
    assert a * c < b * c;
    assert b * c <= b * d;
  }

  // ---------------------------------------------------------------- the syntax as written by an encoder

  ghost predicate Encodable(count: nat, fs: seq<Field>)
  {
    1 <= count <= 32 && |fs| == 6 + 3 * count && forall i :: 0 <= i < |fs| ==> Fits(Shape(count)[i], fs[i])
  }

  lemma {:induction false} ShapeOnly(shapes: seq<Field>, fs: seq<Field>, bits: BitString, pos: nat)
    requires pos <= |bits| && |shapes| == |fs| && forall i :: 0 <= i < |fs| ==> Fits(shapes[i], fs[i])
    ensures ReadAll(shapes, bits, pos) == ReadAll(fs, bits, pos)
    decreases |fs|
  {
    if fs != [] {
      assert Fits(shapes[0], fs[0]);
      assert ReadField(shapes[0], bits, pos) == ReadField(fs[0], bits, pos);
      hide ReadField, Fits;
      var first := ReadField(fs[0], bits, pos);
      ReadFieldBound(fs[0], bits, pos);
      if first.result.Ok? {
        ShapeOnly(shapes[1..], fs[1..], bits, first.position);
      }
    }
  }

  lemma ShapePrintable(count: nat, fs: seq<Field>)
    requires Encodable(count, fs)
    ensures forall i :: 0 <= i < |fs| ==> Printable(fs[i])
  {
    forall i | 0 <= i < |fs| ensures Printable(fs[i]) {
      assert Fits(Shape(count)[i], fs[i]);
    }
  }

  /** Parameters written element by element are parsed as written, and the reader stands right behind them. */
  lemma HrdRoundTrip(count: nat, fs: seq<Field>, bits: BitString, pos: nat)
    requires Encodable(count, fs) && At(bits, pos, PrintUe(count - 1) + PrintAll(fs))
    ensures pos <= |bits|
    ensures HrdAt(bits, pos) == Ok((HrdFrom(count, fs), pos + |PrintUe(count - 1)| + |PrintAll(fs)|))
  {
    hide ReadAll, PrintAll, PrintUe, HrdFrom, ReadUeAt, Printable;
    var next := pos + |PrintUe(count - 1)|;
    AtSplit(bits, pos, PrintUe(count - 1), PrintAll(fs));
    UeExact(bits, pos, count - 1, next);
    ShapePrintable(count, fs);
    FieldsRoundTrip(fs, bits, next);
    ShapeOnly(Shape(count), fs, bits, next);
  }

  // ---------------------------------------------------------------- parameters as an encoder has them

  /** One CPB: rate and size without their scales. */
  datatype Cpb = Cpb(rate: nat, size: nat, cbr: bool)

  /** What an encoder declares: the exponents of both scales, the CPBs, and the four field lengths. */
  datatype Declared = Declared(rateScale: nat, sizeScale: nat, cpbs: seq<Cpb>, initialDelayLength: nat,
                               removalDelayLength: nat, outputDelayLength: nat, timeOffsetLength: nat)

  predicate Declarable(d: Declared)
  {
    && d.rateScale < 16 && d.sizeScale < 16 && 1 <= |d.cpbs| <= 32
    && (forall i :: 0 <= i < |d.cpbs| ==>
          0 < d.cpbs[i].rate < 0x1_0000_0000 && 0 < d.cpbs[i].size < 0x1_0000_0000)
    && 1 <= d.initialDelayLength <= 32 && 1 <= d.removalDelayLength <= 32 && 1 <= d.outputDelayLength <= 32
    && d.timeOffsetLength < 32
  }

  function CpbFields(c: Cpb): seq<Field>
    requires c.rate > 0 && c.size > 0
  {
    [Ue(c.rate - 1), Ue(c.size - 1), Fixed(if c.cbr then 1 else 0, 1)]
  }

  function AllCpbFields(cpbs: seq<Cpb>): (fs: seq<Field>)
    requires forall i :: 0 <= i < |cpbs| ==> cpbs[i].rate > 0 && cpbs[i].size > 0
    ensures |fs| == 3 * |cpbs|
  {
    if cpbs == [] then []
    else AllCpbFields(cpbs[..|cpbs|-1]) + CpbFields(cpbs[|cpbs|-1])
  }

  lemma {:induction false} CpbFieldsAt(cpbs: seq<Cpb>, i: nat)
    requires i < |cpbs| && forall i :: 0 <= i < |cpbs| ==> cpbs[i].rate > 0 && cpbs[i].size > 0
    ensures AllCpbFields(cpbs)[3 * i..3 * i + 3] == CpbFields(cpbs[i])
    decreases |cpbs|
  {
    var front, last := cpbs[..|cpbs|-1], CpbFields(cpbs[|cpbs|-1]);
    var fs := AllCpbFields(front);
    if i < |front| {
      CpbFieldsAt(front, i);
      hide CpbFields;
      assert (fs + last)[3 * i..3 * i + 3] == fs[3 * i..3 * i + 3];
    } else {
      assert (fs + last)[|fs|..|fs| + 3] == last;
    }
  }

  /** The syntax elements in their order (section E.1.2 of ITU-T H.264), without the CPB count. */
  function FieldsOf(d: Declared): seq<Field>
    requires Declarable(d)
  {
    [Fixed(d.rateScale, 4), Fixed(d.sizeScale, 4)] + AllCpbFields(d.cpbs)
    + [Fixed(d.initialDelayLength - 1, 5), Fixed(d.removalDelayLength - 1, 5), Fixed(d.outputDelayLength - 1, 5),
       Fixed(d.timeOffsetLength, 5)]
  }

  /** The parameters say what was declared: scaled rates and sizes, and the lengths in their places. */
  ghost predicate Says(h: Hrd, d: Declared)
  {
    && h.cpbCount == |h.entries| == |d.cpbs|
    && (forall i :: 0 <= i < |d.cpbs| ==>
          && h.entries[i].bitRate == d.cpbs[i].rate * Pow2(6 + d.rateScale)
          && h.entries[i].cpbSize == d.cpbs[i].size * Pow2(4 + d.sizeScale)
          && h.entries[i].cbr == d.cpbs[i].cbr)
    && (h.allCbr <==> forall i :: 0 <= i < |d.cpbs| ==> d.cpbs[i].cbr)
    && h.initialDelayLength == d.initialDelayLength && h.removalDelayLength == d.removalDelayLength
    && h.outputDelayLength == d.outputDelayLength && h.timeOffsetLength == d.timeOffsetLength
  }

  lemma FieldsAt(d: Declared)
    requires Declarable(d)
    ensures var fs, n := FieldsOf(d), |d.cpbs|;
      && |fs| == 6 + 3 * n && fs[0] == Fixed(d.rateScale, 4) && fs[1] == Fixed(d.sizeScale, 4)
      && (forall i :: 0 <= i < n ==> fs[2 + 3 * i..5 + 3 * i] == CpbFields(d.cpbs[i]))
      && fs[2 + 3 * n..] == [Fixed(d.initialDelayLength - 1, 5), Fixed(d.removalDelayLength - 1, 5),
                            Fixed(d.outputDelayLength - 1, 5), Fixed(d.timeOffsetLength, 5)]
  {
    hide CpbFields;
    var cpbs := AllCpbFields(d.cpbs);
    forall i | 0 <= i < |d.cpbs| ensures FieldsOf(d)[2 + 3 * i..5 + 3 * i] == CpbFields(d.cpbs[i]) {
      CpbFieldsAt(d.cpbs, i);
      assert FieldsOf(d)[2 + 3 * i..5 + 3 * i] == cpbs[3 * i..3 * i + 3];
    }
  }

  lemma CpbAt(d: Declared, i: nat)
    requires Declarable(d) && i < |d.cpbs|
    ensures var fs := FieldsOf(d);
      && |fs| == 6 + 3 * |d.cpbs|
      && fs[2 + 3 * i] == Ue(d.cpbs[i].rate - 1) && fs[3 + 3 * i] == Ue(d.cpbs[i].size - 1)
      && fs[4 + 3 * i] == Fixed(if d.cpbs[i].cbr then 1 else 0, 1)
  {
    hide FieldsOf;
    FieldsAt(d);
    var three := FieldsOf(d)[2 + 3 * i..5 + 3 * i];
    var fs := FieldsOf(d);
    assert three[0] == fs[2 + 3 * i] && three[1] == fs[3 + 3 * i] && three[2] == fs[4 + 3 * i];
  }

  lemma DeclaredFits(d: Declared)
    requires Declarable(d)
    ensures Encodable(|d.cpbs|, FieldsOf(d))
  {
    hide FieldsOf, Fits, Shape, ShapeOf, CpbFields, Pow2;
    FieldsAt(d);
    var fs, n := FieldsOf(d), |d.cpbs|;
    forall i | 0 <= i < |fs| ensures Fits(Shape(n)[i], fs[i]) {
      if 2 <= i < 2 + 3 * n {
        CpbFits(d, (i - 2) / 3, (i - 2) % 3);
      } else {
        OuterFits(d, i);
      }
    }
  }

  lemma CpbFits(d: Declared, i: nat, part: nat)
    requires Declarable(d) && i < |d.cpbs| && part < 3
    ensures var k := 2 + 3 * i + part;
      k < |FieldsOf(d)| == 6 + 3 * |d.cpbs| && Fits(Shape(|d.cpbs|)[k], FieldsOf(d)[k])
  {
    hide FieldsOf, Pow2;
    CpbAt(d, i);
    Pow2Small();
    var k := 2 + 3 * i + part;
    assert (k - 2) % 3 == part;
  }

  lemma OuterFits(d: Declared, i: nat)
    requires Declarable(d) && (i < 2 || 2 + 3 * |d.cpbs| <= i < 6 + 3 * |d.cpbs|)
    ensures |FieldsOf(d)| == 6 + 3 * |d.cpbs| && Fits(Shape(|d.cpbs|)[i], FieldsOf(d)[i])
  {
    hide FieldsOf, Pow2, CpbFields;
    FieldsAt(d);
    Pow2Small();
    if i >= 2 {
      assert FieldsOf(d)[i] == FieldsOf(d)[2 + 3 * |d.cpbs|..][i - 2 - 3 * |d.cpbs|];
    }
  }

  lemma Pow2Small()
    ensures Pow2(1) == 2 && Pow2(4) == 16 && Pow2(5) == 32
  {
    assert Pow2(2) == 4 && Pow2(3) == 8;
  }

  lemma FromSays(d: Declared)
    requires Declarable(d)
    ensures |FieldsOf(d)| == 6 + 3 * |d.cpbs| && Says(HrdFrom(|d.cpbs|, FieldsOf(d)), d)
  {
    hide FieldsOf, Pow2, MaxRate, MaxSize;
    FieldsAt(d);
    var fs, n := FieldsOf(d), |d.cpbs|;
    var tail := fs[2 + 3 * n..];
    assert forall k :: 0 <= k < 4 ==> tail[k] == fs[2 + 3 * n + k];
    forall i | 0 <= i < n ensures EntryOf(fs, i) == CpbEntry(d.cpbs[i].rate * Pow2(6 + d.rateScale),
      d.cpbs[i].size * Pow2(4 + d.sizeScale), d.cpbs[i].cbr) {
      CpbAt(d, i);
    }
    var h := HrdFrom(n, fs);
    assert forall i :: 0 <= i < n ==> h.entries[i] == EntryOf(fs, i);
  }

  /** Whatever an encoder declares and writes is parsed as declared, with the maxima over its CPBs, and
      the reader stands right behind it. */
  lemma DeclaredRoundTrip(d: Declared, bits: BitString, pos: nat)
    requires Declarable(d) && At(bits, pos, PrintUe(|d.cpbs| - 1) + PrintAll(FieldsOf(d)))
    ensures pos <= |bits| && HrdAt(bits, pos).Ok?
    ensures var (h, end) := HrdAt(bits, pos).value;
      && Says(h, d) && WellFormed(h)
      && end == pos + |PrintUe(|d.cpbs| - 1)| + |PrintAll(FieldsOf(d))|
  {
    hide HrdAt, HrdFrom, FieldsOf, Says, WellFormed, PrintUe, PrintAll;
    DeclaredFits(d);
    FromSays(d);
    HrdRoundTrip(|d.cpbs|, FieldsOf(d), bits, pos);
    ParsedIsWellFormed(bits, pos);
  }

  /** More than 32 CPBs are refused, whatever follows. */
  lemma TooManyCpbs(count: nat, bits: BitString, pos: nat)
    requires 32 < count < 0x1_0000_0000 && At(bits, pos, PrintUe(count - 1))
    ensures pos <= |bits| && HrdAt(bits, pos) == Err(InvalidHrdCpbCount)
  {
    hide ReadAll, PrintUe, HrdFrom, ReadUeAt;
    UeExact(bits, pos, count - 1, pos + |PrintUe(count - 1)|);
  }
}
