/** The H.264 bit reader, its writer, emulation prevention and the slice header they decide frame
    starts with (crates/h264/src/bit.rs, crates/h264/src/parameter.rs). */
module Bits {
  import opened Wrappers

  const TWO_31: int := 0x8000_0000
  const TWO_32: int := 0x1_0000_0000

  type u32 = x: int | 0 <= x < TWO_32
  type i32 = x: int | -TWO_31 <= x < TWO_31
  type Bytes = seq<byte>
  type BitString = seq<bool>

  datatype BitError = EndOfData | ExpGolombOverflow

  // ---------------------------------------------------------------- numbers as bit strings

  lemma Pow2Values()
    ensures Pow2(7) == 128 && Pow2(8) == 256 && Pow2(31) == TWO_31 && Pow2(32) == TWO_32
  {
    Doubles(0, 8);
    Doubles(8, 8);
    Doubles(16, 8);
    Doubles(24, 8);
  }

  lemma Doubles(n: nat, k: nat)
    requires k == 8
    ensures Pow2(n + 8) == 256 * Pow2(n) && Pow2(n + 7) == 128 * Pow2(n)
  {
    assert Pow2(n + 1) == 2 * Pow2(n) && Pow2(n + 2) == 2 * Pow2(n + 1) && Pow2(n + 3) == 2 * Pow2(n + 2);
    assert Pow2(n + 4) == 2 * Pow2(n + 3) && Pow2(n + 5) == 2 * Pow2(n + 4) && Pow2(n + 6) == 2 * Pow2(n + 5);
    assert Pow2(n + 7) == 2 * Pow2(n + 6) && Pow2(n + 8) == 2 * Pow2(n + 7);
  }

  /** The number spelled by `count` bits from a position, most significant first. */
  function Word(bits: BitString, pos: nat, count: nat): (w: nat)
    requires pos + count <= |bits|
    ensures w < Pow2(count)
    decreases count
  {
    if count == 0 then 0 else 2 * Word(bits, pos, count - 1) + (if bits[pos + count - 1] then 1 else 0)
  }

  /** The `count` low bits of a number, most significant first. */
  function PrintBits(value: nat, count: nat): (b: BitString)
    ensures |b| == count
  {
    if count == 0 then [] else PrintBits(value / 2, count - 1) + [value % 2 == 1]
  }

  /** `bits` continues with `b` at `pos`. */
  ghost predicate At(bits: BitString, pos: nat, b: BitString)
  {
    pos + |b| <= |bits| && forall i :: 0 <= i < |b| ==> bits[pos + i] == b[i]
  }

  lemma AtSplit(bits: BitString, pos: nat, a: BitString, b: BitString)
    ensures At(bits, pos, a + b) <==> At(bits, pos, a) && At(bits, pos + |a|, b)
  {
    if At(bits, pos, a + b) {
      forall i | 0 <= i < |a| ensures bits[pos + i] == a[i] {
        assert (a + b)[i] == a[i];
      }
      forall i | 0 <= i < |b| ensures bits[pos + |a| + i] == b[i] {
        assert (a + b)[|a| + i] == b[i];
      }
    }
    if At(bits, pos, a) && At(bits, pos + |a|, b) {
      forall i | 0 <= i < |a + b| ensures bits[pos + i] == (a + b)[i] {
        assert i < |a| || (a + b)[i] == b[i - |a|];
      }
    }
  }

  /** Printing inverts reading a word, and reading inverts printing. */
  lemma {:induction false} WordPrinted(bits: BitString, pos: nat, count: nat)
    requires pos + count <= |bits|
    ensures At(bits, pos, PrintBits(Word(bits, pos, count), count))
    decreases count
  {
    if count > 0 {
      WordPrinted(bits, pos, count - 1);
    }
  }

  lemma {:induction false} PrintedWord(bits: BitString, pos: nat, value: nat, count: nat)
    requires At(bits, pos, PrintBits(value, count)) && value < Pow2(count)
    ensures Word(bits, pos, count) == value
    decreases count
  {
    if count > 0 {
      var front := PrintBits(value / 2, count - 1);
      var all := PrintBits(value, count);
      assert forall i :: 0 <= i < count - 1 ==> all[i] == front[i];
      assert all[count - 1] == (value % 2 == 1);
      PrintedWord(bits, pos, value / 2, count - 1);
    }
  }

  lemma {:induction false} WordLead(bits: BitString, pos: nat, count: nat)
    requires pos + count + 1 <= |bits|
    ensures Word(bits, pos, count + 1) == (if bits[pos] then Pow2(count) else 0) + Word(bits, pos + 1, count)
    decreases count
  {
    if count > 0 {
      WordLead(bits, pos, count - 1);
    } else {
      assert Word(bits, pos, 0) == 0;
    }
  }

  // ---------------------------------------------------------------- reading

  /** A right shift. */
  function Shift(value: nat, n: nat): nat
  {
    if n == 0 then value else Shift(value, n - 1) / 2
  }

  lemma {:induction false} ShiftHalf(value: nat, n: nat)
    ensures Shift(value / 2, n) == Shift(value, n + 1)
    decreases n
  {
    if n > 0 {
      ShiftHalf(value, n - 1);
    } else {
      assert Shift(value, 0) == value;
    }
  }

  /** Bit `k` of a byte, bit 0 the most significant: the bit a mask with 1 shifted left selects. */
  function BitOf(b: byte, k: nat): bool
    requires k < 8
  {
    Shift(b, 7 - k) % 2 == 1
  }

  function BitsOf(data: Bytes): (bits: BitString)
    ensures |bits| == 8 * |data|
    ensures forall i :: 0 <= i < |bits| ==> bits[i] == BitOf(data[i / 8], i % 8)
  {
    seq(8 * |data|, i requires 0 <= i < 8 * |data| => BitOf(data[i / 8], i % 8))
  }

  /** The outcome of one read and the position it leaves the reader at. */
  datatype Read<T> = Read(result: Result<T, BitError>, position: nat)

  function ReadBitAt(bits: BitString, pos: nat): Read<bool>
    requires pos <= |bits|
  {
    if pos < |bits| then Read(Ok(bits[pos]), pos + 1) else Read(Err(EndOfData), pos)
  }

  function ReadBitsAt(bits: BitString, pos: nat, count: nat): Read<nat>
    requires pos <= |bits|
  {
    if count > 32 then Read(Err(ExpGolombOverflow), pos)
    else if pos + count <= |bits| then Read(Ok(Word(bits, pos, count)), pos + count)
    else Read(Err(EndOfData), |bits|)
  }

  /** The number of zero bits before the next one bit, or before the end. */
  function Zeros(bits: BitString, pos: nat): (n: nat)
    requires pos <= |bits|
    ensures pos + n <= |bits| && forall i :: pos <= i < pos + n ==> !bits[i]
    ensures pos + n < |bits| ==> bits[pos + n]
    decreases |bits| - pos
  {
    if pos == |bits| || bits[pos] then 0 else 1 + Zeros(bits, pos + 1)
  }

  ghost predicate ZeroRun(bits: BitString, pos: nat, n: nat)
  {
    pos + n <= |bits| && forall i :: pos <= i < pos + n ==> !bits[i]
  }

  lemma {:induction false} ZerosAtLeast(bits: BitString, pos: nat, n: nat)
    requires ZeroRun(bits, pos, n)
    ensures Zeros(bits, pos) >= n
    decreases n
  {
    if n > 0 {
      ZerosAtLeast(bits, pos + 1, n - 1);
    }
  }

  lemma {:induction false} ZerosUnique(bits: BitString, pos: nat, n: nat)
    requires ZeroRun(bits, pos, n) && (pos + n < |bits| ==> bits[pos + n])
    ensures Zeros(bits, pos) == n
    decreases n
  {
    if n > 0 {
      ZerosUnique(bits, pos + 1, n - 1);
    }
  }

  /** An Exp-Golomb code is `n` zeros and the `n + 1` bits of the value plus one. */
  function ReadUeAt(bits: BitString, pos: nat): (r: Read<nat>)
    requires pos <= |bits|
    ensures r.position <= |bits|
  {
    var n := Zeros(bits, pos);
    if n > 31 then Read(Err(ExpGolombOverflow), pos + 32)
    else if pos + n == |bits| || pos + 2 * n + 1 > |bits| then Read(Err(EndOfData), |bits|)
    else
      CodePositive(bits, pos);
      Read(Ok(Word(bits, pos + n, n + 1) - 1), pos + 2 * n + 1)
  }

  lemma {:induction false} CodePositive(bits: BitString, pos: nat)
    requires pos <= |bits| && pos + 2 * Zeros(bits, pos) + 1 <= |bits|
    ensures var n := Zeros(bits, pos);
      && Word(bits, pos + n, n + 1) == Pow2(n) + Word(bits, pos + n + 1, n)
      && Word(bits, pos + n, n + 1) < 2 * Pow2(n)
  {
    WordLead(bits, pos + Zeros(bits, pos), Zeros(bits, pos));
  }

  /** 0, 1, -1, 2, -2, ... */
  function Unfold(code: nat): int
  {
    if code % 2 == 0 then -(code / 2) else (code + 1) / 2
  }

  lemma Halves(n: nat)
    ensures 2 * n / 2 == n && 2 * n % 2 == 0
    ensures n > 0 ==> (2 * n - 1) % 2 == 1
  {
  }

  function Fold(value: int): (code: nat)
    ensures Unfold(code) == value
  {
    Halves(if value > 0 then value else -value);
    if value > 0 then 2 * value - 1 else -2 * value
  }

  function ReadSeAt(bits: BitString, pos: nat): Read<int>
    requires pos <= |bits|
  {
    var u := ReadUeAt(bits, pos);
    Read(if u.result.Ok? then Ok(Unfold(u.result.value)) else Err(u.result.error), u.position)
  }

  class BitReader {
    const data: Bytes
    var position: nat

    ghost predicate Valid()
      reads this
    {
      position <= 8 * |data|
    }

    constructor (data: Bytes)
      ensures Valid() && this.data == data && position == 0
    {
      this.data, position := data, 0;
    }

    method ReadBit() returns (r: Result<bool, BitError>)
      requires Valid()
      modifies this
      ensures Valid() && Read(r, position) == ReadBitAt(BitsOf(data), old(position))
    {
      if position / 8 >= |data| {
        return Err(EndOfData);
      }
      var value := Shift(data[position / 8], 7 - position % 8) % 2 == 1;
      position := position + 1;
      return Ok(value);
    }

    method ReadBits(count: nat) returns (r: Result<u32, BitError>)
      requires Valid()
      modifies this
      ensures Valid() && Read(r, position) == ReadBitsAt(BitsOf(data), old(position), count)
    {
      hide BitsOf, BitOf, Pow2;
      if count > 32 {
        return Err(ExpGolombOverflow);
      }
      ghost var bits, start := BitsOf(data), position;
      var value: u32 := 0;
      for i := 0 to count
        invariant position == start + i <= |bits| && value == Word(bits, start, i)
      {
        var bit := ReadBit();
        if bit.Err? {
          return Err(bit.error);
        }
        WordFits(bits, start, i + 1);
        value := 2 * value + (if bit.value then 1 else 0);
      }
      return Ok(value);
    }

    method ReadUe() returns (r: Result<u32, BitError>)
      requires Valid()
      modifies this
      ensures Valid() && Read(r, position) == ReadUeAt(BitsOf(data), old(position))
    {
      hide Zeros, Word, Pow2, BitsOf, BitOf;
      ghost var bits, start := BitsOf(data), position;
      var leadingZeros := 0;
      var bit := ReadBit();
      while bit == Ok(false)
        invariant leadingZeros <= 31 && start + leadingZeros <= |bits|
        invariant Read(bit, position) == ReadBitAt(bits, start + leadingZeros)
        invariant ZeroRun(bits, start, leadingZeros)
        decreases 32 - leadingZeros
      {
        leadingZeros := leadingZeros + 1;
        if leadingZeros > 31 {
          ZerosAtLeast(bits, start, leadingZeros);
          return Err(ExpGolombOverflow);
        }
        bit := ReadBit();
      }
      ZerosUnique(bits, start, leadingZeros);
      if bit.Err? {
        return Err(bit.error);
      }
      if leadingZeros == 0 {
        WordOne(bits, start);
        return Ok(0);
      }
      var low := ReadBits(leadingZeros);
      if low.Err? {
        return Err(low.error);
      }
      UeFits(bits, start);
      return Ok(Pow2(leadingZeros) - 1 + low.value);
    }

    method ReadSe() returns (r: Result<i32, BitError>)
      requires Valid()
      modifies this
      ensures Valid() && Read(r, position) == ReadSeAt(BitsOf(data), old(position))
    {
      hide Zeros, Word, BitsOf, BitOf, ReadUeAt, Pow2;
      var code := ReadUe();
      if code.Err? {
        return Err(code.error);
      }
      UeRange(BitsOf(data), old(position));
      var magnitude := (code.value + 1) / 2;
      assert magnitude < TWO_31;
      var number: i32 := if code.value % 2 == 0 then -magnitude else magnitude;
      return Ok(number);
    }
  }

  lemma {:induction false} WordFits(bits: BitString, pos: nat, count: nat)
    requires pos + count <= |bits| && count <= 32
    ensures Word(bits, pos, count) < TWO_32
  {
    Pow2Monotone(count, 32);
    Pow2Values();
  }

  lemma {:induction false} WordOne(bits: BitString, pos: nat)
    requires pos < |bits| && bits[pos]
    ensures Word(bits, pos, 1) == 1
  {
    assert Word(bits, pos, 0) == 0;
  }

  lemma {:induction false} UeFits(bits: BitString, pos: nat)
    requires pos <= |bits| && Zeros(bits, pos) <= 31 && pos + 2 * Zeros(bits, pos) + 1 <= |bits|
    ensures var n := Zeros(bits, pos);
      && Word(bits, pos + n, n + 1) == Pow2(n) + Word(bits, pos + n + 1, n)
      && 0 < Word(bits, pos + n, n + 1) < TWO_32
  {
    CodePositive(bits, pos);
    WordFits(bits, pos + Zeros(bits, pos), Zeros(bits, pos) + 1);
  }

  lemma UeRange(bits: BitString, pos: nat)
    requires pos <= |bits| && ReadUeAt(bits, pos).result.Ok?
    ensures ReadUeAt(bits, pos).result.value <= TWO_32 - 2
  {
    hide Zeros, Word;
    UeFits(bits, pos);
  }

  // ---------------------------------------------------------------- writing

  /** Bits needed to write a number. */
  function Width(code: nat): (w: nat)
    ensures code < Pow2(w) && (code > 0 ==> w > 0 && Pow2(w - 1) <= code)
  {
    if code == 0 then 0 else 1 + Width(code / 2)
  }

  lemma WidthUnique(code: nat, w: nat)
    requires w > 0 && Pow2(w - 1) <= code < Pow2(w)
    ensures Width(code) == w
  {
    var v := Width(code);
    if v < w {
      Pow2Monotone(v, w - 1);
    } else if v > w {
      Pow2Monotone(w, v - 1);
    }
  }

  function PrintZeros(n: nat): (z: BitString)
    ensures |z| == n && forall i :: 0 <= i < n ==> !z[i]
  {
    seq(n, i => false)
  }

  function PrintUe(value: nat): BitString
  {
    PrintZeros(Width(value + 1) - 1) + PrintBits(value + 1, Width(value + 1))
  }

  lemma {:induction false} LeadingBit(value: nat, count: nat)
    requires count > 0 && value < Pow2(count)
    ensures PrintBits(value, count)[0] == (value >= Pow2(count - 1))
    decreases count
  {
    if count > 1 {
      LeadingBit(value / 2, count - 1);
    }
  }

  /** A code is read as a value, up to a position, exactly when it is that value's code. */
  lemma UeExact(bits: BitString, pos: nat, value: nat, next: nat)
    requires pos <= |bits|
    ensures ReadUeAt(bits, pos) == Read(Ok(value), next)
      <==> value <= TWO_32 - 2 && At(bits, pos, PrintUe(value)) && next == pos + |PrintUe(value)|
  {
    if ReadUeAt(bits, pos) == Read(Ok(value), next) {
      UeRange(bits, pos);
      UePrinted(bits, pos);
    }
    if value <= TWO_32 - 2 && At(bits, pos, PrintUe(value)) {
      UeReads(bits, pos, value);
    }
  }

  lemma UeReads(bits: BitString, pos: nat, value: nat)
    requires value <= TWO_32 - 2 && At(bits, pos, PrintUe(value))
    ensures ReadUeAt(bits, pos) == Read(Ok(value), pos + |PrintUe(value)|)
  {
    hide PrintBits, Zeros, Word, Pow2, At, Width, PrintZeros, ZeroRun;
    var w := Width(value + 1);
    CodeLaid(bits, pos, value);
    ShortCode(value);
    ZerosUnique(bits, pos, w - 1);
    PrintedWord(bits, pos + w - 1, value + 1, w);
  }

  lemma ShortCode(value: nat)
    requires value <= TWO_32 - 2
    ensures 1 <= Width(value + 1) <= 32
  {
    hide Width, Pow2;
    var w := Width(value + 1);
    if w > 32 {
      Pow2Monotone(32, w - 1);
      Pow2Values();
    }
  }

  lemma {:induction false} CodeLaid(bits: BitString, pos: nat, value: nat)
    requires At(bits, pos, PrintUe(value))
    ensures var w := Width(value + 1);
      && ZeroRun(bits, pos, w - 1) && pos + 2 * w - 1 <= |bits| && bits[pos + w - 1]
      && At(bits, pos + w - 1, PrintBits(value + 1, w))
  {
    hide PrintBits, Pow2, Width;
    var n, w := Width(value + 1) - 1, Width(value + 1);
    AtSplit(bits, pos, PrintZeros(n), PrintBits(value + 1, w));
    LeadingBit(value + 1, w);
    assert bits[pos + n + 0] == PrintBits(value + 1, w)[0];
    forall i | pos <= i < pos + n ensures !bits[i] {
      assert bits[pos + (i - pos)] == PrintZeros(n)[i - pos];
    }
  }

  lemma UePrinted(bits: BitString, pos: nat)
    requires pos <= |bits| && ReadUeAt(bits, pos).result.Ok?
    ensures var u := ReadUeAt(bits, pos);
      At(bits, pos, PrintUe(u.result.value)) && u.position == pos + |PrintUe(u.result.value)|
  {
    hide PrintBits, Zeros, Word, Pow2;
    var n := Zeros(bits, pos);
    var code := Word(bits, pos + n, n + 1);
    CodePositive(bits, pos);
    WidthOfCode(code, n);
    WordPrinted(bits, pos + n, n + 1);
    ZerosPrinted(bits, pos);
    AtSplit(bits, pos, PrintZeros(n), PrintBits(code, n + 1));
  }

  lemma {:induction false} WidthOfCode(code: nat, n: nat)
    requires Pow2(n) <= code < 2 * Pow2(n)
    ensures Width(code) == n + 1
  {
    assert Pow2(n + 1) == 2 * Pow2(n);
    WidthUnique(code, n + 1);
  }

  lemma {:induction false} ZerosPrinted(bits: BitString, pos: nat)
    requires pos <= |bits|
    ensures At(bits, pos, PrintZeros(Zeros(bits, pos)))
  {
    hide Zeros;
  }

  /** One syntax element: a fixed-width number, an unsigned or a signed Exp-Golomb code. */
  datatype Field = Fixed(value: nat, count: nat) | Ue(code: nat) | Se(number: int)

  ghost predicate Printable(f: Field)
  {
    match f
    case Fixed(v, c) => c <= 32 && v < Pow2(c)
    case Ue(v) => v <= TWO_32 - 2
    case Se(v) => -TWO_31 < v < TWO_31
  }

  function Print(f: Field): BitString
  {
    match f
    case Fixed(v, c) => PrintBits(v, c)
    case Ue(v) => PrintUe(v)
    case Se(v) => PrintUe(Fold(v))
  }

  function PrintAll(fs: seq<Field>): BitString
  {
    if fs == [] then [] else Print(fs[0]) + PrintAll(fs[1..])
  }

  /** Reads an element of the same kind as `shape`, whatever number `shape` holds. */
  function ReadField(shape: Field, bits: BitString, pos: nat): Read<Field>
    requires pos <= |bits|
  {
    match shape
    case Fixed(_, c) =>
      var r := ReadBitsAt(bits, pos, c);
      Read(if r.result.Ok? then Ok(Fixed(r.result.value, c)) else Err(r.result.error), r.position)
    case Ue(_) =>
      var r := ReadUeAt(bits, pos);
      Read(if r.result.Ok? then Ok(Ue(r.result.value)) else Err(r.result.error), r.position)
    case Se(_) =>
      var r := ReadSeAt(bits, pos);
      Read(if r.result.Ok? then Ok(Se(r.result.value)) else Err(r.result.error), r.position)
  }

  lemma ReadFieldBound(shape: Field, bits: BitString, pos: nat)
    requires pos <= |bits|
    ensures ReadField(shape, bits, pos).position <= |bits|
  {
  }

  function ReadAll(shapes: seq<Field>, bits: BitString, pos: nat): Read<seq<Field>>
    requires pos <= |bits|
  {
    if shapes == [] then Read(Ok([]), pos)
    else
      var first := ReadField(shapes[0], bits, pos);
      ReadFieldBound(shapes[0], bits, pos);
      if first.result.Err? then Read(Err(first.result.error), first.position)
      else
        var others := ReadAll(shapes[1..], bits, first.position);
        Read(if others.result.Ok? then Ok([first.result.value] + others.result.value) else Err(others.result.error),
             others.position)
  }

  lemma FieldRoundTrip(f: Field, bits: BitString, pos: nat)
    requires Printable(f) && At(bits, pos, Print(f))
    ensures ReadField(f, bits, pos) == Read(Ok(f), pos + |Print(f)|)
  {
    hide PrintUe;
    match f {
      case Fixed(v, c) => PrintedWord(bits, pos, v, c);
      case Ue(v) => UeExact(bits, pos, v, pos + |PrintUe(v)|);
      case Se(v) => UeExact(bits, pos, Fold(v), pos + |PrintUe(Fold(v))|);
    }
  }

  /** Any list of printable elements reads back identically, from wherever it stands. */
  lemma {:induction false} FieldsRoundTrip(fs: seq<Field>, bits: BitString, pos: nat)
    requires pos <= |bits| && (forall i :: 0 <= i < |fs| ==> Printable(fs[i])) && At(bits, pos, PrintAll(fs))
    ensures ReadAll(fs, bits, pos) == Read(Ok(fs), pos + |PrintAll(fs)|)
    decreases |fs|
  {
    hide ReadField, Print, Printable, At;
    if fs != [] {
      AtSplit(bits, pos, Print(fs[0]), PrintAll(fs[1..]));
      FieldRoundTrip(fs[0], bits, pos);
      ReadFieldBound(fs[0], bits, pos);
      FieldsRoundTrip(fs[1..], bits, pos + |Print(fs[0])|);
      assert fs == [fs[0]] + fs[1..];
    }
  }

  // ---------------------------------------------------------------- the writer

  lemma {:induction false} PrintedBit(value: nat, count: nat, k: nat)
    requires k < count
    ensures PrintBits(value, count)[k] == (Shift(value, count - 1 - k) % 2 == 1)
    decreases count
  {
    if k < count - 1 {
      PrintedBit(value / 2, count - 1, k);
      ShiftHalf(value, count - 2 - k);
    }
  }

  /** Closed by a one bit and padded to whole bytes. */
  function Stopped(bits: BitString): (s: BitString)
    ensures |s| % 8 == 0
  {
    bits + [true] + PrintZeros((7 - |bits| % 8) % 8)
  }

  function Pack(bits: BitString): (data: Bytes)
    requires |bits| % 8 == 0
    ensures 8 * |data| == |bits|
  {
    if bits == [] then []
    else
      Pow2Values();
      [Word(bits, 0, 8)] + Pack(bits[8..])
  }

  lemma {:induction false} PackedByte(bits: BitString, k: nat)
    requires |bits| >= 8 && k < 8
    ensures Word(bits, 0, 8) < 256 && BitOf(Word(bits, 0, 8), k) == bits[k]
  {
    hide Word;
    Pow2Values();
    WordPrinted(bits, 0, 8);
    PrintedBit(Word(bits, 0, 8), 8, k);
    assert bits[0 + k] == PrintBits(Word(bits, 0, 8), 8)[k];
  }

  lemma {:induction false} PackExact(bits: BitString)
    requires |bits| % 8 == 0
    ensures BitsOf(Pack(bits)) == bits
    decreases |bits|
  {
    hide Word, BitOf;
    if bits != [] {
      PackExact(bits[8..]);
      var data, rest := Pack(bits), Pack(bits[8..]);
      forall i | 0 <= i < |bits| ensures BitsOf(data)[i] == bits[i] {
        if i < 8 {
          PackedByte(bits, i);
        } else {
          assert i / 8 == (i - 8) / 8 + 1 && i % 8 == (i - 8) % 8;
          assert BitsOf(rest)[i - 8] == BitOf(rest[(i - 8) / 8], (i - 8) % 8);
          assert data[i / 8] == rest[(i - 8) / 8];
        }
      }
    }
  }

  lemma NoZeros()
    ensures PrintZeros(0) == []
  {
  }

  lemma MoreZeros(front: BitString, n: nat)
    ensures front + PrintZeros(n) + [false] == front + PrintZeros(n + 1)
  {
    assert PrintZeros(n + 1) == PrintZeros(n) + [false];
  }

  class BitWriter {
    var bits: BitString

    constructor ()
      ensures bits == []
    {
      bits := [];
    }

    method Bit(value: bool)
      modifies this
      ensures bits == old(bits) + [value]
    {
      bits := bits + [value];
    }

    method Bits(value: nat, count: nat)
      modifies this
      ensures bits == old(bits) + PrintBits(value, count)
    {
      ghost var front := bits;
      for shift := count downto 0
        invariant bits == front + PrintBits(Shift(value, shift), count - shift)
      {
        Bit(Shift(value, shift) % 2 == 1);
      }
    }

    /** The largest 32-bit value has no code within 32 bits: adding one to it overflows in the original. */
    method Ue(value: u32)
      requires value < TWO_32 - 1
      modifies this
      ensures bits == old(bits) + PrintUe(value)
    {
      var code := value + 1;
      var width := Width(code);
      ghost var front := bits;
      for i := 1 to width
        invariant bits == front + PrintZeros(i - 1)
      {
        assert PrintZeros(i) == PrintZeros(i - 1) + [false];
        Bit(false);
      }
      Bits(code, width);
    }

    method Finish() returns (data: Bytes)
      modifies this
      ensures data == Pack(Stopped(old(bits)))
    {
      hide Pack, PrintZeros;
      ghost var front := bits;
      Bit(true);
      ghost var n := 0;
      NoZeros();
      assert front + [true] + [] == front + [true];
      while |bits| % 8 != 0
        invariant bits == front + [true] + PrintZeros(n) && |bits| == |front| + 1 + n
        invariant n <= (7 - |front| % 8) % 8
        decreases 8 - n
      {
        MoreZeros(front + [true], n);
        Bit(false);
        n := n + 1;
      }
      assert n == (7 - |front| % 8) % 8;
      data := Chunks();
    }

    /** Whole bytes, eight bits each. */
    method Chunks() returns (data: Bytes)
      requires |bits| % 8 == 0
      ensures data == Pack(bits)
    {
      hide Pack;
      data := [];
      var i := 0;
      while i < |bits|
        invariant i % 8 == 0 && i <= |bits|
        invariant data == Pack(bits[..i])
      {
        var chunk: nat := 0;
        for k := 0 to 8
          invariant chunk == Word(bits, i, k)
        {
          chunk := 2 * chunk + (if bits[i + k] then 1 else 0);
        }
        PackSnoc(bits, i);
        data := data + [chunk];
        i := i + 8;
      }
      assert bits[..i] == bits;
    }
  }

  lemma PackNothing()
    ensures Pack([]) == []
  {
  }

  lemma {:induction false} PackSnoc(bits: BitString, i: nat)
    requires i % 8 == 0 && i + 8 <= |bits|
    ensures Word(bits, i, 8) < 256 && Pack(bits[..i + 8]) == Pack(bits[..i]) + [Word(bits, i, 8)]
    decreases i
  {
    hide Word;
    Pow2Values();
    WordPrefix(bits, i + 8, 0, 8);
    if i == 0 {
      assert bits[..8][8..] == [] && bits[..0] == [];
      PackNothing();
    } else {
      WordPrefix(bits, i, 0, 8);
      WordSlice(bits, 8, i - 8, 8);
      PackSnoc(bits[8..], i - 8);
      assert bits[8..][..i] == bits[..i + 8][8..];
      assert bits[8..][..i - 8] == bits[..i][8..];
    }
  }

  lemma {:induction false} WordPrefix(bits: BitString, end: nat, pos: nat, count: nat)
    requires pos + count <= end <= |bits|
    ensures Word(bits[..end], pos, count) == Word(bits, pos, count)
    decreases count
  {
    if count > 0 {
      WordPrefix(bits, end, pos, count - 1);
    }
  }

  lemma {:induction false} WordSlice(bits: BitString, from: nat, pos: nat, count: nat)
    requires from + pos + count <= |bits|
    ensures Word(bits[from..], pos, count) == Word(bits, from + pos, count)
    decreases count
  {
    if count > 0 {
      WordSlice(bits, from, pos, count - 1);
    }
  }

  /** What is written through the writer and closed reads back identically from the bytes. */
  lemma WriterRoundTrip(fs: seq<Field>)
    requires forall i :: 0 <= i < |fs| ==> Printable(fs[i])
    ensures ReadAll(fs, BitsOf(Pack(Stopped(PrintAll(fs)))), 0) == Read(Ok(fs), |PrintAll(fs)|)
  {
    hide PrintAll, BitsOf;
    PackExact(Stopped(PrintAll(fs)));
    FieldsRoundTrip(fs, BitsOf(Pack(Stopped(PrintAll(fs)))), 0);
  }

  // ---------------------------------------------------------------- emulation prevention

  /** Zero bytes in a row after one more byte. */
  function NextZeros(zeros: nat, b: byte): nat
  {
    if b == 0 then zeros + 1 else 0
  }

  function Unescape(b: Bytes, zeros: nat): Bytes
  {
    if b == [] then []
    else if zeros >= 2 && b[0] == 3 then Unescape(b[1..], 0)
    else [b[0]] + Unescape(b[1..], NextZeros(zeros, b[0]))
  }

  /** Emulation prevention: a 3 goes before any byte up to 3 that follows two zeros. */
  function Escape(b: Bytes, zeros: nat): Bytes
  {
    if b == [] then []
    else if zeros >= 2 && b[0] <= 3 then [3, b[0]] + Escape(b[1..], NextZeros(0, b[0]))
    else [b[0]] + Escape(b[1..], NextZeros(zeros, b[0]))
  }

  method EbspToRbsp(input: Bytes) returns (output: Bytes)
    ensures output == Unescape(input, 0)
  {
    output := [];
    var zeroCount := 0;
    for i := 0 to |input|
      invariant output + Unescape(input[i..], zeroCount) == Unescape(input, 0)
    {
      assert input[i..][1..] == input[i + 1..];
      if zeroCount >= 2 && input[i] == 3 {
        zeroCount := 0;
        continue;
      }
      assert output + [input[i]] + Unescape(input[i + 1..], NextZeros(zeroCount, input[i]))
          == output + ([input[i]] + Unescape(input[i + 1..], NextZeros(zeroCount, input[i])));
      output := output + [input[i]];
      if input[i] == 0 {
        zeroCount := zeroCount + 1;
      } else {
        zeroCount := 0;
      }
    }
  }

  /** Removal inverts insertion on every byte string. */
  lemma {:induction false} EscapeRoundTrip(b: Bytes, zeros: nat)
    ensures Unescape(Escape(b, zeros), zeros) == b
    decreases |b|
  {
    if b != [] {
      var tail := Escape(b[1..], if zeros >= 2 && b[0] <= 3 then NextZeros(0, b[0]) else NextZeros(zeros, b[0]));
      if zeros >= 2 && b[0] <= 3 {
        EscapeRoundTrip(b[1..], NextZeros(0, b[0]));
        assert ([3, b[0]] + tail)[1..] == [b[0]] + tail;
        assert ([b[0]] + tail)[1..] == tail;
      } else {
        EscapeRoundTrip(b[1..], NextZeros(zeros, b[0]));
        assert ([b[0]] + tail)[1..] == tail;
      }
    }
  }

  /** After two zeros comes no byte below 3, and a 3 only before a byte up to 3. */
  ghost predicate Escaped(b: Bytes)
  {
    forall i, j :: 2 <= i < |b| && j == i - 1 && b[j] == 0 && b[i - 2] == 0 ==> SafeAt(b, i)
  }

  ghost predicate SafeAt(b: Bytes, i: nat)
    requires i < |b|
  {
    b[i] >= 3 && (b[i] == 3 ==> i + 1 < |b| && b[i + 1] <= 3)
  }

  /** The same condition, byte by byte, behind a number of zeros already seen. */
  ghost predicate EscapedFrom(b: Bytes, zeros: nat)
  {
    b != [] ==> (zeros >= 2 ==> SafeAt(b, 0)) && EscapedFrom(b[1..], NextZeros(zeros, b[0]))
  }

  /** Zero bytes in a row before a position. */
  function ZerosBefore(b: Bytes, k: nat): (zeros: nat)
    requires k <= |b|
    ensures zeros >= 2 <==> k >= 2 && b[k - 1] == 0 && b[k - 2] == 0
    ensures zeros >= 1 <==> k >= 1 && b[k - 1] == 0
  {
    if k == 0 then 0 else NextZeros(ZerosBefore(b, k - 1), b[k - 1])
  }

  lemma {:induction false} EscapedScan(b: Bytes, k: nat)
    requires k <= |b|
    ensures EscapedFrom(b[k..], ZerosBefore(b, k))
      <==> forall i :: k <= i < |b| && ZerosBefore(b, i) >= 2 ==> SafeAt(b, i)
    decreases |b| - k
  {
    if k < |b| {
      EscapedScan(b, k + 1);
      assert b[k..][1..] == b[k + 1..];
      assert SafeAt(b[k..], 0) == SafeAt(b, k);
    }
  }

  lemma {:induction false} EscapedIff(b: Bytes)
    ensures Escaped(b) <==> EscapedFrom(b, 0)
  {
    EscapedScan(b, 0);
    assert b[0..] == b;
  }

  lemma {:induction false} EscapeSafe(b: Bytes, zeros: nat)
    ensures EscapedFrom(Escape(b, zeros), zeros)
    decreases |b|
  {
    if b != [] {
      if zeros >= 2 && b[0] <= 3 {
        var tail := Escape(b[1..], NextZeros(0, b[0]));
        EscapeSafe(b[1..], NextZeros(0, b[0]));
        assert ([3, b[0]] + tail)[1..] == [b[0]] + tail;
        assert ([b[0]] + tail)[1..] == tail;
      } else {
        var tail := Escape(b[1..], NextZeros(zeros, b[0]));
        EscapeSafe(b[1..], NextZeros(zeros, b[0]));
        assert ([b[0]] + tail)[1..] == tail;
      }
    }
  }

  lemma {:induction false} EscapedReturns(b: Bytes, zeros: nat)
    requires EscapedFrom(b, zeros)
    ensures Escape(Unescape(b, zeros), zeros) == b
    decreases |b|
  {
    if b != [] {
      if zeros >= 2 && b[0] == 3 {
        var n := NextZeros(0, b[1]);
        assert EscapedFrom(b[1..], 0) && b[1..][1..] == b[2..] && b[1..][0] == b[1];
        EscapedReturns(b[2..], n);
        var inner := Unescape(b[2..], n);
        assert ([b[1]] + inner)[1..] == inner;
        assert b == [3, b[1]] + b[2..];
      } else {
        var n := NextZeros(zeros, b[0]);
        EscapedReturns(b[1..], n);
        var inner := Unescape(b[1..], n);
        assert ([b[0]] + inner)[1..] == inner;
        assert b == [b[0]] + b[1..];
      }
    }
  }

  /** Insertion inverts removal exactly on the byte strings that insertion can produce. */
  lemma {:induction false} UnescapeInvertible(b: Bytes)
    ensures Escape(Unescape(b, 0), 0) == b <==> Escaped(b)
  {
    EscapedIff(b);
    EscapeSafe(Unescape(b, 0), 0);
    if EscapedFrom(b, 0) {
      EscapedReturns(b, 0);
    }
  }

  // ---------------------------------------------------------------- slice header

  datatype ParameterError = WrongNaluType | InvalidHrdCpbCount | Broken(bit: BitError)

  datatype SliceHeader = SliceHeader(firstMbInSlice: nat, sliceType: nat, ppsId: nat, idr: bool, nalRefIdc: nat)

  method ParseSliceHeader(nalu: Bytes) returns (r: Result<SliceHeader, ParameterError>)
    ensures r == SliceHeaderOf(nalu)
  {
    hide ReadUeAt;
    if nalu == [] {
      return Err(Broken(EndOfData));
    }
    var header := nalu[0];
    var naluType := header % 32;
    if naluType != 1 && naluType != 5 {
      return Err(WrongNaluType);
    }
    var rbsp := EbspToRbsp(nalu[1..]);
    var bits := new BitReader(rbsp);
    var firstMb := bits.ReadUe();
    if firstMb.Err? {
      return Err(Broken(firstMb.error));
    }
    var sliceType := bits.ReadUe();
    if sliceType.Err? {
      return Err(Broken(sliceType.error));
    }
    var ppsId := bits.ReadUe();
    if ppsId.Err? {
      return Err(Broken(ppsId.error));
    }
    return Ok(SliceHeader(firstMb.value, sliceType.value % 5, ppsId.value, naluType == 5, (header / 32) % 4));
  }

  /** A slice NALU's first three elements, after removing emulation prevention. */
  function SliceHeaderOf(nalu: Bytes): Result<SliceHeader, ParameterError>
  {
    if nalu == [] then Err(Broken(EndOfData))
    else if nalu[0] % 32 != 1 && nalu[0] % 32 != 5 then Err(WrongNaluType)
    else
      var bits := BitsOf(Unescape(nalu[1..], 0));
      var a := ReadUeAt(bits, 0);
      if a.result.Err? then Err(Broken(a.result.error))
      else
        var b := ReadUeAt(bits, a.position);
        if b.result.Err? then Err(Broken(b.result.error))
        else
          var c := ReadUeAt(bits, b.position);
          if c.result.Err? then Err(Broken(c.result.error))
          else Ok(SliceHeader(a.result.value, b.result.value % 5, c.result.value, nalu[0] % 32 == 5,
            (nalu[0] / 32) % 4))
  }

  /** An encoder's slice: the header byte, then the elements printed, closed and escaped. */
  function SliceNalu(header: byte, fs: seq<Field>): Bytes
  {
    [header] + Escape(Pack(Stopped(PrintAll(fs))), 0)
  }

  /** Every encoded slice header is parsed as encoded, whatever elements follow it. */
  lemma SliceHeaderRoundTrip(header: byte, firstMb: nat, sliceType: nat, ppsId: nat, more: seq<Field>)
    requires header % 32 == 1 || header % 32 == 5
    requires firstMb <= TWO_32 - 2 && sliceType <= TWO_32 - 2 && ppsId <= TWO_32 - 2
    requires forall i :: 0 <= i < |more| ==> Printable(more[i])
    ensures SliceHeaderOf(SliceNalu(header, [Ue(firstMb), Ue(sliceType), Ue(ppsId)] + more))
         == Ok(SliceHeader(firstMb, sliceType % 5, ppsId, header % 32 == 5, (header / 32) % 4))
  {
    hide ReadUeAt, PrintUe, PrintAll, Escape, Unescape, Pack, Stopped, BitsOf, At;
    var fs := [Ue(firstMb), Ue(sliceType), Ue(ppsId)] + more;
    var packed := Pack(Stopped(PrintAll(fs)));
    var nalu := SliceNalu(header, fs);
    EscapeRoundTrip(packed, 0);
    assert nalu[1..] == Escape(packed, 0);
    var bits := BitsOf(packed);
    ThreeCodes(bits, firstMb, sliceType, ppsId, more);
    var p1 := |PrintUe(firstMb)|;
    var p2 := p1 + |PrintUe(sliceType)|;
    UeExact(bits, 0, firstMb, p1);
    UeExact(bits, p1, sliceType, p2);
    UeExact(bits, p2, ppsId, p2 + |PrintUe(ppsId)|);
  }

  lemma PrintCons(f: Field, fs: seq<Field>)
    ensures PrintAll([f] + fs) == Print(f) + PrintAll(fs)
  {
    assert ([f] + fs)[1..] == fs;
  }

  lemma StoppedAt(b: BitString)
    ensures At(Stopped(b), 0, b)
  {
  }

  lemma {:induction false} ThreeCodes(bits: BitString, a: nat, b: nat, c: nat, more: seq<Field>)
    requires bits == BitsOf(Pack(Stopped(PrintAll([Ue(a), Ue(b), Ue(c)] + more))))
    ensures At(bits, 0, PrintUe(a)) && At(bits, |PrintUe(a)|, PrintUe(b))
    ensures At(bits, |PrintUe(a)| + |PrintUe(b)|, PrintUe(c))
    ensures |PrintUe(a)| + |PrintUe(b)| + |PrintUe(c)| <= |bits|
  {
    hide PrintUe, BitsOf, Pack, PrintAll, At;
    var fs := [Ue(a), Ue(b), Ue(c)] + more;
    PackExact(Stopped(PrintAll(fs)));
    PrintCons(Ue(a), [Ue(b), Ue(c)] + more);
    PrintCons(Ue(b), [Ue(c)] + more);
    PrintCons(Ue(c), more);
    assert fs == [Ue(a)] + ([Ue(b), Ue(c)] + more) && [Ue(b), Ue(c)] + more == [Ue(b)] + ([Ue(c)] + more);
    StoppedAt(PrintAll(fs));
    AtSplit(bits, 0, PrintUe(a), PrintUe(b) + (PrintUe(c) + PrintAll(more)));
    AtSplit(bits, |PrintUe(a)|, PrintUe(b), PrintUe(c) + PrintAll(more));
    AtSplit(bits, |PrintUe(a)| + |PrintUe(b)|, PrintUe(c), PrintAll(more));
  }

  // ---------------------------------------------------------------- worked examples

  lemma SmallWidths()
    ensures Width(1) == 1 && Width(2) == 2 && Width(3) == 2 && Width(4) == 3 && Width(7) == 3
  {
    assert Width(0) == 0;
  }

  lemma SmallPrints()
    ensures PrintBits(1, 1) == [true] && PrintBits(2, 2) == [true, false] && PrintBits(3, 2) == [true, true]
    ensures PrintBits(4, 3) == [true, false, false] && PrintBits(7, 3) == [true, true, true]
  {
    assert PrintBits(0, 0) == [];
    assert PrintBits(1, 1) == PrintBits(0, 0) + [true];
    assert PrintBits(2, 2) == PrintBits(1, 1) + [false] && PrintBits(3, 2) == PrintBits(1, 1) + [true];
  }

  /** The first codes of table 9-2 and the mapping of table 9-3 of ITU-T H.264. */
  lemma FirstCodes()
    ensures PrintUe(0) == [true] && PrintUe(1) == [false, true, false] && PrintUe(2) == [false, true, true]
    ensures PrintUe(3) == [false, false, true, false, false] && PrintUe(6) == [false, false, true, true, true]
    ensures Fold(0) == 0 && Fold(1) == 1 && Fold(-1) == 2 && Fold(2) == 3 && Fold(-2) == 4
  {
    hide PrintBits, Width;
    SmallWidths();
    SmallPrints();
    assert PrintZeros(0) == [] && PrintZeros(1) == [false] && PrintZeros(2) == [false, false];
  }

  /** The bits of a byte, the first of them worth 128. */
  lemma BitsOfByte(b: byte)
    ensures BitOf(b, 0) == (b / 128 % 2 == 1) && BitOf(b, 1) == (b / 64 % 2 == 1)
    ensures BitOf(b, 2) == (b / 32 % 2 == 1) && BitOf(b, 3) == (b / 16 % 2 == 1)
    ensures BitOf(b, 4) == (b / 8 % 2 == 1) && BitOf(b, 5) == (b / 4 % 2 == 1)
    ensures BitOf(b, 6) == (b / 2 % 2 == 1) && BitOf(b, 7) == (b % 2 == 1)
  {
    hide Shift;
    ShiftsOfByte(b);
  }

  lemma {:induction false} ShiftsOfByte(b: byte)
    ensures Shift(b, 0) == b && Shift(b, 1) == b / 2 && Shift(b, 2) == b / 4 && Shift(b, 3) == b / 8
    ensures Shift(b, 4) == b / 16 && Shift(b, 5) == b / 32 && Shift(b, 6) == b / 64 && Shift(b, 7) == b / 128
  {
    hide Shift;
    assert Shift(b, 0) == b by { ShiftNone(b); }
    ShiftNext(b, 0);
    ShiftNext(b, 1);
    ShiftNext(b, 2);
    ShiftNext(b, 3);
    ShiftNext(b, 4);
    ShiftNext(b, 5);
    ShiftNext(b, 6);
  }

  lemma {:induction false} ShiftNext(value: nat, n: nat)
    ensures Shift(value, n + 1) == Shift(value, n) / 2
  {
  }

  lemma {:induction false} ShiftNone(value: nat)
    ensures Shift(value, 0) == value
  {
  }
}
