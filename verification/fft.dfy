/** The radix-2 in-place transform (crates/audio/src/lib.rs, `fft_in_place`) over exact complex
    numbers. The trigonometric step of each stage is a parameter: `step(size)` stands for the root of
    unity that the source computes from the angle -2 pi / size. */
module Fft {
  import opened Wrappers
  import opened ComplexField

  // ---------------------------------------------------------------- bit reversal

  /** The `m`-bit number `i` read backwards. */
  function Rev(i: nat, m: nat): (r: nat)
    ensures r < Pow2(m)
    decreases m
  {
    if m == 0 then 0 else (if i % 2 == 1 then Pow2(m - 1) else 0) + Rev(i / 2, m - 1)
  }

  /** Reading off the top bit instead of the bottom one. */
  lemma {:induction false} RevTop(i: nat, m: nat)
    requires m > 0 && i < Pow2(m)
    ensures Rev(i, m) == if i < Pow2(m - 1) then 2 * Rev(i, m - 1) else 2 * Rev(i - Pow2(m - 1), m - 1) + 1
    decreases m
  {
    hide Rev, Pow2;
    if m == 1 {
      RevOne(i);
    } else {
      var half := Pow2(m - 2);
      DoublePow2(m - 2);
      DoublePow2(m - 1);
      RevStep(i, m);
      RevTop(i / 2, m - 1);
      if i < 2 * half {
        RevStep(i, m - 1);
      } else {
        RevStep(i - 2 * half, m - 1);
        HalfLess(i, half);
      }
    }
  }

  lemma RevOne(i: nat)
    requires i < Pow2(1)
    ensures Rev(i, 1) == if i < Pow2(0) then 2 * Rev(i, 0) else 2 * Rev(i - Pow2(0), 0) + 1
  {
    assert Pow2(0) == 1 && Pow2(1) == 2 * Pow2(0);
  }

  lemma DoublePow2(m: nat)
    ensures Pow2(m + 1) == 2 * Pow2(m)
  {
  }

  lemma RevStep(i: nat, m: nat)
    requires m > 0
    ensures Rev(i, m) == (if i % 2 == 1 then Pow2(m - 1) else 0) + Rev(i / 2, m - 1)
  {
    hide Pow2;
  }

  lemma HalfLess(i: nat, h: nat)
    requires i >= 2 * h
    ensures (i - 2 * h) / 2 == i / 2 - h && (i - 2 * h) % 2 == i % 2
  {
  }

  /** Reversing twice gives the number back. */
  lemma {:induction false} RevInvolutive(i: nat, m: nat)
    requires i < Pow2(m)
    ensures Rev(Rev(i, m), m) == i
    decreases m
  {
    if m > 0 {
      RevInvolutive(i / 2, m - 1);
      RevTop(Rev(i, m), m);
    }
  }

  /** `t & bit != 0` for a mask of one bit. */
  predicate Masked(t: nat, bit: nat)
    requires bit > 0
  {
    t / bit % 2 != 0
  }

  /** One level of the carry: the top bit is the parity of the reversed number. */
  lemma RevLevel(a: nat, k: nat)
    requires k > 0 && a + 1 < Pow2(k)
    ensures var bit := Pow2(k - 1);
      Masked(Rev(a, k), bit) == (a % 2 == 1)
      && (a % 2 == 0 ==> Rev(a + 1, k) == Rev(a, k) + bit)
      && (a % 2 == 1 ==> k > 1 && a / 2 + 1 < bit && bit == 2 * Pow2(k - 2))
      && (a % 2 == 1 ==> Rev(a, k) == bit + Rev(a / 2, k - 1) && Rev(a + 1, k) == Rev(a / 2 + 1, k - 1))
  {
    hide Rev, Pow2, Masked;
    RevStep(a, k);
    RevStep(a + 1, k);
    MaskTest(Rev(a, k), Pow2(k - 1));
    DoublePow2(k - 1);
    if k == 1 {
      assert Pow2(0) == 1 by { OnePow2(); }
    } else {
      DoublePow2(k - 2);
    }
  }

  lemma OnePow2()
    ensures Pow2(0) == 1
  {
  }

  /** The reversed-carry increment: from the reversal of `index - 1` to that of `index`. The
      single-bit mask operations of the source are written as arithmetic on that bit. */
  method NextReversed(length: nat, target: nat, ghost index: nat, ghost m: nat) returns (next: nat)
    requires length == Pow2(m) && 0 < index < length && target == Rev(index - 1, m)
    ensures next == Rev(index, m)
  {
    var bit := length / 2;
    assert m > 0 && bit == Pow2(m - 1);
    next := target;
    ghost var a: nat, k: nat := index - 1, m;
    hide Rev, Masked, Pow2;
    RevLevel(a, k);
    while Masked(next, bit)
      invariant 0 < k <= m && bit == Pow2(k - 1) && a + 1 < Pow2(k)
      invariant next == Rev(a, k) && Rev(a + 1, k) == Rev(index, m)
      decreases k
    {
      RevLevel(a, k);
      next := next - bit;
      bit := bit / 2;
      a, k := a / 2, k - 1;
    }
    RevLevel(a, k);
    next := next + bit;
  }

  /** A mask of one bit, just above or at the top of the number. */
  lemma MaskTest(t: nat, bit: nat)
    requires 0 < bit && t < 2 * bit
    ensures Masked(t, bit) <==> t >= bit
  {
    if t >= bit {
      QuotientIs(t, bit, 1);
    } else {
      QuotientIs(t, bit, 0);
    }
  }

  lemma QuotientIs(t: nat, d: nat, q: nat)
    requires d > 0 && q * d <= t < q * d + d
    ensures t / d == q && t % d == t - q * d
  {
    var p := t / d;
    MulStep(p, q, d);
    MulStep(q, p, d);
  }

  lemma MulStep(p: nat, q: nat, d: nat)
    ensures p < q ==> p * d + d <= q * d
  {
    if p < q {
      var e := q - p - 1;
      assert e * d >= 0;
      assert (p + 1 + e) * d == p * d + d + e * d;
    }
  }

  /** Where position `k` gets its value from once the swaps below `index` have been done. */
  function Origin(k: nat, index: nat, m: nat): nat
  {
    if k < index || Rev(k, m) < index then Rev(k, m) else k
  }

  lemma {:induction false} OriginStart(m: nat)
    ensures forall k: nat :: k < Pow2(m) ==> Origin(k, 1, m) == k
  {
    RevZero(m);
    forall k: nat | k < Pow2(m) ensures Origin(k, 1, m) == k {
      RevInvolutive(k, m);
    }
  }

  lemma OriginStep(k: nat, index: nat, m: nat)
    requires k < Pow2(m) && index < Pow2(m)
    ensures var target := Rev(index, m);
      Origin(k, index + 1, m) ==
        if index < target && k == index then Origin(target, index, m)
        else if index < target && k == target then Origin(index, index, m)
        else Origin(k, index, m)
  {
    RevInvolutive(k, m);
    RevInvolutive(index, m);
  }

  method Swap(a: array<real>, i: nat, j: nat)
    requires i < a.Length && j < a.Length
    modifies a
    ensures a[..] == old(a[..])[i := old(a[j])][j := old(a[i])]
  {
    a[i], a[j] := a[j], a[i];
  }

  /** `now` is `was` with the swaps below `index` done. */
  ghost predicate Swapped(was: seq<real>, now: seq<real>, index: nat, m: nat)
  {
    |was| == |now| == Pow2(m) && forall k :: 0 <= k < |now| ==>
      Origin(k, index, m) < |was| && now[k] == was[Origin(k, index, m)]
  }

  function Exchanged(now: seq<real>, index: nat, target: nat): seq<real>
    requires index < |now| && target < |now|
  {
    if index < target then now[index := now[target]][target := now[index]] else now
  }

  lemma {:induction false} SwappedStep(was: seq<real>, now: seq<real>, index: nat, m: nat)
    requires Swapped(was, now, index, m) && index < Pow2(m)
    ensures Rev(index, m) < |now| && Swapped(was, Exchanged(now, index, Rev(index, m)), index + 1, m)
  {
    hide Rev, Origin;
    var target := Rev(index, m);
    var next := Exchanged(now, index, target);
    var n := index + 1;
    forall k | 0 <= k < |next| ensures Origin(k, n, m) < |was| && next[k] == was[Origin(k, n, m)] {
      OriginStep(k, index, m);
    }
  }

  lemma {:induction false} SwappedStart(was: seq<real>, m: nat)
    requires |was| == Pow2(m)
    ensures Swapped(was, was, 1, m)
  {
    OriginStart(m);
  }

  /** `now` is `was` under the bit-reversal permutation. */
  ghost predicate Reversed(was: seq<real>, now: seq<real>, m: nat)
  {
    |was| == |now| == Pow2(m) && forall k :: 0 <= k < |now| ==> now[k] == was[Rev(k, m)]
  }

  /** The bit-reversal loop. */
  method Permute(re: array<real>, im: array<real>, ghost m: nat)
    requires re != im && re.Length == im.Length == Pow2(m)
    modifies re, im
    ensures Reversed(old(re[..]), re[..], m) && Reversed(old(im[..]), im[..], m)
  {
    hide Rev, Origin, Swapped;
    var length := re.Length;
    var target := 0;
    var index := 1;
    RevZero(m);
    SwappedStart(re[..], m);
    SwappedStart(im[..], m);
    while index < length
      invariant 1 <= index <= length && target == Rev(index - 1, m)
      invariant Swapped(old(re[..]), re[..], index, m) && Swapped(old(im[..]), im[..], index, m)
    {
      target := NextReversed(length, target, index, m);
      SwappedStep(old(re[..]), re[..], index, m);
      SwappedStep(old(im[..]), im[..], index, m);
      if index < target {
        Swap(re, index, target);
        Swap(im, index, target);
      }
      index := index + 1;
    }
    SwappedEnd(old(re[..]), re[..], m);
    SwappedEnd(old(im[..]), im[..], m);
  }

  lemma {:induction false} SwappedEnd(was: seq<real>, now: seq<real>, m: nat)
    requires Swapped(was, now, Pow2(m), m)
    ensures Reversed(was, now, m)
  {
    forall k | 0 <= k < |now| ensures now[k] == was[Rev(k, m)] {
      OriginEnd(k, m);
    }
  }

  lemma {:induction false} OriginEnd(k: nat, m: nat)
    requires k < Pow2(m)
    ensures Origin(k, Pow2(m), m) == Rev(k, m)
  {
  }

  lemma {:induction false} RevZero(m: nat)
    ensures Rev(0, m) == 0
  {
    if m > 0 {
      RevZero(m - 1);
    }
  }

  // ---------------------------------------------------------------- the transform

  function At(x: seq<Complex>, i: int): Complex
  {
    if 0 <= i < |x| then x[i] else ZERO
  }

  /** Entry `k` of the transform with root `w` of the points `base, base + stride, ...`. */
  function Dft(x: seq<Complex>, base: nat, stride: nat, count: nat, w: Complex, k: nat): Complex
  {
    if count == 0 then ZERO
    else Add(Dft(x, base, stride, count - 1, w, k), Mul(At(x, base + (count - 1) * stride), Pow(w, (count - 1) * k)))
  }

  /** One pair of terms: the even one, and the odd one with the twiddle factor taken out. */
  lemma {:induction false} TermPair(x: seq<Complex>, base: nat, stride: nat, j: nat, w: Complex, k: nat)
    ensures Mul(At(x, base + 2 * j * stride), Pow(w, 2 * j * k))
         == Mul(At(x, base + j * (2 * stride)), Pow(Mul(w, w), j * k))
    ensures Mul(At(x, base + (2 * j + 1) * stride), Pow(w, (2 * j + 1) * k))
         == Mul(Pow(w, k), Mul(At(x, base + stride + j * (2 * stride)), Pow(Mul(w, w), j * k)))
  {
    hide Mul, Pow, At;
    assert 2 * j * stride == j * (2 * stride) && (2 * j + 1) * stride == stride + j * (2 * stride);
    assert 2 * j * k == 2 * (j * k) && (2 * j + 1) * k == k + 2 * (j * k);
    PowSquare(w, j * k);
    PowAdd(w, k, 2 * (j * k));
    var a := At(x, base + stride + j * (2 * stride));
    var p, q := Pow(w, k), Pow(w, 2 * (j * k));
    MulAssociates(a, p, q);
    MulCommutes(a, p);
    MulAssociates(p, a, q);
  }

  /** A transform of even length splits into the transforms of its even and its odd points. */
  lemma {:induction false} DftSplit(x: seq<Complex>, base: nat, stride: nat, half: nat, w: Complex, k: nat)
    ensures Dft(x, base, stride, 2 * half, w, k)
         == Add(Dft(x, base, 2 * stride, half, Mul(w, w), k),
                Mul(Pow(w, k), Dft(x, base + stride, 2 * stride, half, Mul(w, w), k)))
    decreases half
  {
    hide Mul, Add, Pow, At;
    if half == 0 {
      MulZero(Pow(w, k));
    } else {
      var j := half - 1;
      var v := Mul(w, w);
      DftSplit(x, base, stride, j, w, k);
      TermPair(x, base, stride, j, w, k);
      var even := Dft(x, base, 2 * stride, j, v, k);
      var odd := Dft(x, base + stride, 2 * stride, j, v, k);
      var e := Mul(At(x, base + j * (2 * stride)), Pow(v, j * k));
      var o := Mul(At(x, base + stride + j * (2 * stride)), Pow(v, j * k));
      assert Dft(x, base, stride, 2 * half, w, k)
        == Add(Add(Add(even, Mul(Pow(w, k), odd)), e), Mul(Pow(w, k), o)) by {
        DftTwo(x, base, stride, j, w, k);
      }
      MulDistributes(Pow(w, k), odd, o);
      AddShuffle(even, Mul(Pow(w, k), odd), e, Mul(Pow(w, k), o));
    }
  }

  lemma MulZero(a: Complex)
    ensures Mul(a, ZERO) == ZERO && Add(ZERO, ZERO) == ZERO
  {
  }

  lemma {:induction false} DftTwo(x: seq<Complex>, base: nat, stride: nat, j: nat, w: Complex, k: nat)
    ensures Dft(x, base, stride, 2 * (j + 1), w, k)
         == Add(Add(Dft(x, base, stride, 2 * j, w, k), Mul(At(x, base + 2 * j * stride), Pow(w, 2 * j * k))),
                Mul(At(x, base + (2 * j + 1) * stride), Pow(w, (2 * j + 1) * k)))
  {
    hide Mul, Add, Pow, At;
    assert Dft(x, base, stride, 2 * j + 1, w, k)
      == Add(Dft(x, base, stride, 2 * j, w, k), Mul(At(x, base + 2 * j * stride), Pow(w, 2 * j * k)));
  }

  /** The transform of `count` points is periodic in `k` when the root has order dividing `count`. */
  lemma {:induction false} DftPeriodic(x: seq<Complex>, base: nat, stride: nat, count: nat, v: Complex, k: nat,
                                       period: nat)
    requires Pow(v, period) == ONE
    ensures Dft(x, base, stride, count, v, k + period) == Dft(x, base, stride, count, v, k)
    decreases count
  {
    hide Mul, Add, Pow, At;
    if count > 0 {
      var j := count - 1;
      DftPeriodic(x, base, stride, j, v, k, period);
      assert j * (k + period) == j * k + period * j;
      PowAdd(v, j * k, period * j);
      PowMul(v, period, j);
      PowOne(j);
      MulOne(Pow(v, j * k));
    }
  }

  // ---------------------------------------------------------------- butterfly stages

  /** Number of the block of `size` points that holds position `i`, and the offset in it. */
  function BlockOf(i: nat, size: nat): nat
    requires size > 0
  {
    i / size
  }

  function OffsetOf(i: nat, size: nat): (o: nat)
    requires size > 0
    ensures o < size
  {
    i % size
  }

  /** Entry `i` after one butterfly stage on blocks of `2 * half` points. */
  function StageAt(x: seq<Complex>, half: nat, w: Complex, i: nat): Complex
    requires half > 0
  {
    var offset := OffsetOf(i, 2 * half);
    if offset < half then Add(At(x, i), Mul(At(x, i + half), Pow(w, offset)))
    else Sub(At(x, i - half), Mul(At(x, i), Pow(w, offset - half)))
  }

  /** The step of each of `m` stages is a square root of the step of the stage before, starting from -1. */
  ghost predicate Roots(step: nat -> Complex, m: nat)
  {
    (m > 0 ==> step(2) == MINUS_ONE) && forall s: nat :: 1 <= s < m ==> Squares(step, Pow2(s))
  }

  predicate Squares(step: nat -> Complex, size: nat)
  {
    Mul(step(2 * size), step(2 * size)) == step(size)
  }

  function Root(step: nat -> Complex, s: nat): Complex
  {
    if s == 0 then ONE else step(Pow2(s))
  }

  lemma {:induction false} RootHalf(step: nat -> Complex, m: nat, s: nat)
    requires Roots(step, m) && s < m
    ensures Mul(step(2 * Pow2(s)), step(2 * Pow2(s))) == Root(step, s)
    ensures Pow(step(2 * Pow2(s)), Pow2(s)) == MINUS_ONE
    decreases s
  {
    hide Mul;
    MinusSquared();
    MulOne(MINUS_ONE);
    assert Pow(MINUS_ONE, 0) == ONE;
    if s > 0 {
      hide Pow;
      assert Squares(step, Pow2(s));
      RootHalf(step, m, s - 1);
      PowSquare(step(2 * Pow2(s)), Pow2(s - 1));
    }
  }

  /** After stage `s`, every block of 2^s points holds the transform of its stride of the input. */
  ghost predicate Transformed(x: seq<Complex>, y: seq<Complex>, s: nat, m: nat, w: Complex)
  {
    s <= m && |x| == |y| == Pow2(m) &&
    forall i :: 0 <= i < |y| ==>
      y[i] == Dft(x, Rev(BlockOf(i, Pow2(s)), m - s), Pow2(m - s), Pow2(s), w, OffsetOf(i, Pow2(s)))
  }

  lemma {:induction false} PermutedIsTransformed(x: seq<Complex>, y: seq<Complex>, m: nat)
    requires |x| == |y| == Pow2(m) && forall i :: 0 <= i < |y| ==> y[i] == x[Rev(i, m)]
    ensures Transformed(x, y, 0, m, ONE)
  {
    hide Rev, Dft;
    forall i | 0 <= i < |y|
      ensures y[i] == Dft(x, Rev(BlockOf(i, Pow2(0)), m - 0), Pow2(m - 0), Pow2(0), ONE, OffsetOf(i, Pow2(0)))
    {
      assert BlockOf(i, 1) == i && OffsetOf(i, 1) == 0;
      DftOne(x, Rev(i, m), Pow2(m));
    }
  }

  lemma {:induction false} DftOne(x: seq<Complex>, base: nat, stride: nat)
    requires base < |x|
    ensures Dft(x, base, stride, 1, ONE, 0) == x[base]
  {
    hide Mul, Add;
    assert (1 - 1) * stride == 0;
    assert Pow(ONE, 0) == ONE;
    MulOne(x[base]);
    AddShuffle(x[base], ZERO, ZERO, ZERO);
  }

  lemma MulFacts(b: nat, half: nat)
    ensures b * (2 * half) == 2 * (b * half) && (2 * b) * half == 2 * (b * half)
    ensures (2 * b + 1) * half == 2 * (b * half) + half
  {
  }

  lemma BlockIs(i: nat, size: nat, b: nat, o: nat)
    requires size > 0 && o < size && i == b * size + o
    ensures BlockOf(i, size) == b && OffsetOf(i, size) == o
  {
    QuotientIs(i, size, b);
  }

  lemma BlockParts(i: nat, size: nat)
    requires size > 0
    ensures i == BlockOf(i, size) * size + OffsetOf(i, size)
  {
  }

  /** Block and offset of a position and its partner, at size `half`. */
  lemma Split(i: nat, half: nat)
    requires half > 0
    ensures var b, o := BlockOf(i, 2 * half), OffsetOf(i, 2 * half);
      if o < half then
        && BlockOf(i, half) == 2 * b && OffsetOf(i, half) == o
        && BlockOf(i + half, half) == 2 * b + 1 && OffsetOf(i + half, half) == o
      else
        && BlockOf(i, half) == 2 * b + 1 && OffsetOf(i, half) == o - half
        && i >= half && BlockOf(i - half, half) == 2 * b && OffsetOf(i - half, half) == o - half
  {
    var b, o := BlockOf(i, 2 * half), OffsetOf(i, 2 * half);
    BlockParts(i, 2 * half);
    MulFacts(b, half);
    hide BlockOf, OffsetOf;
    var t := b * half;
    if o < half {
      BlockIs(i, half, 2 * b, o);
      BlockIs(i + half, half, 2 * b + 1, o);
    } else {
      BlockIs(i, half, 2 * b + 1, o - half);
      assert t >= 0;
      BlockIs(i - half, half, 2 * b, o - half);
    }
  }

  /** The even and odd halves of a block, combined by one butterfly, are its transform. */
  lemma Combine(x: seq<Complex>, base: nat, stride: nat, half: nat, w: Complex, o: nat)
    requires half > 0 && o < half && Pow(w, half) == MINUS_ONE
    ensures var v := Mul(w, w);
      var even := Dft(x, base, 2 * stride, half, v, o);
      var odd := Dft(x, base + stride, 2 * stride, half, v, o);
      && Dft(x, base, stride, 2 * half, w, o) == Add(even, Mul(odd, Pow(w, o)))
      && Dft(x, base, stride, 2 * half, w, o + half) == Sub(even, Mul(odd, Pow(w, o)))
  {
    hide Mul, Add, Sub, Pow, Dft;
    var v := Mul(w, w);
    var even := Dft(x, base, 2 * stride, half, v, o);
    var odd := Dft(x, base + stride, 2 * stride, half, v, o);
    DftSplit(x, base, stride, half, w, o);
    DftSplit(x, base, stride, half, w, o + half);
    MulCommutes(Pow(w, o), odd);
    PowSquare(w, half);
    PowAdd(w, half, half);
    MinusSquared();
    DftPeriodic(x, base, 2 * stride, half, v, o, half);
    DftPeriodic(x, base + stride, 2 * stride, half, v, o, half);
    PowAdd(w, o, half);
    MulMinus(even, Pow(w, o), odd);
  }

  lemma MinusSquared()
    ensures Mul(MINUS_ONE, MINUS_ONE) == ONE
  {
  }

  lemma {:induction false} RevChild(b: nat, k: nat)
    requires k > 0
    ensures Rev(2 * b, k) == Rev(b, k - 1) && Rev(2 * b + 1, k) == Rev(b, k - 1) + Pow2(k - 1)
  {
    hide Pow2;
    var even, odd := 2 * b, 2 * b + 1;
    assert even / 2 == b && even % 2 == 0 && odd / 2 == b && odd % 2 == 1;
  }

  /** The partner of a position in the first half of its block lies inside the array. */
  lemma BlockFits(i: nat, s: nat, m: nat)
    requires s < m && i < Pow2(m)
    ensures OffsetOf(i, Pow2(s + 1)) < Pow2(s) ==> i + Pow2(s) < Pow2(m)
  {
    var size := Pow2(s + 1);
    BlockParts(i, size);
    hide BlockOf, OffsetOf;
    assert size == 2 * Pow2(s);
    Pow2Add(s + 1, m - s - 1);
    hide Pow2;
    var b, blocks := BlockOf(i, size), Pow2(m - s - 1);
    MulStep(b, blocks, size);
    MulLess(blocks, b, size);
  }

  lemma MulLess(p: nat, q: nat, d: nat)
    ensures p <= q ==> p * d <= q * d
  {
    MulStep(p, q, d);
  }

  lemma {:induction false} StageEntry(x: seq<Complex>, y: seq<Complex>, s: nat, m: nat, w: Complex, i: nat)
    requires s < m && Transformed(x, y, s, m, Mul(w, w)) && Pow(w, Pow2(s)) == MINUS_ONE && i < |y|
    ensures StageAt(y, Pow2(s), w, i)
         == Dft(x, Rev(BlockOf(i, Pow2(s + 1)), m - s - 1), Pow2(m - s - 1), Pow2(s + 1), w, OffsetOf(i, Pow2(s + 1)))
  {
    hide Mul, Add, Sub, Pow, Dft, Rev, BlockOf, OffsetOf;
    var half := Pow2(s);
    assert Pow2(s + 1) == 2 * half && Pow2(m - s) == 2 * Pow2(m - s - 1);
    var b, o := BlockOf(i, 2 * half), OffsetOf(i, 2 * half);
    Split(i, half);
    RevChild(b, m - s);
    BlockFits(i, s, m);
    hide Pow2;
    Combine(x, Rev(b, m - s - 1), Pow2(m - s - 1), half, w, if o < half then o else o - half);
  }

  /** One stage carries the transform of blocks of 2^s points to blocks of 2^(s+1). */
  lemma {:induction false} StageTransforms(x: seq<Complex>, y: seq<Complex>, next: seq<Complex>, s: nat, m: nat,
                                           w: Complex)
    requires s < m && Transformed(x, y, s, m, Mul(w, w)) && Pow(w, Pow2(s)) == MINUS_ONE
    requires |next| == |y| && forall i :: 0 <= i < |next| ==> next[i] == StageAt(y, Pow2(s), w, i)
    ensures Transformed(x, next, s + 1, m, w)
  {
    hide Mul, Pow, Dft, StageAt, Rev, Pow2, BlockOf, OffsetOf;
    forall i | 0 <= i < |next|
      ensures next[i] == Dft(x, Rev(BlockOf(i, Pow2(s + 1)), m - (s + 1)), Pow2(m - (s + 1)), Pow2(s + 1), w,
        OffsetOf(i, Pow2(s + 1)))
    {
      StageEntry(x, y, s, m, w, i);
    }
  }

  // ---------------------------------------------------------------- the in-place loops

  function Points(re: seq<real>, im: seq<real>): (x: seq<Complex>)
    requires |re| == |im|
    ensures |x| == |re|
  {
    seq(|re|, i requires 0 <= i < |re| => Complex(re[i], im[i]))
  }

  /** Entry `i` once the first `upto` butterflies of the block at `start` have been applied. */
  function BlockAt(x: seq<Complex>, start: nat, half: nat, w: Complex, upto: nat, i: nat): Complex
  {
    if start <= i < start + upto then Add(At(x, i), Mul(At(x, i + half), Pow(w, i - start)))
    else if start + half <= i < start + half + upto then Sub(At(x, i - half), Mul(At(x, i), Pow(w, i - start - half)))
    else At(x, i)
  }

  ghost predicate BlockDone(x: seq<Complex>, y: seq<Complex>, start: nat, half: nat, w: Complex, upto: nat)
  {
    && upto <= half && start + 2 * half <= |x| == |y|
    && forall i :: 0 <= i < |y| ==> y[i] == BlockAt(x, start, half, w, upto, i)
  }

  /** One butterfly on a pair of points. */
  method Butterfly(re: array<real>, im: array<real>, left: nat, right: nat, twiddle: Complex)
    requires re != im && re.Length == im.Length && left < right < re.Length
    modifies re, im
    ensures var x := Points(old(re[..]), old(im[..]));
      Points(re[..], im[..]) ==
        x[left := Add(x[left], Mul(x[right], twiddle))][right := Sub(x[left], Mul(x[right], twiddle))]
  {
    var valueRe := re[right] * twiddle.re - im[right] * twiddle.im;
    var valueIm := re[right] * twiddle.im + im[right] * twiddle.re;
    ghost var value := Mul(Complex(re[right], im[right]), twiddle);
    assert value == Complex(valueRe, valueIm);
    hide Mul;
    re[right] := re[left] - valueRe;
    im[right] := im[left] - valueIm;
    re[left] := re[left] + valueRe;
    im[left] := im[left] + valueIm;
  }

  lemma {:induction false} BlockStep(x: seq<Complex>, y: seq<Complex>, start: nat, half: nat, w: Complex, offset: nat)
    requires BlockDone(x, y, start, half, w, offset) && offset < half
    ensures var left, right := start + offset, start + offset + half;
      var value := Mul(y[right], Pow(w, offset));
      BlockDone(x, y[left := Add(y[left], value)][right := Sub(y[left], value)], start, half, w, offset + 1)
  {
    hide Mul, Add, Sub, Pow;
    var left, right, n := start + offset, start + offset + half, offset + 1;
    assert y[left] == At(x, left) && y[right] == At(x, right);
    var odd := Mul(y[right], Pow(w, offset));
    var next := y[left := Add(y[left], odd)][right := Sub(y[left], odd)];
    forall i | 0 <= i < |next| ensures next[i] == BlockAt(x, start, half, w, n, i) {
      assert y[i] == BlockAt(x, start, half, w, offset, i);
    }
  }

  /** The innermost loop: all butterflies of one block, the twiddle factor being a running power. */
  method Block(re: array<real>, im: array<real>, start: nat, half: nat, step: Complex)
    requires re != im && re.Length == im.Length && half > 0 && start + 2 * half <= re.Length
    modifies re, im
    ensures BlockDone(Points(old(re[..]), old(im[..])), Points(re[..], im[..]), start, half, step, half)
  {
    hide Mul, Add, Sub, Points;
    ghost var x := Points(re[..], im[..]);
    BlockNone(x, start, half, step);
    var twiddle := ONE;
    var offset := 0;
    while offset < half
      invariant 0 <= offset <= half && twiddle == Pow(step, offset)
      invariant BlockDone(x, Points(re[..], im[..]), start, half, step, offset)
    {
      hide BlockDone;
      var left := start + offset;
      var right := left + half;
      BlockStep(x, Points(re[..], im[..]), start, half, step, offset);
      Butterfly(re, im, left, right, twiddle);
      twiddle := Mul(twiddle, step);
      offset := offset + 1;
    }
  }

  lemma BlockNone(x: seq<Complex>, start: nat, half: nat, w: Complex)
    requires start + 2 * half <= |x|
    ensures BlockDone(x, x, start, half, w, 0)
  {
  }

  /** `y` is `x` with the stage applied to all blocks before `start`. */
  ghost predicate StageDone(x: seq<Complex>, y: seq<Complex>, start: nat, half: nat, w: Complex)
    requires half > 0
  {
    |x| == |y| && forall i :: 0 <= i < |y| ==> y[i] == if i < start then StageAt(x, half, w, i) else At(x, i)
  }

  /** Within its block, a finished butterfly pass is what the stage prescribes. */
  lemma BlockIsStage(x: seq<Complex>, y: seq<Complex>, b: nat, half: nat, w: Complex, i: nat)
    requires half > 0 && StageDone(x, y, b * (2 * half), half, w)
    requires i < |y| && b * (2 * half) + 2 * half <= |y|
    ensures var start := b * (2 * half);
      BlockAt(y, start, half, w, half, i) == if i < start + 2 * half then StageAt(x, half, w, i) else At(x, i)
  {
    hide Mul, Add, Sub, Pow, BlockOf, OffsetOf;
    var start := b * (2 * half);
    if start <= i < start + 2 * half {
      BlockIs(i, 2 * half, b, i - start);
    }
  }

  lemma StageStep(x: seq<Complex>, y: seq<Complex>, next: seq<Complex>, b: nat, half: nat, w: Complex)
    requires half > 0 && StageDone(x, y, b * (2 * half), half, w)
    requires BlockDone(y, next, b * (2 * half), half, w, half)
    ensures StageDone(x, next, b * (2 * half) + 2 * half, half, w)
  {
    hide StageAt, BlockAt;
    var start := b * (2 * half) + 2 * half;
    forall i | 0 <= i < |next| ensures next[i] == if i < start then StageAt(x, half, w, i) else At(x, i) {
      BlockIsStage(x, y, b, half, w, i);
    }
  }

  /** One stage: all blocks of `2 * half` points. */
  method Stage(re: array<real>, im: array<real>, half: nat, step: Complex, ghost blocks: nat)
    requires re != im && re.Length == im.Length && half > 0 && re.Length == blocks * (2 * half)
    modifies re, im
    ensures StageDone(Points(old(re[..]), old(im[..])), Points(re[..], im[..]), re.Length, half, step)
  {
    hide Points, StageAt, StageDone, BlockDone;
    ghost var x := Points(re[..], im[..]);
    var start := 0;
    ghost var b: nat := 0;
    assert StageDone(x, x, 0, half, step) by { StageNone(x, half, step); }
    while start < re.Length
      invariant start == b * (2 * half) && b <= blocks
      invariant StageDone(x, Points(re[..], im[..]), start, half, step)
      decreases blocks - b
    {
      MulStep(b, blocks, 2 * half);
      MulLess(blocks, b, 2 * half);
      ghost var y := Points(re[..], im[..]);
      Block(re, im, start, half, step);
      StageStep(x, y, Points(re[..], im[..]), b, half, step);
      start := start + 2 * half;
      b := b + 1;
    }
    MulStep(b, blocks, 2 * half);
  }

  lemma StageNone(x: seq<Complex>, half: nat, w: Complex)
    requires half > 0
    ensures StageDone(x, x, 0, half, w)
  {
  }

  /** `fft_in_place`: the arrays end up holding exactly the discrete Fourier transform of their input. */
  method FftInPlace(re: array<real>, im: array<real>, step: nat -> Complex, ghost m: nat)
    requires re != im && re.Length == im.Length == Pow2(m) && Roots(step, m)
    modifies re, im
    ensures var x := Points(old(re[..]), old(im[..]));
      forall k :: 0 <= k < re.Length ==>
        Points(re[..], im[..])[k] == Dft(x, 0, 1, Pow2(m), Root(step, m), k)
  {
    hide Mul, Dft, Rev, Transformed, StageDone, Points, Roots;
    ghost var x := Points(re[..], im[..]);
    Permute(re, im, m);
    PermutedPoints(old(re[..]), old(im[..]), re[..], im[..], m);
    PermutedIsTransformed(x, Points(re[..], im[..]), m);
    var length := re.Length;
    var size := 2;
    ghost var s: nat := 0;
    while size <= length
      invariant s <= m && size == 2 * Pow2(s)
      invariant re.Length == im.Length == length
      invariant Transformed(x, Points(re[..], im[..]), s, m, Root(step, s))
      decreases m - s
    {
      Pow2Order(s, m);
      Pow2Add(s + 1, m - s - 1);
      RootHalf(step, m, s);
      ghost var y := Points(re[..], im[..]);
      var w := step(size);
      Stage(re, im, size / 2, w, Pow2(m - s - 1));
      StageDoneTransforms(x, y, Points(re[..], im[..]), s, m, w);
      size := size * 2;
      s := s + 1;
    }
    Pow2Order(s, m);
    TransformedEnd(x, Points(re[..], im[..]), m, Root(step, m));
  }

  lemma {:induction false} Pow2Order(s: nat, m: nat)
    requires s <= m
    ensures 2 * Pow2(s) <= Pow2(m) <==> s < m
  {
    if s < m {
      Pow2Monotone(s + 1, m);
    }
  }

  lemma {:induction false} PermutedPoints(re: seq<real>, im: seq<real>, re': seq<real>, im': seq<real>, m: nat)
    requires |re| == |im| && Reversed(re, re', m) && Reversed(im, im', m)
    ensures var x, y := Points(re, im), Points(re', im');
      |x| == |y| == Pow2(m) && forall i :: 0 <= i < |y| ==> y[i] == x[Rev(i, m)]
  {
  }

  lemma {:induction false} StageDoneTransforms(x: seq<Complex>, y: seq<Complex>, next: seq<Complex>, s: nat, m: nat,
                                               w: Complex)
    requires s < m && Transformed(x, y, s, m, Mul(w, w)) && Pow(w, Pow2(s)) == MINUS_ONE
    requires StageDone(y, next, |next|, Pow2(s), w)
    ensures Transformed(x, next, s + 1, m, w)
  {
    hide Mul, Pow, StageAt, Transformed;
    StageTransforms(x, y, next, s, m, w);
  }

  lemma {:induction false} TransformedEnd(x: seq<Complex>, y: seq<Complex>, m: nat, w: Complex)
    requires Transformed(x, y, m, m, w)
    ensures |x| == |y| == Pow2(m)
    ensures forall k :: 0 <= k < |y| ==> y[k] == Dft(x, 0, 1, Pow2(m), w, k)
  {
    hide Dft, BlockOf, OffsetOf;
    forall k | 0 <= k < |y| ensures y[k] == Dft(x, 0, 1, Pow2(m), w, k) {
      BlockIs(k, Pow2(m), 0, k);
    }
  }
}
