/** The Montgomery ladder on limbs. */
module X25519 {
  import opened Bits
  import opened ModArith
  import opened Field25519
  import opened LittleEndian
  import opened X25519Bytes
  import opened X25519Load
  import Spec = X25519Spec

  const ONES: int := 0xffff_ffff_ffff_ffff

  // ----- conditional swap

  /** Swaps two words under a mask of all zeros or all ones. */
  function SwapWords(mask: nat, a: nat, b: nat): (nat, nat)
  {
    var t := And(Xor(a, b), mask);
    (Xor(a, t), Xor(b, t))
  }

  lemma SwapWordsIs(mask: nat, a: U64, b: U64, n: nat)
    requires a < Pow2(n) && b < Pow2(n) && (mask == 0 || mask == Pow2(n) - 1)
    ensures SwapWords(mask, a, b) == if mask == 0 then (a, b) else (b, a)
  {
    if mask == 0 {
      AndZero(Xor(a, b));
      XorZero(a);
      XorZero(b);
    } else {
      XorBound(a, b, n);
      AndFullMask(Xor(a, b), n, mask);
      XorCancel(a, b);
      XorCommutes(a, b);
      XorCancel(b, a);
    }
  }

  lemma Pow64()
    ensures Pow2(64) == 0x1_0000_0000_0000_0000
  {
    BytePowers();
    Pow2Byte(7);
  }

  /** Exchanges the elements exactly when swap is 1. */
  method Cswap(a: Fe, b: Fe, swap: nat) returns (a': Fe, b': Fe)
    requires swap <= 1
    ensures (a', b') == if swap == 1 then (b, a) else (a, b)
  {
    var mask := if swap == 0 then 0 else ONES;
    Pow64();
    SwapWordsIs(mask, a.a0, b.a0, 64);
    SwapWordsIs(mask, a.a1, b.a1, 64);
    SwapWordsIs(mask, a.a2, b.a2, 64);
    SwapWordsIs(mask, a.a3, b.a3, 64);
    SwapWordsIs(mask, a.a4, b.a4, 64);
    var s0, s1, s2 := SwapWords(mask, a.a0, b.a0), SwapWords(mask, a.a1, b.a1), SwapWords(mask, a.a2, b.a2);
    var s3, s4 := SwapWords(mask, a.a3, b.a3), SwapWords(mask, a.a4, b.a4);
    a' := Fe(s0.0, s1.0, s2.0, s3.0, s4.0);
    b' := Fe(s0.1, s1.1, s2.1, s3.1, s4.1);
  }

  // ----- powers

  const ONE: Fe := Fe(1, 0, 0, 0, 0)
  const ZERO: Fe := Fe(0, 0, 0, 0, 0)

  lemma RepOne()
    ensures Rep(ONE) == 1 && Rep(ZERO) == 0 && Tight(ONE) && Tight(ZERO)
  {
    DivUnique(1, P, 0, 1);
    DivUnique(0, P, 0, 0);
  }

  /** Bit i of a little-endian byte string, as 0 or 1. */
  function BitOf(s: seq<Byte>, i: nat): (r: nat)
    requires i < 8 * |s|
    ensures r <= 1
  {
    s[i / 8] / Pow2(i % 8) % 2
  }

  lemma BitOfIs(s: seq<Byte>, i: nat)
    requires i < 8 * |s|
    ensures BitOf(s, i) == if Bit(Le(s), i) then 1 else 0
  {
    BitOfBytes(s, i);
  }

  lemma HalfExponent(e: nat, i: nat)
    ensures Quotient(e, Pow2(i)) == 2 * Quotient(e, Pow2(i + 1)) + if Bit(e, i) then 1 else 0
  {
    Pow2Add(i, 1);
    assert Pow2(1) == 2;
    SplitBy(e, Pow2(i), 2);
  }

  lemma SquareStep(x: nat, n: nat)
    ensures FPow(x, 2 * n) == FMul(FPow(x, n), FPow(x, n))
    ensures FPow(x, 2 * n + 1) == FMul(FPow(x, 2 * n), x)
  {
    FPowAdd(x, n, n);
  }

  /** One more bit of the exponent. */
  method PowStep(r: Fe, f: Fe, bit: nat, ghost e: nat, ghost i: nat) returns (r': Fe)
    requires Tight(f) && Tight(r) && Rep(r) == FPow(Rep(f), Quotient(e, Pow2(i + 1)))
    requires bit == if Bit(e, i) then 1 else 0
    ensures Tight(r') && Rep(r') == FPow(Rep(f), Quotient(e, Pow2(i)))
  {
    HalfExponent(e, i);
    SquareStep(Rep(f), Quotient(e, Pow2(i + 1)));
    r' := Mul(r, r);
    if bit == 1 {
      r' := Mul(r', f);
    }
  }

  /** Square and multiply over bits 254 to 0 of the exponent; bit 255 is not looked at. */
  method Pow(f: Fe, exp: seq<Byte>) returns (r: Fe)
    requires Tight(f) && |exp| == 32
    ensures Tight(r) && Rep(r) == FPow(Rep(f), Le(exp) % B255)
  {
    ghost var low := exp[31 := exp[31] % 128];
    ghost var e := Le(low);
    CoordinateIs(exp);
    r := ONE;
    var i := 8 * |exp| - 1;
    TopExponent(low, i);
    RepOne();
    while i > 0
      invariant 0 <= i < 8 * |exp|
      invariant Tight(r) && Rep(r) == FPow(Rep(f), Quotient(e, Pow2(i)))
    {
      i := i - 1;
      BitOfIs(low, i);
      LowBits(exp, i);
      r := PowStep(r, f, BitOf(exp, i), e, i);
    }
    assert Pow2(0) == 1;
  }

  lemma LowBits(exp: seq<Byte>, i: nat)
    requires |exp| == 32 && i < 255
    ensures BitOf(exp[31 := exp[31] % 128], i) == BitOf(exp, i)
  {
    if i / 8 == 31 {
      assert i % 8 < 7;
      assert Pow2(7) == 128;
      Pow2Add(i % 8, 7 - i % 8);
      assert Pow2(7 - i % 8) == 2 * Pow2(6 - i % 8);
      KeptBit(exp[31], Pow2(i % 8), Pow2(6 - i % 8));
    }
  }

  /** A remainder modulo 2pq has the same digit at p. */
  lemma KeptBit(x: nat, p: nat, q: nat)
    requires p > 0 && q > 0 && p * (2 * q) == 128
    ensures x % 128 / p % 2 == x / p % 2
  {
    SplitBy(x, p, 2 * q);
    SplitBy(x / p, 2, q);
  }

  lemma TopExponent(exp: seq<Byte>, n: nat)
    requires |exp| == 32 && exp[31] < 128 && n == 255
    ensures Quotient(Le(exp), Pow2(n)) == 0
  {
    CoordinateIs(exp);
    assert exp[31 := exp[31] % 128] == exp;
    LimbPowers(5, B255);
    DivUnique(Le(exp), B255, 0, Le(exp));
  }

  /** The bytes of p - 2. */
  function InverseExponent(): seq<Byte>
  {
    [0xEB] + seq(30, _ => 0xFF) + [0x7F]
  }

  lemma {:induction false} LeOnes(n: nat)
    ensures Le(seq(n, _ => 0xFF)) == Pow2(8 * n) - 1
    decreases n
  {
    var s: seq<Byte> := seq(n, _ => 0xFF);
    if n > 0 {
      assert s[1..] == seq(n - 1, _ => 0xFF);
      LeOnes(n - 1);
      Pow2Byte(n - 1);
    }
  }

  lemma InverseExponentIs()
    ensures Le(InverseExponent()) == P - 2
  {
    var mid: seq<Byte> := seq(30, _ => 0xFF);
    var n := |mid|;
    assert InverseExponent() == [0xEB] + (mid + [0x7F]);
    assert (mid + [0x7F])[n..] == [0x7F];
    LeConcat([0xEB], mid + [0x7F]);
    LeConcat(mid, [0x7F]);
    LeOnes(n);
    Pow2Byte(n);
    Pow2Byte(0);
    assert Pow2(0) == 1;
    TopPower(n + 1);
    assert Le([0x7F]) == 0x7F && Le([0xEB]) == 0xEB;
  }

  /** The (p - 2)-th power, which is the inverse of a nonzero element. */
  method Invert(f: Fe) returns (r: Fe)
    requires Tight(f)
    ensures Tight(r) && Rep(r) == FPow(Rep(f), P - 2)
  {
    InverseExponentIs();
    DivUnique(P - 2, B255, 0, P - 2);
    r := Pow(f, InverseExponent());
  }

  // ----- the ladder

  ghost predicate Tracks(x2: Fe, z2: Fe, x3: Fe, z3: Fe, swap: nat, s: Spec.Ladder)
  {
    && Tight(x2) && Tight(z2) && Tight(x3) && Tight(z3)
    && Rep(x2) == s.x2 && Rep(z2) == s.z2 && Rep(x3) == s.x3 && Rep(z3) == s.z3
    && swap == if s.swap then 1 else 0
  }

  /** The code multiplies E by 121666 and adds BB, where the definition multiplies by 121665 and adds AA. */
  lemma SameCoefficient(aa: nat, bb: nat)
    ensures var e := FSub(aa, bb); FAdd(bb, FMul(e, 121666)) == FAdd(aa, FMul(121665, e))
  {
    var e := FSub(aa, bb);
    FMulIs(e, 121666);
    FMulIs(121665, e);
    AddReps(bb, e * 121666);
    ModIdempotent(bb, P);
    AddReps(aa, 121665 * e);
    PlainSum(bb, e * 121666);
    PlainSum(aa, 121665 * e);
    ModIdempotent(aa - bb, P);
    ModAdd(e, aa - bb, bb + 121665 * e, bb + 121665 * e, P);
  }

  lemma PlainSum(a: nat, b: nat)
    ensures FAdd(a, b % P) == (a + b) % P
  {
    ModIdempotent(b, P);
    ModAdd(a, a, b % P, b, P);
  }

  /** The arithmetic of one step, without its swap. */
  method Mix(x1: Fe, x2: Fe, z2: Fe, x3: Fe, z3: Fe, ghost u: nat, ghost c: Spec.Ladder)
    returns (x2': Fe, z2': Fe, x3': Fe, z3': Fe)
    requires Tight(x1) && Rep(x1) == u % P && exists swap :: Tracks(x2, z2, x3, z3, swap, c)
    ensures Tracks(x2', z2', x3', z3', if c.swap then 1 else 0, Spec.Mixed(u, c))
  {
    var a := Add(x2, z2);
    var aa := Mul(a, a);
    var b := Sub(x2, z2);
    var bb := Mul(b, b);
    var e := Sub(aa, bb);
    var cc := Add(x3, z3);
    var d := Sub(x3, z3);
    var da := Mul(d, a);
    var cb := Mul(cc, b);
    var sum := Add(da, cb);
    x3' := Mul(sum, sum);
    var diff := Sub(da, cb);
    var square := Mul(diff, diff);
    z3' := Mul(x1, square);
    x2' := Mul(aa, bb);
    var small := MulSmall(e, 121666);
    var f := Add(bb, small);
    z2' := Mul(e, f);
    SameCoefficient(Rep(aa), Rep(bb));
  }

  /** One iteration: swap if the bit changed, then mix. */
  method Rung(x1: Fe, x2: Fe, z2: Fe, x3: Fe, z3: Fe, swap: nat, bit: nat, ghost u: nat, ghost s: Spec.Ladder)
    returns (x2': Fe, z2': Fe, x3': Fe, z3': Fe)
    requires Tight(x1) && Rep(x1) == u % P && Tracks(x2, z2, x3, z3, swap, s) && bit <= 1
    ensures Tracks(x2', z2', x3', z3', bit, Spec.Step(u, bit == 1, s))
  {
    var flip := Xor(swap, bit);
    var a2, a3 := Cswap(x2, x3, flip);
    var b2, b3 := Cswap(z2, z3, flip);
    ghost var c := Spec.Swapped(s, s.swap != (bit == 1));
    assert Tracks(a2, b2, a3, b3, if c.swap then 1 else 0, c);
    x2', z2', x3', z3' := Mix(x1, a2, b2, a3, b3, u, c);
  }

  /** The ladder over bits 254 to 0 of the scalar. */
  method Climb(x1: Fe, scalar: seq<Byte>, ghost u: nat) returns (x2: Fe, z2: Fe, ghost end: Spec.Ladder)
    requires Tight(x1) && Rep(x1) == u % P && |scalar| == 32
    ensures Tight(x2) && Tight(z2)
    ensures end == Spec.Climb(u, Le(scalar), 8 * |scalar| - 1, Spec.Start(u))
    ensures Rep(x2) == Spec.Swapped(end, end.swap).x2 && Rep(z2) == Spec.Swapped(end, end.swap).z2
  {
    ghost var k := Le(scalar);
    ghost var s := Spec.Start(u);
    x2, z2 := ONE, ZERO;
    var x3, z3, swap := x1, ONE, 0;
    var t := 8 * |scalar| - 1;
    RepOne();
    while t > 0
      invariant 0 <= t < 8 * |scalar|
      invariant Tracks(x2, z2, x3, z3, swap, s)
      invariant Spec.Climb(u, k, t, s) == Spec.Climb(u, k, 8 * |scalar| - 1, Spec.Start(u))
    {
      t := t - 1;
      var bit := BitOf(scalar, t);
      BitOfIs(scalar, t);
      x2, z2, x3, z3 := Rung(x1, x2, z2, x3, z3, swap, bit, u, s);
      s := Spec.Step(u, Bit(k, t), s);
      swap := bit;
    }
    end := s;
    x2, x3 := Cswap(x2, x3, swap);
    z2, z3 := Cswap(z2, z3, swap);
  }

  // ----- clamping

  /** The scalar with bits 0 to 2 and 255 cleared and bit 254 set. */
  function Clamp(k: seq<Byte>): seq<Byte>
    requires |k| == 32
  {
    ClampIs(k[0]);
    ClampLastIs(k[31]);
    k[0 := And(k[0], 248)][31 := Or(And(k[31], 127), 64)]
  }

  lemma ClampIs(b: Byte)
    ensures And(b, 248) == Spec.ClampFirst(b)
  {
    assert Pow2(3) == 8 && Pow2(5) == 32;
    ClearLow(b, b % 8, b / 8, 248, 31, 3, 5);
  }

  /** Masking with n ones above k zeros clears the k low bits. */
  lemma ClearLow(b: nat, low: nat, high: nat, m: nat, ones: nat, k: nat, n: nat)
    requires low < Pow2(k) && high < Pow2(n) && b == low + Pow2(k) * high && m == Pow2(k) * ones && ones == Pow2(n) - 1
    ensures And(b, m) == Pow2(k) * high
  {
    AndSplit(low, high, 0, ones, k, Pow2(k));
    AndZero(low);
    AndFullMask(high, n, ones);
  }

  lemma ClampLastIs(b: Byte)
    ensures Or(And(b, 127), 64) == Spec.ClampLast(b)
  {
    assert Pow2(6) == 64;
    KeepAndSet(b, 127, 64, 6);
  }

  /** Keeping bits 0 to k and setting bit k. */
  lemma KeepAndSet(b: nat, m: nat, h: nat, k: nat)
    requires h == Pow2(k) && m == 2 * h - 1
    ensures Or(And(b, m), h) == b % h + h
  {
    var x := b % (2 * h);
    LowMask(b, m, k + 1);
    SetTop(x, h, k);
    ModOfProduct(b, h, 2);
    if x < h {
      DivUnique(x, h, 0, x);
    } else {
      DivUnique(x, h, 1, x - h);
    }
  }

  lemma LowMask(b: nat, m: nat, k: nat)
    requires m == Pow2(k) - 1
    ensures And(b, m) == b % Pow2(k)
  {
    AndMask(b, k);
  }

  lemma SetTop(x: nat, h: nat, k: nat)
    requires h == Pow2(k) && x < 2 * h
    ensures Or(x, h) == if x < h then x + h else x
  {
    OrSetsBit(x, k);
    if x < h {
      DivUnique(x, h, 0, x);
    } else {
      DivUnique(x, h, 1, x - h);
    }
  }

  /** Scalar multiplication as section 5 of RFC 7748 defines it, for every scalar and coordinate. */
  method Multiply(k: seq<Byte>, u: seq<Byte>) returns (r: seq<Byte>)
    requires |k| == 32 && |u| == 32
    ensures r == Spec.X25519(k, u)
  {
    var scalar := Clamp(k);
    ClampIs(k[0]);
    ClampLastIs(k[31]);
    var x1 := FromBytes(u);
    FromBytesRep(u);
    var x2, z2, end := Climb(x1, scalar, Spec.DecodeCoordinate(u));
    var inverse := Invert(z2);
    var q := Mul(x2, inverse);
    r := ToBytes(q);
  }
}
