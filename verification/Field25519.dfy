/** Arithmetic modulo 2^255 - 19 on five 51-bit limbs, as the X25519 key exchange uses it. */
module Field25519 {
  import opened Bits
  import opened ModArith

  type U64 = x: int | 0 <= x < 0x1_0000_0000_0000_0000 witness 0
  type U128 = x: int | 0 <= x < 0x1_0000_0000_0000_0000_0000_0000_0000_0000 witness 0

  const B51: int := 0x8_0000_0000_0000
  const B102: int := B51 * B51
  const B153: int := B102 * B51
  const B204: int := B102 * B102
  const B255: int := B153 * B102
  /** The prime 2^255 - 19. */
  const P: int := B255 - 19

  // ----- the field

  function FAdd(a: nat, b: nat): nat { (a + b) % P }
  function FSub(a: nat, b: nat): nat { (a - b) % P }

  /** The product as repeated addition; FMulIs says that it is the remainder of the product of integers. */
  function FMul(a: nat, b: nat): nat
    decreases b, a
  {
    if b == 0 then 0 else FAdd(FMul(a, b - 1), a)
  }

  lemma {:induction false} FMulIs(a: nat, b: nat)
    ensures FMul(a, b) == (a * b) % P
    decreases b
  {
    if b > 0 {
      FMulIs(a, b - 1);
      SumMod(a * (b - 1), a);
      Dist(a, b, -1);
    }
  }

  lemma SumMod(x: int, y: int)
    ensures (x % P + y) % P == (x + y) % P
  {
    ModIdempotent(x, P);
    ModAdd(x % P, x, y, y, P);
  }

  // ----- limbs

  datatype Fe = Fe(a0: U64, a1: U64, a2: U64, a3: U64, a4: U64)

  function Sum(a0: int, a1: int, a2: int, a3: int, a4: int): int
  {
    a0 + a1 * B51 + a2 * B102 + a3 * B153 + a4 * B204
  }

  function Val(f: Fe): nat { Sum(f.a0, f.a1, f.a2, f.a3, f.a4) }

  /** The field element that five limbs represent. */
  function Rep(f: Fe): nat { Val(f) % P }

  predicate Within(f: Fe, bound: int)
  {
    f.a0 < bound && f.a1 < bound && f.a2 < bound && f.a3 < bound && f.a4 < bound
  }

  /** What multiplication returns. */
  predicate Tight(f: Fe) { Within(f, B51 + 0x2000) }
  /** What may be added or subtracted from. */
  predicate Small(f: Fe) { Within(f, 2 * B51) }
  /** What multiplication accepts. */
  predicate Loose(f: Fe) { Within(f, 8 * B51) }

  // ----- addition and subtraction

  predicate AddFits(f: Fe, g: Fe)
  {
    && f.a0 + g.a0 < 0x1_0000_0000_0000_0000 && f.a1 + g.a1 < 0x1_0000_0000_0000_0000
    && f.a2 + g.a2 < 0x1_0000_0000_0000_0000 && f.a3 + g.a3 < 0x1_0000_0000_0000_0000
    && f.a4 + g.a4 < 0x1_0000_0000_0000_0000
  }

  method Add(f: Fe, g: Fe) returns (r: Fe)
    requires AddFits(f, g)
    ensures Rep(r) == FAdd(Rep(f), Rep(g))
    ensures Small(f) && Small(g) ==> Loose(r)
  {
    r := Fe(f.a0 + g.a0, f.a1 + g.a1, f.a2 + g.a2, f.a3 + g.a3, f.a4 + g.a4);
    assert Val(r) == Val(f) + Val(g);
    AddReps(Val(f), Val(g));
  }

  lemma AddReps(a: int, b: int)
    ensures (a + b) % P == (a % P + b % P) % P
  {
    ModIdempotent(a, P);
    ModIdempotent(b, P);
    ModAdd(a, a % P, b, b % P, P);
  }

  const TWICE0: int := 0xf_ffff_ffff_ffda
  const TWICE: int := 0xf_ffff_ffff_fffe

  predicate SubFits(f: Fe, g: Fe)
  {
    && g.a0 <= f.a0 + TWICE0 < 0x1_0000_0000_0000_0000 && g.a1 <= f.a1 + TWICE < 0x1_0000_0000_0000_0000
    && g.a2 <= f.a2 + TWICE < 0x1_0000_0000_0000_0000 && g.a3 <= f.a3 + TWICE < 0x1_0000_0000_0000_0000
    && g.a4 <= f.a4 + TWICE < 0x1_0000_0000_0000_0000
  }

  /** Subtraction adds twice the prime first, so that no limb goes below zero. */
  method Sub(f: Fe, g: Fe) returns (r: Fe)
    requires SubFits(f, g)
    ensures Rep(r) == FSub(Rep(f), Rep(g))
    ensures Small(f) ==> Loose(r)
  {
    r := Fe((f.a0 + TWICE0) - g.a0, (f.a1 + TWICE) - g.a1, (f.a2 + TWICE) - g.a2, (f.a3 + TWICE) - g.a3,
            (f.a4 + TWICE) - g.a4);
    SubVal(r, f, g);
    AddMultiple(Val(f) - Val(g), P, 2);
    SubReps(Val(f), Val(g));
  }

  lemma SubVal(r: Fe, f: Fe, g: Fe)
    requires r.a0 == f.a0 + TWICE0 - g.a0 && r.a1 == f.a1 + TWICE - g.a1 && r.a2 == f.a2 + TWICE - g.a2
    requires r.a3 == f.a3 + TWICE - g.a3 && r.a4 == f.a4 + TWICE - g.a4
    ensures Val(r) == Val(f) - Val(g) + P * 2
  {
  }

  lemma SubReps(a: int, b: int)
    ensures (a - b) % P == (a % P - b % P) % P
  {
    ModIdempotent(a, P);
    ModIdempotent(b, P);
    ModSub(a, a % P, b, b % P, P);
  }

  lemma MulReps(a: int, b: int)
    requires a >= 0 && b >= 0
    ensures (a * b) % P == FMul(a % P, b % P)
  {
    ModIdempotent(a, P);
    ModIdempotent(b, P);
    ModMul(a, a % P, b, b % P, P);
    FMulIs(a % P, b % P);
  }

  // ----- products

  /** A limb times the other factor, limb by limb. */
  datatype Row = Row(c0: int, c1: int, c2: int, c3: int, c4: int)

  function Scale(a: int, g: Fe): Row
  {
    Row(a * g.a0, a * g.a1, a * g.a2, a * g.a3, a * g.a4)
  }

  function RowVal(x: Row): int { Sum(x.c0, x.c1, x.c2, x.c3, x.c4) }

  const FULL: int := 64 * B102

  predicate RowFits(x: Row)
  {
    && 0 <= x.c0 <= FULL && 0 <= x.c1 <= FULL && 0 <= x.c2 <= FULL && 0 <= x.c3 <= FULL && 0 <= x.c4 <= FULL
  }

  lemma ScaleFits(a: int, g: Fe)
    requires 0 <= a < 8 * B51 && Loose(g)
    ensures RowFits(Scale(a, g))
  {
    MulBound(a, g.a0, 8 * B51, 8 * B51);
    MulBound(a, g.a1, 8 * B51, 8 * B51);
    MulBound(a, g.a2, 8 * B51, 8 * B51);
    MulBound(a, g.a3, 8 * B51, 8 * B51);
    MulBound(a, g.a4, 8 * B51, 8 * B51);
  }

  /** The five double-width columns of a product. */
  datatype Wide = Wide(d0: U128, d1: U128, d2: U128, d3: U128, d4: U128)

  function WideVal(w: Wide): nat { Sum(w.d0, w.d1, w.d2, w.d3, w.d4) }

  /** Columns from rows, with everything from 2^255 on brought back times 19. */
  predicate Columns(w: Wide, x0: Row, x1: Row, x2: Row, x3: Row, x4: Row)
  {
    && w.d0 == x0.c0 + 19 * x1.c4 + 19 * x2.c3 + 19 * x3.c2 + 19 * x4.c1
    && w.d1 == x0.c1 + x1.c0 + 19 * x2.c4 + 19 * x3.c3 + 19 * x4.c2
    && w.d2 == x0.c2 + x1.c1 + x2.c0 + 19 * x3.c4 + 19 * x4.c3
    && w.d3 == x0.c3 + x1.c2 + x2.c1 + x3.c0 + 19 * x4.c4
    && w.d4 == x0.c4 + x1.c3 + x2.c2 + x3.c1 + x4.c0
  }

  /** The schoolbook product as the code writes it, with 19 * g computed first. */
  function Products(f: Fe, g: Fe): Wide
    requires Loose(f) && Loose(g)
  {
    var n1, n2, n3, n4 := 19 * g.a1, 19 * g.a2, 19 * g.a3, 19 * g.a4;
    ProductsFit(f, g);
    Wide(f.a0 * g.a0 + f.a1 * n4 + f.a2 * n3 + f.a3 * n2 + f.a4 * n1,
         f.a0 * g.a1 + f.a1 * g.a0 + f.a2 * n4 + f.a3 * n3 + f.a4 * n2,
         f.a0 * g.a2 + f.a1 * g.a1 + f.a2 * g.a0 + f.a3 * n4 + f.a4 * n3,
         f.a0 * g.a3 + f.a1 * g.a2 + f.a2 * g.a1 + f.a3 * g.a0 + f.a4 * n4,
         f.a0 * g.a4 + f.a1 * g.a3 + f.a2 * g.a2 + f.a3 * g.a1 + f.a4 * g.a0)
  }

  lemma Nineteen(a: int, g: Fe)
    ensures a * (19 * g.a1) == 19 * (a * g.a1) && a * (19 * g.a2) == 19 * (a * g.a2)
    ensures a * (19 * g.a3) == 19 * (a * g.a3) && a * (19 * g.a4) == 19 * (a * g.a4)
  {
  }

  lemma ProductsFit(f: Fe, g: Fe)
    requires Loose(f) && Loose(g)
    ensures var n1, n2, n3, n4 := 19 * g.a1, 19 * g.a2, 19 * g.a3, 19 * g.a4;
      && 0 <= f.a0 * g.a0 + f.a1 * n4 + f.a2 * n3 + f.a3 * n2 + f.a4 * n1 <= 77 * FULL
      && 0 <= f.a0 * g.a1 + f.a1 * g.a0 + f.a2 * n4 + f.a3 * n3 + f.a4 * n2 <= 59 * FULL
      && 0 <= f.a0 * g.a2 + f.a1 * g.a1 + f.a2 * g.a0 + f.a3 * n4 + f.a4 * n3 <= 41 * FULL
      && 0 <= f.a0 * g.a3 + f.a1 * g.a2 + f.a2 * g.a1 + f.a3 * g.a0 + f.a4 * n4 <= 23 * FULL
      && 0 <= f.a0 * g.a4 + f.a1 * g.a3 + f.a2 * g.a2 + f.a3 * g.a1 + f.a4 * g.a0 <= 5 * FULL
  {
    ScaleFits(f.a0, g);
    ScaleFits(f.a1, g);
    ScaleFits(f.a2, g);
    ScaleFits(f.a3, g);
    ScaleFits(f.a4, g);
    Nineteen(f.a1, g);
    Nineteen(f.a2, g);
    Nineteen(f.a3, g);
    Nineteen(f.a4, g);
  }

  lemma ProductColumns(f: Fe, g: Fe)
    requires Loose(f) && Loose(g)
    ensures Columns(Products(f, g), Scale(f.a0, g), Scale(f.a1, g), Scale(f.a2, g), Scale(f.a3, g), Scale(f.a4, g))
  {
    Nineteen(f.a1, g);
    Nineteen(f.a2, g);
    Nineteen(f.a3, g);
    Nineteen(f.a4, g);
  }

  lemma Fold(x0: Row, x1: Row, x2: Row, x3: Row, x4: Row)
    ensures Sum(RowVal(x0), RowVal(x1), RowVal(x2), RowVal(x3), RowVal(x4))
         == Sum(x0.c0 + 19 * x1.c4 + 19 * x2.c3 + 19 * x3.c2 + 19 * x4.c1,
                x0.c1 + x1.c0 + 19 * x2.c4 + 19 * x3.c3 + 19 * x4.c2,
                x0.c2 + x1.c1 + x2.c0 + 19 * x3.c4 + 19 * x4.c3,
                x0.c3 + x1.c2 + x2.c1 + x3.c0 + 19 * x4.c4,
                x0.c4 + x1.c3 + x2.c2 + x3.c1 + x4.c0)
          + P * Sum(x1.c4 + x2.c3 + x3.c2 + x4.c1, x2.c4 + x3.c3 + x4.c2, x3.c4 + x4.c3, x4.c4, 0)
  {
  }

  lemma TimesSum(a: int, b0: int, b1: int, b2: int, b3: int, b4: int)
    ensures a * Sum(b0, b1, b2, b3, b4) == Sum(a * b0, a * b1, a * b2, a * b3, a * b4)
    ensures Sum(b0, b1, b2, b3, b4) * a == Sum(b0 * a, b1 * a, b2 * a, b3 * a, b4 * a)
  {
  }

  lemma RowsVal(f: Fe, g: Fe)
    ensures Val(f) * Val(g) == Sum(RowVal(Scale(f.a0, g)), RowVal(Scale(f.a1, g)), RowVal(Scale(f.a2, g)),
                                   RowVal(Scale(f.a3, g)), RowVal(Scale(f.a4, g)))
  {
    TimesSum(f.a0, g.a0, g.a1, g.a2, g.a3, g.a4);
    TimesSum(f.a1, g.a0, g.a1, g.a2, g.a3, g.a4);
    TimesSum(f.a2, g.a0, g.a1, g.a2, g.a3, g.a4);
    TimesSum(f.a3, g.a0, g.a1, g.a2, g.a3, g.a4);
    TimesSum(f.a4, g.a0, g.a1, g.a2, g.a3, g.a4);
    TimesSum(Val(g), f.a0, f.a1, f.a2, f.a3, f.a4);
  }

  lemma FoldColumns(w: Wide, x0: Row, x1: Row, x2: Row, x3: Row, x4: Row)
    requires Columns(w, x0, x1, x2, x3, x4)
    ensures WideVal(w) % P == Sum(RowVal(x0), RowVal(x1), RowVal(x2), RowVal(x3), RowVal(x4)) % P
  {
    Fold(x0, x1, x2, x3, x4);
    AddMultiple(WideVal(w), P, Sum(x1.c4 + x2.c3 + x3.c2 + x4.c1, x2.c4 + x3.c3 + x4.c2, x3.c4 + x4.c3, x4.c4, 0));
  }

  lemma ColumnsModP(w: Wide, f: Fe, g: Fe)
    requires Columns(w, Scale(f.a0, g), Scale(f.a1, g), Scale(f.a2, g), Scale(f.a3, g), Scale(f.a4, g))
    ensures WideVal(w) % P == FMul(Rep(f), Rep(g))
  {
    RowsVal(f, g);
    FoldColumns(w, Scale(f.a0, g), Scale(f.a1, g), Scale(f.a2, g), Scale(f.a3, g), Scale(f.a4, g));
    MulReps(Val(f), Val(g));
  }

  // ----- carrying

  lemma Pow51()
    ensures Pow2(51) == B51
  {
    assert Pow2(13) == 0x2000 && Pow2(12) == 0x1000;
    Pow2Add(13, 13);
    Pow2Add(13, 12);
    Pow2Add(26, 25);
  }

  /** `(x as u64) & MASK51` is the remainder modulo 2^51, which is how the carry chains below write it. */
  lemma Mask51Is(x: nat)
    ensures And(x % 0x1_0000_0000_0000_0000, B51 - 1) == x % B51
  {
    var y := x % 0x1_0000_0000_0000_0000;
    Pow51();
    AndMask(y, 51);
    DivUnique(x, B51, 0x2000 * (x / 0x1_0000_0000_0000_0000) + y / B51, y % B51);
  }

  predicate Carryable(w: Wide)
  {
    w.d0 <= 77 * FULL && w.d1 <= 59 * FULL && w.d2 <= 41 * FULL && w.d3 <= 23 * FULL && w.d4 <= 5 * FULL
  }

  // The columns as the carry reaches them.
  function D1(w: Wide): nat { w.d1 + w.d0 / B51 }
  function D2(w: Wide): nat { w.d2 + D1(w) / B51 }
  function D3(w: Wide): nat { w.d3 + D2(w) / B51 }
  function D4(w: Wide): nat { w.d4 + D3(w) / B51 }
  /** Limb 0 after the carry out of the top limb has come back times 19. */
  function H0(w: Wide): nat { w.d0 % B51 + D4(w) / B51 * 19 }

  /** No step of the carry chain leaves its word. */
  lemma CarryFits(w: Wide)
    requires Carryable(w)
    ensures D1(w) <= 60 * FULL && D2(w) <= 42 * FULL && D3(w) <= 24 * FULL && D4(w) <= 5 * FULL + FULL / 16
    ensures D4(w) / B51 * 19 < 0x1_0000_0000_0000_0000 && H0(w) < 0x1_0000_0000_0000_0000 && H0(w) / B51 < 0x2000
  {
  }

  /** What a carry chain does to the value: remainders r, quotients q; limb 0 takes the last quotient back times 19. */
  lemma CarryIdentity(w: Wide, q0: int, r0: int, q1: int, r1: int, q2: int, r2: int, q3: int, r3: int, q4: int, r4: int)
    requires w.d0 == B51 * q0 + r0 && w.d1 + q0 == B51 * q1 + r1 && w.d2 + q1 == B51 * q2 + r2
    requires w.d3 + q2 == B51 * q3 + r3 && w.d4 + q3 == B51 * q4 + r4
    ensures Sum(r0 + 19 * q4, r1, r2, r3, r4) + P * q4 == WideVal(w)
  {
  }

  /** The value after one chain of carries is congruent to the value before. */
  lemma ChainModP(w: Wide)
    ensures Sum(H0(w), D1(w) % B51, D2(w) % B51, D3(w) % B51, D4(w) % B51) % P == WideVal(w) % P
  {
    CarryIdentity(w, w.d0 / B51, w.d0 % B51, D1(w) / B51, D1(w) % B51, D2(w) / B51, D2(w) % B51,
                  D3(w) / B51, D3(w) % B51, D4(w) / B51, D4(w) % B51);
    AddMultiple(Sum(H0(w), D1(w) % B51, D2(w) % B51, D3(w) % B51, D4(w) % B51), P, D4(w) / B51);
  }

  function Carry(w: Wide): Fe
    requires Carryable(w)
  {
    CarryFits(w);
    Fe(H0(w) % B51, D1(w) % B51 + H0(w) / B51, D2(w) % B51, D3(w) % B51, D4(w) % B51)
  }

  lemma CarryRep(w: Wide)
    requires Carryable(w)
    ensures Tight(Carry(w)) && Rep(Carry(w)) == WideVal(w) % P
  {
    CarryFits(w);
    ChainModP(w);
  }

  method Mul(f: Fe, g: Fe) returns (r: Fe)
    requires Loose(f) && Loose(g)
    ensures Tight(r) && Rep(r) == FMul(Rep(f), Rep(g))
  {
    ProductsFit(f, g);
    ProductColumns(f, g);
    ColumnsModP(Products(f, g), f, g);
    CarryRep(Products(f, g));
    r := Carry(Products(f, g));
  }

  // ----- multiplication by a small constant

  predicate SmallCarryable(w: Wide)
  {
    && w.d0 <= 0x10_0000 * B51 && w.d1 <= 0x10_0000 * B51 && w.d2 <= 0x10_0000 * B51 && w.d3 <= 0x10_0000 * B51
    && w.d4 <= 0x10_0000 * B51
  }

  function Times(f: Fe, c: int): Wide
    requires Loose(f) && 0 <= c <= 0x2_0000
  {
    TimesFits(f, c);
    Wide(f.a0 * c, f.a1 * c, f.a2 * c, f.a3 * c, f.a4 * c)
  }

  lemma TimesFits(f: Fe, c: int)
    requires Loose(f) && 0 <= c <= 0x2_0000
    ensures 0 <= f.a0 * c <= 0x10_0000 * B51 && 0 <= f.a1 * c <= 0x10_0000 * B51 && 0 <= f.a2 * c <= 0x10_0000 * B51
    ensures 0 <= f.a3 * c <= 0x10_0000 * B51 && 0 <= f.a4 * c <= 0x10_0000 * B51
  {
    MulBound(f.a0, c, 8 * B51, 0x2_0000);
    MulBound(f.a1, c, 8 * B51, 0x2_0000);
    MulBound(f.a2, c, 8 * B51, 0x2_0000);
    MulBound(f.a3, c, 8 * B51, 0x2_0000);
    MulBound(f.a4, c, 8 * B51, 0x2_0000);
  }

  lemma SmallCarryFits(w: Wide)
    requires SmallCarryable(w)
    ensures D1(w) <= 0x10_0001 * B51 && D2(w) <= 0x10_0001 * B51 && D3(w) <= 0x10_0001 * B51 && D4(w) <= 0x10_0001 * B51
    ensures H0(w) < 2 * B51
  {
  }

  /** Unlike multiplication, this one leaves the last carry in limb 0. */
  function CarryOnce(w: Wide): Fe
    requires SmallCarryable(w)
  {
    SmallCarryFits(w);
    Fe(H0(w), D1(w) % B51, D2(w) % B51, D3(w) % B51, D4(w) % B51)
  }

  method MulSmall(f: Fe, c: int) returns (r: Fe)
    requires Loose(f) && 0 <= c <= 0x2_0000
    ensures Small(r) && Rep(r) == FMul(Rep(f), c)
  {
    TimesFits(f, c);
    r := CarryOnce(Times(f, c));
    MulSmallIs(f, c);
  }

  lemma MulSmallIs(f: Fe, c: int)
    requires Loose(f) && 0 <= c <= 0x2_0000
    ensures SmallCarryable(Times(f, c))
    ensures Small(CarryOnce(Times(f, c))) && Rep(CarryOnce(Times(f, c))) == FMul(Rep(f), c)
  {
    TimesFits(f, c);
    SmallCarryFits(Times(f, c));
    ChainModP(Times(f, c));
    TimesSum(c, f.a0, f.a1, f.a2, f.a3, f.a4);
    ModIdempotent(Val(f), P);
    ModMulLeft(Val(f), Rep(f), c, P);
    FMulIs(Rep(f), c);
  }

  // ----- powers

  /** x to the e-th power in the field. */
  ghost function FPow(x: nat, e: nat): nat
  {
    if e == 0 then 1 else FMul(FPow(x, e - 1), x)
  }

  lemma FMulAssoc(a: nat, b: nat, c: nat)
    ensures FMul(FMul(a, b), c) == FMul(a, FMul(b, c))
  {
    FMulIs(a, b);
    FMulIs(b, c);
    FMulIs(FMul(a, b), c);
    FMulIs(a, FMul(b, c));
    ModAssoc(a, b, c);
  }

  lemma ModAssoc(a: nat, b: nat, c: nat)
    ensures (((a * b) % P) * c) % P == (a * ((b * c) % P)) % P
  {
    ModIdempotent(a * b, P);
    ModIdempotent(b * c, P);
    ModMulLeft((a * b) % P, a * b, c, P);
    ModMulLeft((b * c) % P, b * c, a, P);
    Assoc(a, b, c);
    Assoc(a, (b * c) % P, 1);
    Assoc(a, b * c, 1);
  }

  lemma FMulOne(a: nat)
    requires a < P
    ensures FMul(a, 1) == a && FMul(1, a) == a
  {
    FMulIs(a, 1);
    FMulIs(1, a);
    DivUnique(a, P, 0, a);
  }

  lemma {:induction false} FPowAdd(x: nat, a: nat, b: nat)
    ensures FPow(x, a + b) == FMul(FPow(x, a), FPow(x, b))
    decreases b
  {
    if b == 0 {
      FMulOne(FPow(x, a));
    } else {
      FPowAdd(x, a, b - 1);
      FMulAssoc(FPow(x, a), FPow(x, b - 1), x);
    }
  }
}
