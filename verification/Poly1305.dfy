/** The Poly1305 authenticator on 26-bit limbs, against the definition in section 2.5 of RFC 8439. */
module Poly1305 {
  import opened Bits
  import opened LittleEndian
  import opened ModArith

  type U32 = x: int | 0 <= x < 0x1_0000_0000 witness 0
  type U64 = x: int | 0 <= x < 0x1_0000_0000_0000_0000 witness 0

  const B26: int := 0x400_0000
  const MASK26: int := 0x3ff_ffff
  const B52: int := 0x10_0000_0000_0000
  const B78: int := 0x4000_0000_0000_0000_0000
  const B104: int := 0x100_0000_0000_0000_0000_0000_0000
  const B128: int := 0x1_0000_0000_0000_0000_0000_0000_0000_0000
  /** The prime 2^130 - 5. */
  const P: int := 0x3_ffff_ffff_ffff_ffff_ffff_ffff_ffff_fffb
  const CLAMP: int := 0x0fff_fffc_0fff_fffc_0fff_fffc_0fff_ffff

  // ----- the definition

  /** One 16-byte block, or the shorter last one, with the bit beyond its end set. */
  function Padded(block: seq<Byte>): nat
  {
    Le(block) + Pow2(8 * |block|)
  }

  function Chunk(msg: seq<Byte>): seq<Byte>
  {
    if |msg| < 16 then msg else msg[..16]
  }

  function Product(x: nat, r: nat): nat { (x * r) % P }

  /** One block of the definition. */
  function Next(acc: nat, block: seq<Byte>, r: nat): nat
  {
    Product(acc + Padded(block), r)
  }

  /** The accumulator after all blocks of msg, starting from acc. */
  function Accumulate(msg: seq<Byte>, r: nat, acc: nat): nat
    decreases |msg|
  {
    if msg == [] then acc
    else Accumulate(msg[|Chunk(msg)|..], r, Next(acc, Chunk(msg), r))
  }

  /** The clamped first half of the key. */
  function KeyR(key: seq<Byte>): nat
    requires |key| == 32
  {
    And(Le(key[..16]), CLAMP)
  }

  function KeyS(key: seq<Byte>): nat
    requires |key| == 32
  {
    Le(key[16..])
  }

  function TagOf(acc: nat, s: nat): seq<Byte>
  {
    ToLe((acc + s) % B128, 16)
  }

  function Tag(key: seq<Byte>, msg: seq<Byte>): seq<Byte>
    requires |key| == 32
  {
    TagOf(Accumulate(msg, KeyR(key), 0), KeyS(key))
  }

  // ----- limbs

  datatype Limbs = Limbs(a0: U32, a1: U32, a2: U32, a3: U32, a4: U32)

  function Val(l: Limbs): nat
  {
    l.a0 + l.a1 * B26 + l.a2 * B52 + l.a3 * B78 + l.a4 * B104
  }

  function Load32(s: seq<Byte>, i: nat): (r: U32)
    requires i + 4 <= |s|
  {
    var a: int, b: int, c: int, d: int := s[i], s[i + 1], s[i + 2], s[i + 3];
    a + 0x100 * b + 0x1_0000 * c + 0x100_0000 * d
  }

  // ----- multiplication

  /** The five double-width columns of a product. */
  datatype Wide = Wide(d0: U64, d1: U64, d2: U64, d3: U64, d4: U64)

  function WideVal(w: Wide): nat
  {
    w.d0 + w.d1 * B26 + w.d2 * B52 + w.d3 * B78 + w.d4 * B104
  }

  /** The clamped multiplier: four full limbs and a short one. */
  predicate Multiplier(r: Limbs)
  {
    r.a0 < B26 && r.a1 < B26 && r.a2 < B26 && r.a3 < B26 && r.a4 < 0x10_0000
  }

  /** The accumulator between blocks. */
  predicate Reduced(h: Limbs)
  {
    h.a0 < B26 && h.a1 < B26 + 64 && h.a2 < B26 && h.a3 < B26 && h.a4 < B26
  }

  /** A bound on every limb of the accumulator once a block has been added. */
  const FULL: int := 0x800_0040

  predicate Loaded(h: Limbs)
  {
    h.a0 < FULL && h.a1 < FULL && h.a2 < FULL && h.a3 < FULL && h.a4 < FULL
  }

  lemma RowBound(a: int, r: Limbs)
    requires 0 <= a < FULL && Multiplier(r)
    ensures 0 <= a * r.a0 <= FULL * B26 && 0 <= a * r.a1 <= FULL * B26 && 0 <= a * r.a2 <= FULL * B26
    ensures 0 <= a * r.a3 <= FULL * B26 && 0 <= a * r.a4 <= FULL * 0x10_0000
    ensures a * (5 * r.a1) == 5 * (a * r.a1) && a * (5 * r.a2) == 5 * (a * r.a2)
    ensures a * (5 * r.a3) == 5 * (a * r.a3) && a * (5 * r.a4) == 5 * (a * r.a4)
  {
    MulBound(a, r.a0, FULL, B26);
    MulBound(a, r.a1, FULL, B26);
    MulBound(a, r.a2, FULL, B26);
    MulBound(a, r.a3, FULL, B26);
    MulBound(a, r.a4, FULL, 0x10_0000);
  }

  /** A limb times the multiplier, limb by limb. */
  datatype Row = Row(c0: int, c1: int, c2: int, c3: int, c4: int)

  ghost function Scale(a: int, r: Limbs): Row
  {
    Row(a * r.a0, a * r.a1, a * r.a2, a * r.a3, a * r.a4)
  }

  ghost function RowVal(x: Row): int
  {
    x.c0 + x.c1 * B26 + x.c2 * B52 + x.c3 * B78 + x.c4 * B104
  }

  /** The columns of the schoolbook product, with everything from 2^130 on brought back times 5. */
  function Products(h: Limbs, r: Limbs): Wide
    requires Loaded(h) && Multiplier(r)
  {
    var s1, s2, s3, s4 := 5 * r.a1, 5 * r.a2, 5 * r.a3, 5 * r.a4;
    RowBound(h.a0, r);
    RowBound(h.a1, r);
    RowBound(h.a2, r);
    RowBound(h.a3, r);
    RowBound(h.a4, r);
    Wide(h.a0 * r.a0 + h.a1 * s4 + h.a2 * s3 + h.a3 * s2 + h.a4 * s1,
         h.a0 * r.a1 + h.a1 * r.a0 + h.a2 * s4 + h.a3 * s3 + h.a4 * s2,
         h.a0 * r.a2 + h.a1 * r.a1 + h.a2 * r.a0 + h.a3 * s4 + h.a4 * s3,
         h.a0 * r.a3 + h.a1 * r.a2 + h.a2 * r.a1 + h.a3 * r.a0 + h.a4 * s4,
         h.a0 * r.a4 + h.a1 * r.a3 + h.a2 * r.a2 + h.a3 * r.a1 + h.a4 * r.a0)
  }

  lemma Fold(x0: Row, x1: Row, x2: Row, x3: Row, x4: Row)
    ensures RowVal(x0) + RowVal(x1) * B26 + RowVal(x2) * B52 + RowVal(x3) * B78 + RowVal(x4) * B104
         == (x0.c0 + 5 * x1.c4 + 5 * x2.c3 + 5 * x3.c2 + 5 * x4.c1)
          + (x0.c1 + x1.c0 + 5 * x2.c4 + 5 * x3.c3 + 5 * x4.c2) * B26
          + (x0.c2 + x1.c1 + x2.c0 + 5 * x3.c4 + 5 * x4.c3) * B52
          + (x0.c3 + x1.c2 + x2.c1 + x3.c0 + 5 * x4.c4) * B78
          + (x0.c4 + x1.c3 + x2.c2 + x3.c1 + x4.c0) * B104
          + P * ((x1.c4 + x2.c3 + x3.c2 + x4.c1) + (x2.c4 + x3.c3 + x4.c2) * B26
                 + (x3.c4 + x4.c3) * B52 + x4.c4 * B78)
  {
  }

  lemma ScaleVal(a: int, r: Limbs)
    ensures RowVal(Scale(a, r)) == a * Val(r)
  {
    TimesLimbs(a, r.a0, r.a1, r.a2, r.a3, r.a4);
  }

  lemma TimesLimbs(a: int, r0: int, r1: int, r2: int, r3: int, r4: int)
    ensures a * (r0 + r1 * B26 + r2 * B52 + r3 * B78 + r4 * B104)
         == a * r0 + (a * r1) * B26 + (a * r2) * B52 + (a * r3) * B78 + (a * r4) * B104
  {
  }

  lemma RowsVal(h: Limbs, r: Limbs)
    ensures Val(h) * Val(r) == RowVal(Scale(h.a0, r)) + RowVal(Scale(h.a1, r)) * B26 + RowVal(Scale(h.a2, r)) * B52
                             + RowVal(Scale(h.a3, r)) * B78 + RowVal(Scale(h.a4, r)) * B104
  {
    ScaleVal(h.a0, r);
    ScaleVal(h.a1, r);
    ScaleVal(h.a2, r);
    ScaleVal(h.a3, r);
    ScaleVal(h.a4, r);
    TimesLimbs(Val(r), h.a0, h.a1, h.a2, h.a3, h.a4);
  }

  ghost predicate Columns(w: Wide, x0: Row, x1: Row, x2: Row, x3: Row, x4: Row)
  {
    && w.d0 == x0.c0 + 5 * x1.c4 + 5 * x2.c3 + 5 * x3.c2 + 5 * x4.c1
    && w.d1 == x0.c1 + x1.c0 + 5 * x2.c4 + 5 * x3.c3 + 5 * x4.c2
    && w.d2 == x0.c2 + x1.c1 + x2.c0 + 5 * x3.c4 + 5 * x4.c3
    && w.d3 == x0.c3 + x1.c2 + x2.c1 + x3.c0 + 5 * x4.c4
    && w.d4 == x0.c4 + x1.c3 + x2.c2 + x3.c1 + x4.c0
  }

  lemma ProductColumns(h: Limbs, r: Limbs)
    requires Loaded(h) && Multiplier(r)
    ensures Columns(Products(h, r), Scale(h.a0, r), Scale(h.a1, r), Scale(h.a2, r), Scale(h.a3, r), Scale(h.a4, r))
  {
    RowBound(h.a1, r);
    RowBound(h.a2, r);
    RowBound(h.a3, r);
    RowBound(h.a4, r);
  }

  lemma FoldColumns(w: Wide, x0: Row, x1: Row, x2: Row, x3: Row, x4: Row)
    requires Columns(w, x0, x1, x2, x3, x4)
    ensures WideVal(w) % P
         == (RowVal(x0) + RowVal(x1) * B26 + RowVal(x2) * B52 + RowVal(x3) * B78 + RowVal(x4) * B104) % P
  {
    Fold(x0, x1, x2, x3, x4);
    AddMultiple(WideVal(w), P,
                (x1.c4 + x2.c3 + x3.c2 + x4.c1) + (x2.c4 + x3.c3 + x4.c2) * B26 + (x3.c4 + x4.c3) * B52 + x4.c4 * B78);
  }

  /** The columns represent the product modulo the prime. */
  lemma ProductsModP(h: Limbs, r: Limbs)
    requires Loaded(h) && Multiplier(r)
    ensures WideVal(Products(h, r)) % P == (Val(h) * Val(r)) % P
  {
    ProductColumns(h, r);
    ColumnsModP(Products(h, r), h, r);
  }

  lemma ColumnsModP(w: Wide, h: Limbs, r: Limbs)
    requires Columns(w, Scale(h.a0, r), Scale(h.a1, r), Scale(h.a2, r), Scale(h.a3, r), Scale(h.a4, r))
    ensures WideVal(w) % P == (Val(h) * Val(r)) % P
  {
    RowsVal(h, r);
    FoldColumns(w, Scale(h.a0, r), Scale(h.a1, r), Scale(h.a2, r), Scale(h.a3, r), Scale(h.a4, r));
  }

  // ----- carrying

  lemma Pow26()
    ensures Pow2(26) == B26
  {
    assert Pow2(13) == 8192;
    Pow2Add(13, 13);
  }

  /** `x as u32 & 0x3ffffff` is the remainder modulo 2^26, which is how the carry chains below write it. */
  lemma Mask26Is(x: nat)
    ensures And(x % 0x1_0000_0000, MASK26) == x % B26
  {
    var y := x % 0x1_0000_0000;
    Pow26();
    AndMask(y, 26);
    DivUnique(x, B26, 64 * (x / 0x1_0000_0000) + y / B26, y % B26);
  }

  /** Bounds on the columns, small enough that no carry leaves its word. */
  predicate Carryable(w: Wide)
  {
    && w.d0 <= 17 * FULL * B26 && w.d1 <= 13 * FULL * B26 && w.d2 <= 9 * FULL * B26
    && w.d3 <= 5 * FULL * B26 && w.d4 <= 4 * FULL * B26 + FULL * 0x10_0000
  }

  predicate Small(x: Row)
  {
    && 0 <= x.c0 <= FULL * B26 && 0 <= x.c1 <= FULL * B26 && 0 <= x.c2 <= FULL * B26 && 0 <= x.c3 <= FULL * B26
    && 0 <= x.c4 <= FULL * 0x10_0000
  }

  lemma ProductsCarryable(h: Limbs, r: Limbs)
    requires Loaded(h) && Multiplier(r)
    ensures Carryable(Products(h, r))
  {
    ProductColumns(h, r);
    RowBound(h.a0, r);
    RowBound(h.a1, r);
    RowBound(h.a2, r);
    RowBound(h.a3, r);
    RowBound(h.a4, r);
  }

  // The columns as the carry reaches them.
  function D1(w: Wide): nat { w.d1 + w.d0 / B26 }
  function D2(w: Wide): nat { w.d2 + D1(w) / B26 }
  function D3(w: Wide): nat { w.d3 + D2(w) / B26 }
  function D4(w: Wide): nat { w.d4 + D3(w) / B26 }
  /** Limb 0 after the carry out of the top limb has come back times 5. */
  function H0(w: Wide): nat { w.d0 % B26 + D4(w) / B26 * 5 }

  /** No step of the carry chain leaves its 64-bit or 32-bit word. */
  lemma CarryFits(w: Wide)
    requires Carryable(w)
    ensures D1(w) < 0x1_0000_0000_0000_0000 && D2(w) < 0x1_0000_0000_0000_0000
    ensures D3(w) < 0x1_0000_0000_0000_0000 && D4(w) < 0x1_0000_0000_0000_0000
    ensures D4(w) / B26 * 5 < 0x1_0000_0000 && H0(w) < 0x1_0000_0000 && H0(w) / B26 < 64
  {
  }

  /** The carry chain after a multiplication. */
  function Carry(w: Wide): (h: Limbs)
    requires Carryable(w)
    ensures Reduced(h)
  {
    CarryFits(w);
    Limbs(H0(w) % B26, D1(w) % B26 + H0(w) / B26, D2(w) % B26, D3(w) % B26, D4(w) % B26)
  }

  /** What the carry chain does to the value: remainders r, quotients q, and the last carry c into limb 1. */
  lemma CarryIdentity(w: Wide, q0: int, r0: int, q1: int, r1: int, q2: int, r2: int, q3: int, r3: int, q4: int, r4: int,
                      c: int, l0: int)
    requires w.d0 == B26 * q0 + r0 && w.d1 + q0 == B26 * q1 + r1 && w.d2 + q1 == B26 * q2 + r2
    requires w.d3 + q2 == B26 * q3 + r3 && w.d4 + q3 == B26 * q4 + r4 && r0 + 5 * q4 == B26 * c + l0
    requires 0 <= l0 < B26 && 0 <= r1 + c < 2 * B26 && 0 <= r2 < B26 && 0 <= r3 < B26 && 0 <= r4 < B26
    ensures Val(Limbs(l0, r1 + c, r2, r3, r4)) + P * q4 == WideVal(w)
  {
  }

  lemma CarryExact(w: Wide)
    requires Carryable(w)
    ensures Val(Carry(w)) + P * (D4(w) / B26) == WideVal(w)
  {
    CarryIdentity(w, w.d0 / B26, w.d0 % B26, D1(w) / B26, D1(w) % B26, D2(w) / B26, D2(w) % B26,
                  D3(w) / B26, D3(w) % B26, D4(w) / B26, D4(w) % B26, H0(w) / B26, H0(w) % B26);
  }

  lemma CarryModP(w: Wide)
    requires Carryable(w)
    ensures Val(Carry(w)) % P == WideVal(w) % P
  {
    CarryExact(w);
    AddMultiple(Val(Carry(w)), P, D4(w) / B26);
  }

  // ----- loading

  /** Four little-endian 32-bit words. */
  datatype Words = Words(t0: U32, t1: U32, t2: U32, t3: U32)

  function WordsVal(t: Words): nat
  {
    t.t0 + t.t1 * 0x1_0000_0000 + t.t2 * 0x1_0000_0000_0000_0000 + t.t3 * 0x1_0000_0000_0000_0000_0000_0000
  }

  function LoadWords(s: seq<Byte>, i: nat): Words
    requires i + 16 <= |s|
  {
    Words(Load32(s, i), Load32(s, i + 4), Load32(s, i + 8), Load32(s, i + 12))
  }

  // The three words that straddle limb boundaries: `(t0 >> 26) | (t1 << 6)` and so on.
  function J1(t: Words): nat { Join(t.t0 / B26, t.t1, 6) }
  function J2(t: Words): nat { Join(t.t1 / 0x10_0000, t.t2, 12) }
  function J3(t: Words): nat { Join(t.t2 / 0x4000, t.t3, 18) }

  lemma SmallPowers()
    ensures Pow2(6) == 64 && Pow2(8) == 256 && Pow2(12) == 0x1000 && Pow2(14) == 0x4000
    ensures Pow2(18) == 0x4_0000 && Pow2(20) == 0x10_0000 && Pow2(24) == 0x100_0000 && Pow2(26) == B26
  {
    assert Pow2(9) == 512;
    Pow2Add(9, 9);
    assert Pow2(10) == 1024;
    Pow2Add(10, 10);
    Pow2Add(12, 12);
    Pow26();
  }

  lemma JoinsLow(t: Words)
    ensures J1(t) % B26 == t.t0 / B26 + 64 * (t.t1 % 0x10_0000)
    ensures J2(t) % B26 == t.t1 / 0x10_0000 + 0x1000 * (t.t2 % 0x4000)
    ensures J3(t) % B26 == t.t2 / 0x4000 + 0x4_0000 * (t.t3 % 0x100)
  {
    SmallPowers();
    JoinLow(t.t0 / B26, t.t1, 6, 26);
    JoinLow(t.t1 / 0x10_0000, t.t2, 12, 26);
    JoinLow(t.t2 / 0x4000, t.t3, 18, 26);
  }

  /** A 128-bit number cut into 26-bit limbs. */
  function Split(t: Words): Limbs
  {
    Limbs(t.t0 % B26, J1(t) % B26, J2(t) % B26, J3(t) % B26, t.t3 / 0x100)
  }

  lemma SplitVal(t: Words)
    ensures Val(Split(t)) == WordsVal(t)
  {
    JoinsLow(t);
  }

  // ----- clamping

  const C1: int := 0x3ff_ff03
  const C2: int := 0x3ff_c0ff
  const C3: int := 0x3f0_3fff
  const C4: int := 0xf_ffff

  /** The clamped multiplier as the code computes it, limb by limb. */
  function ClampLimbs(t: Words): Limbs
  {
    Limbs(And(t.t0, MASK26), And(J1(t), C1), And(J2(t), C2), And(J3(t), C3), And(t.t3 / 0x100, C4))
  }

  /** A limb below the rest of a number. */
  function Up(m: nat, rest: nat): nat { m + B26 * rest }

  lemma AndSplit26(a: nat, x: nat, b: nat, y: nat)
    requires a < B26 && b < B26
    ensures And(Up(a, x), Up(b, y)) == Up(And(a, b), And(x, y))
  {
    Pow26();
    AndSplit(a, x, b, y, 26, B26);
  }

  lemma AndLow(x: nat, c: nat)
    requires c < B26
    ensures And(x, c) == And(x % B26, c)
  {
    AndSplit26(x % B26, x / B26, c, 0);
    AndZero(x / B26);
  }

  /** Five limbs as one number, innermost last. */
  function Nest(m0: nat, m1: nat, m2: nat, m3: nat, m4: nat): nat
  {
    Up(m0, Up(m1, Up(m2, Up(m3, m4))))
  }

  /** Masking limb by limb is masking the whole number. */
  lemma AndLimbs(m: Limbs, c: Limbs)
    requires m.a0 < B26 && m.a1 < B26 && m.a2 < B26 && m.a3 < B26
    requires c.a0 < B26 && c.a1 < B26 && c.a2 < B26 && c.a3 < B26
    ensures And(Nest(m.a0, m.a1, m.a2, m.a3, m.a4), Nest(c.a0, c.a1, c.a2, c.a3, c.a4))
         == Nest(And(m.a0, c.a0), And(m.a1, c.a1), And(m.a2, c.a2), And(m.a3, c.a3), And(m.a4, c.a4))
  {
    var x3, y3 := Up(m.a3, m.a4), Up(c.a3, c.a4);
    var x2, y2 := Up(m.a2, x3), Up(c.a2, y3);
    var x1, y1 := Up(m.a1, x2), Up(c.a1, y2);
    AndSplit26(m.a3, m.a4, c.a3, c.a4);
    AndSplit26(m.a2, x3, c.a2, y3);
    AndSplit26(m.a1, x2, c.a1, y2);
    AndSplit26(m.a0, x1, c.a0, y1);
  }

  lemma NestIsVal(l: Limbs)
    ensures Nest(l.a0, l.a1, l.a2, l.a3, l.a4) == Val(l)
  {
  }

  lemma ClampVal(t: Words)
    ensures Val(ClampLimbs(t)) == And(WordsVal(t), CLAMP)
  {
    var l, c := Split(t), Limbs(MASK26, C1, C2, C3, C4);
    SplitVal(t);
    AndLimbs(l, c);
    NestIsVal(l);
    NestIsVal(c);
    ClampSplit(t);
    NestIsVal(ClampLimbs(t));
  }

  /** Each limb of the clamped multiplier is the masked limb of the number. */
  lemma ClampSplit(t: Words)
    ensures var l := Split(t);
      ClampLimbs(t) == Limbs(And(l.a0, MASK26), And(l.a1, C1), And(l.a2, C2), And(l.a3, C3), And(l.a4, C4))
  {
    AndLow(t.t0, MASK26);
    AndLow(J1(t), C1);
    AndLow(J2(t), C2);
    AndLow(J3(t), C3);
  }

  lemma ClampIsMultiplier(t: Words)
    ensures Multiplier(ClampLimbs(t))
  {
  }

  // ----- bytes

  lemma Le4(s: seq<Byte>)
    requires |s| == 4
    ensures Le(s) == Load32(s, 0)
  {
    assert Le(s) == s[0] + 256 * Le(s[1..]);
    assert Le(s[1..]) == s[1] + 256 * Le(s[2..]) by { assert s[1..][1..] == s[2..]; }
    assert Le(s[2..]) == s[2] + 256 * Le(s[3..]) by { assert s[2..][1..] == s[3..]; }
    assert Le(s[3..]) == s[3] + 256 * Le(s[4..]) by { assert s[3..][1..] == s[4..]; }
    assert Le(s[4..]) == 0;
  }

  lemma LoadAt(s: seq<Byte>, i: nat)
    requires i + 4 <= |s|
    ensures Le(s[i..i + 4]) == Load32(s, i)
  {
    Le4(s[i..i + 4]);
  }

  lemma Pow2Double(n: nat, v: nat)
    requires Pow2(n) == v
    ensures Pow2(n + n) == v * v
  {
    Pow2Add(n, n);
  }

  lemma Pow32()
    ensures Pow2(32) == 0x1_0000_0000 && Pow2(64) == 0x1_0000_0000_0000_0000 && Pow2(128) == B128
  {
    assert Pow2(8) == 0x100;
    Pow2Double(8, 0x100);
    Pow2Double(16, 0x1_0000);
    Pow2Double(32, 0x1_0000_0000);
    Pow2Double(64, 0x1_0000_0000_0000_0000);
  }

  lemma LoadAt8(s: seq<Byte>, i: nat)
    requires i + 8 <= |s|
    ensures Le(s[i..i + 8]) == Load32(s, i) + 0x1_0000_0000 * Load32(s, i + 4)
  {
    assert s[i..i + 8] == s[i..i + 4] + s[i + 4..i + 8];
    LeConcat(s[i..i + 4], s[i + 4..i + 8]);
    LoadAt(s, i);
    LoadAt(s, i + 4);
    Pow32();
  }

  lemma LoadWordsVal(s: seq<Byte>, i: nat)
    requires i + 16 <= |s|
    ensures WordsVal(LoadWords(s, i)) == Le(s[i..i + 16])
  {
    assert s[i..i + 16] == s[i..i + 8] + s[i + 8..i + 16];
    LeConcat(s[i..i + 8], s[i + 8..i + 16]);
    LoadAt8(s, i);
    LoadAt8(s, i + 8);
    Pow32();
  }

  /** The 17-byte buffer: the chunk, the byte 1, zeros. */
  function Buffer(chunk: seq<Byte>): seq<Byte>
    requires |chunk| <= 16
  {
    chunk + [1] + Zeros(16 - |chunk|)
  }

  lemma BufferVal(chunk: seq<Byte>)
    requires |chunk| <= 16
    ensures Le(Buffer(chunk)[..16]) + (if |chunk| == 16 then B128 else 0) == Padded(chunk)
  {
    var b := Buffer(chunk);
    if |chunk| == 16 {
      assert b[..16] == chunk;
      Pow32();
    } else {
      var tail := [1] + Zeros(15 - |chunk|);
      assert b[..16] == chunk + tail;
      LeConcat(chunk, tail);
      assert tail[1..] == Zeros(15 - |chunk|);
      LeZeros(15 - |chunk|);
    }
  }

  // ----- absorbing a block

  const HIBIT: int := 0x100_0000

  /** The accumulator with the limbs of a block added. */
  function Absorb(h: Limbs, t: Words, full: bool): (h': Limbs)
    requires Reduced(h)
    ensures Loaded(h')
  {
    var m := Split(t);
    var hibit := if full then HIBIT else 0;
    TopLimb(t, hibit);
    Limbs(h.a0 + m.a0, h.a1 + m.a1, h.a2 + m.a2, h.a3 + m.a3, h.a4 + Or(m.a4, hibit))
  }

  lemma TopLimb(t: Words, hibit: nat)
    requires hibit == 0 || hibit == HIBIT
    ensures Or(t.t3 / 0x100, hibit) == t.t3 / 0x100 + hibit <= 2 * HIBIT
  {
    SmallPowers();
    OrDisjoint(t.t3 / 0x100, hibit, 24);
  }

  lemma AbsorbVal(h: Limbs, t: Words, full: bool)
    requires Reduced(h)
    ensures Val(Absorb(h, t, full)) == Val(h) + WordsVal(t) + if full then B128 else 0
  {
    SplitVal(t);
    TopLimb(t, if full then HIBIT else 0);
  }

  /** One block: absorb, multiply, carry. */
  function BlockStep(h: Limbs, r: Limbs, t: Words, full: bool): (h': Limbs)
    requires Reduced(h) && Multiplier(r)
    ensures Reduced(h')
  {
    ProductsCarryable(Absorb(h, t, full), r);
    Carry(Products(Absorb(h, t, full), r))
  }

  lemma BlockStepModP(h: Limbs, r: Limbs, t: Words, full: bool)
    requires Reduced(h) && Multiplier(r)
    ensures Val(BlockStep(h, r, t, full)) % P == Product(Val(h) + WordsVal(t) + if full then B128 else 0, Val(r))
  {
    var x := Absorb(h, t, full);
    AbsorbVal(h, t, full);
    ProductsCarryable(x, r);
    CarryModP(Products(x, r));
    ProductsModP(x, r);
  }

  /** A block sees the accumulator only modulo the prime. */
  lemma AccumulateStep(h: nat, acc: nat, block: seq<Byte>, r: nat)
    requires h % P == acc
    ensures Next(h, block, r) == Next(acc, block, r)
  {
    ModIdempotent(h, P);
    ModAdd(h, acc, Padded(block), Padded(block), P);
    ModMul(h + Padded(block), acc + Padded(block), r, r, P);
  }
}
