/** Field elements to 32 little-endian bytes: full reduction and packing. */
module X25519Bytes {
  import opened Bits
  import opened ModArith
  import opened Field25519
  import opened LittleEndian
  import opened X25519Spec

  // ----- full reduction

  function Widen(f: Fe): Wide
  {
    Wide(f.a0, f.a1, f.a2, f.a3, f.a4)
  }

  lemma WidenCarryable(f: Fe)
    requires Loose(f)
    ensures SmallCarryable(Widen(f))
  {
  }

  /** One round of carries through all limbs, the last one coming back times 19. */
  function Round(f: Fe): Fe
    requires Loose(f)
  {
    WidenCarryable(f);
    CarryOnce(Widen(f))
  }

  lemma RoundRep(f: Fe)
    requires Loose(f)
    ensures Rep(Round(f)) == Rep(f)
  {
    ChainModP(Widen(f));
  }

  /** Limbs that are digits in base 2^51. */
  predicate Exact(f: Fe) { Within(f, B51) }

  predicate NearlyExact(f: Fe)
  {
    f.a0 < B51 + 0x100 && f.a1 < B51 && f.a2 < B51 && f.a3 < B51 && f.a4 < B51
  }

  lemma FirstRound(f: Fe)
    requires Loose(f)
    ensures NearlyExact(Round(f))
  {
  }

  /** After a second round no limb exceeds 51 bits: a carry out of the top needs one out of limb 0. */
  lemma SecondRound(f: Fe)
    requires NearlyExact(f)
    ensures Exact(Round(f))
  {
    var w := Widen(f);
    if f.a0 < B51 {
      assert D1(w) == f.a1 && D2(w) == f.a2 && D3(w) == f.a3 && D4(w) == f.a4;
    } else {
      assert f.a0 % B51 < 0x100 && D4(w) / B51 <= 1;
    }
  }

  // Whether f + 19 reaches 2^255, limb by limb.
  function Q0(f: Fe): nat { (f.a0 + 19) / B51 }
  function Q1(f: Fe): nat { (f.a1 + Q0(f)) / B51 }
  function Q2(f: Fe): nat { (f.a2 + Q1(f)) / B51 }
  function Q3(f: Fe): nat { (f.a3 + Q2(f)) / B51 }
  function Q4(f: Fe): nat { (f.a4 + Q3(f)) / B51 }

  // The limbs of f + 19 q as the carry reaches them.
  function F0(f: Fe): nat { f.a0 + 19 * Q4(f) }
  function F1(f: Fe): nat { f.a1 + F0(f) / B51 }
  function F2(f: Fe): nat { f.a2 + F1(f) / B51 }
  function F3(f: Fe): nat { f.a3 + F2(f) / B51 }
  function F4(f: Fe): nat { f.a4 + F3(f) / B51 }

  function Freeze(f: Fe): (r: Fe)
    requires Exact(f)
    ensures Exact(r)
  {
    Fe(F0(f) % B51, F1(f) % B51, F2(f) % B51, F3(f) % B51, F4(f) % B51)
  }

  lemma ExactBound(f: Fe)
    requires Exact(f)
    ensures Val(f) < B255
  {
  }

  /** Carrying without the way back: digits r, carries q. */
  lemma Digits(h0: int, h1: int, h2: int, h3: int, h4: int, q0: int, q1: int, q2: int, q3: int, q4: int, r: Fe)
    requires h0 == B51 * q0 + r.a0 && h1 + q0 == B51 * q1 + r.a1 && h2 + q1 == B51 * q2 + r.a2
    requires h3 + q2 == B51 * q3 + r.a3 && h4 + q3 == B51 * q4 + r.a4
    ensures Sum(h0, h1, h2, h3, h4) == Val(r) + B255 * q4
  {
  }

  /** f + 19 without its top carry. */
  function Probe(f: Fe): (r: Fe)
    ensures Exact(r)
  {
    Fe((f.a0 + 19) % B51, (f.a1 + Q0(f)) % B51, (f.a2 + Q1(f)) % B51, (f.a3 + Q2(f)) % B51, (f.a4 + Q3(f)) % B51)
  }

  lemma ProbeVal(f: Fe)
    ensures Val(f) + 19 == Val(Probe(f)) + B255 * Q4(f)
  {
    Digits(f.a0 + 19, f.a1, f.a2, f.a3, f.a4, Q0(f), Q1(f), Q2(f), Q3(f), Q4(f), Probe(f));
  }

  /** The chain q tells whether the value is at least the prime. */
  lemma QuotientTells(f: Fe)
    requires Exact(f)
    ensures Q4(f) == if Val(f) >= P then 1 else 0
  {
    ProbeVal(f);
    ExactBound(f);
    ExactBound(Probe(f));
    WhichQuotient(Val(f), Val(Probe(f)), Q4(f));
  }

  lemma WhichQuotient(v: int, r: int, q: int)
    requires v + 19 == r + B255 * q && 0 <= r < B255 && 0 <= v < B255
    ensures q == if v >= P then 1 else 0
  {
  }

  lemma FreezeDigits(f: Fe)
    requires Exact(f)
    ensures Val(f) + 19 * Q4(f) == Val(Freeze(f)) + B255 * (F4(f) / B51)
  {
    Digits(F0(f), f.a1, f.a2, f.a3, f.a4, F0(f) / B51, F1(f) / B51, F2(f) / B51, F3(f) / B51, F4(f) / B51, Freeze(f));
  }

  lemma FreezeVal(f: Fe)
    requires Exact(f)
    ensures Val(Freeze(f)) == Rep(f)
  {
    ExactBound(f);
    ExactBound(Freeze(f));
    QuotientTells(f);
    FreezeDigits(f);
    FrozenValue(Val(f), Val(Freeze(f)), Q4(f), F4(f) / B51);
  }

  lemma FrozenValue(v: int, r: int, q: int, c: int)
    requires 0 <= v < B255 && 0 <= r < B255 && q == (if v >= P then 1 else 0) && v + 19 * q == r + B255 * c
    ensures r == v % P
  {
    assert c == q;
    DivUnique(v, P, q, r);
  }

  function Reduce(f: Fe): (r: Fe)
    requires Loose(f)
    ensures Exact(r)
  {
    FirstRound(f);
    SecondRound(Round(f));
    Freeze(Round(Round(f)))
  }

  lemma ReduceVal(f: Fe)
    requires Loose(f)
    ensures Val(Reduce(f)) == Rep(f)
  {
    FirstRound(f);
    SecondRound(Round(f));
    RoundRep(f);
    RoundRep(Round(f));
    FreezeVal(Round(Round(f)));
  }

  // ----- packing

  lemma BytePowers()
    ensures Pow2(8) == 0x100 && Pow2(16) == 0x1_0000 && Pow2(24) == 0x100_0000 && Pow2(32) == 0x1_0000_0000
    ensures Pow2(40) == 0x100_0000_0000 && Pow2(48) == 0x1_0000_0000_0000 && Pow2(56) == 0x100_0000_0000_0000
  {
    assert Pow2(8) == 0x100;
    Pow2Byte(1);
    Pow2Byte(2);
    Pow2Byte(3);
    Pow2Byte(4);
    Pow2Byte(5);
    Pow2Byte(6);
  }

  const M45: int := 0x2000_0000_0000
  const M47: int := 0x8000_0000_0000
  const M48: int := 0x1_0000_0000_0000
  const M50: int := 0x4_0000_0000_0000
  const M56: int := 0x100_0000_0000_0000

  // The bytes in the order of the limbs they come from. A byte that two limbs share is put together with an or.
  function Seg0(h0: nat): seq<Byte>
  {
    [h0 % 256, h0 / 0x100 % 256, h0 / 0x1_0000 % 256, h0 / 0x100_0000 % 256, h0 / 0x1_0000_0000 % 256,
     h0 / 0x100_0000_0000 % 256]
  }

  function Seg1(t: nat, h1: nat): seq<Byte>
  {
    [Shared(t, h1, 8), h1 / 0x20 % 256, h1 / 0x2000 % 256, h1 / 0x20_0000 % 256, h1 / 0x2000_0000 % 256,
     h1 / 0x20_0000_0000 % 256]
  }

  function Seg2(t: nat, h2: nat): seq<Byte>
  {
    [Shared(t, h2, 64), h2 / 0x4 % 256, h2 / 0x400 % 256, h2 / 0x4_0000 % 256,
     h2 / 0x400_0000 % 256, h2 / 0x4_0000_0000 % 256, h2 / 0x400_0000_0000 % 256]
  }

  function Seg3(t: nat, h3: nat): seq<Byte>
  {
    [Shared(t, h3, 2), h3 / 0x80 % 256, h3 / 0x8000 % 256, h3 / 0x80_0000 % 256,
     h3 / 0x8000_0000 % 256, h3 / 0x80_0000_0000 % 256]
  }

  function Seg4(t: nat, h4: nat): seq<Byte>
  {
    [Shared(t, h4, 16), h4 / 0x10 % 256, h4 / 0x1000 % 256, h4 / 0x10_0000 % 256,
     h4 / 0x1000_0000 % 256, h4 / 0x10_0000_0000 % 256, h4 / 0x1000_0000_0000 % 256]
  }

  /** The byte with the last bits of one limb and the first of the next. */
  function Shared(t: nat, h: nat, s: nat): Byte
  {
    ByteOr(t % 256, (h * s) % 256)
  }

  function ByteOr(x: Byte, y: Byte): Byte
  {
    assert Pow2(8) == 256;
    OrBound(x, y, 8);
    Or(x, y)
  }

  lemma SharedIs(t: nat, h: nat, s: nat, k: nat)
    requires k <= 8 && s == Pow2(k) && t < s
    ensures Shared(t, h, s) == (t + s * h) % 256
  {
    Pow2Add(k, 8 - k);
    assert Pow2(8) == 256;
    var d := Pow2(8 - k);
    SharedParts(t, h, s, d);
    DivUnique((h * s) % 256, s, h % d, 0);
    OrDisjoint(t, (h * s) % 256, k);
  }

  lemma SharedParts(t: nat, h: nat, s: nat, d: nat)
    requires t < s && s * d == 256 && d > 0
    ensures (h * s) % 256 == s * (h % d) && (t + s * h) % 256 == t + s * (h % d) && t % 256 == t
  {
    var q, r := h / d, h % d;
    Dist(s, d * q, r);
    Assoc(s, d, q);
    LowBound(r, d, s, t);
    DivUnique(s * h, 256, q, s * r);
    DivUnique(t + s * h, 256, q, t + s * r);
    DivUnique(t, 256, 0, t);
  }

  function Pack(h: Fe): seq<Byte>
  {
    Seg0(h.a0) + Seg1(h.a0 / M48, h.a1) + Seg2(h.a1 / M45, h.a2) + Seg3(h.a2 / M50, h.a3) + Seg4(h.a3 / M47, h.a4)
  }

  lemma ByteIs(n: nat, i: nat, d: nat)
    requires d == Pow2(8 * i)
    ensures ByteAt(n, i) == n / d % 256
  {
  }

  lemma Bytes6(n: nat)
    ensures ToLe(n, 6) == [ByteAt(n, 0), ByteAt(n, 1), ByteAt(n, 2), ByteAt(n, 3), ByteAt(n, 4), ByteAt(n, 5)]
  {
  }

  lemma Bytes7(n: nat)
    ensures ToLe(n, 7)
         == [ByteAt(n, 0), ByteAt(n, 1), ByteAt(n, 2), ByteAt(n, 3), ByteAt(n, 4), ByteAt(n, 5), ByteAt(n, 6)]
  {
  }

  lemma Seg0Is(h0: nat)
    ensures Seg0(h0) == ToLe(h0, 6)
  {
    BytePowers();
    ByteIs(h0, 1, 0x100);
    ByteIs(h0, 2, 0x1_0000);
    ByteIs(h0, 3, 0x100_0000);
    ByteIs(h0, 4, 0x1_0000_0000);
    ByteIs(h0, 5, 0x100_0000_0000);
    FirstByte(h0);
    Bytes6(h0);
  }

  /** Byte i of t + s * h, when the byte starts inside h. */
  lemma InnerByte(t: nat, h: nat, s: nat, i: nat, d: nat, n: nat)
    requires t < s && d > 0 && s * d == Pow2(8 * i) && n == t + s * h
    ensures ByteAt(n, i) == h / d % 256
  {
    Shifted(t, h, s, d);
    ByteIs(n, i, s * d);
  }

  lemma FirstByte(n: nat)
    ensures ByteAt(n, 0) == n % 256
  {
    assert Pow2(0) == 1;
  }

  lemma Seg1Is(t: nat, h1: nat)
    requires t < 8
    ensures Seg1(t, h1) == ToLe(t + 8 * h1, 6)
  {
    var n := t + 8 * h1;
    assert Pow2(3) == 8;
    SharedIs(t, h1, 8, 3);
    FirstByte(n);
    Bytes6(n);
    Seg1Inner(t, h1, n);
  }

  lemma Seg1Inner(t: nat, h1: nat, n: nat)
    requires t < 8 && n == t + 8 * h1
    ensures ByteAt(n, 1) == h1 / 0x20 % 256 && ByteAt(n, 2) == h1 / 0x2000 % 256 && ByteAt(n, 3) == h1 / 0x20_0000 % 256
    ensures ByteAt(n, 4) == h1 / 0x2000_0000 % 256 && ByteAt(n, 5) == h1 / 0x20_0000_0000 % 256
  {
    BytePowers();
    InnerByte(t, h1, 8, 1, 0x20, n);
    InnerByte(t, h1, 8, 2, 0x2000, n);
    InnerByte(t, h1, 8, 3, 0x20_0000, n);
    InnerByte(t, h1, 8, 4, 0x2000_0000, n);
    InnerByte(t, h1, 8, 5, 0x20_0000_0000, n);
  }

  lemma Seg2Is(t: nat, h2: nat)
    requires t < 64
    ensures Seg2(t, h2) == ToLe(t + 64 * h2, 7)
  {
    var n := t + 64 * h2;
    BytePowers();
    assert Pow2(6) == 64;
    SharedIs(t, h2, 64, 6);
    FirstByte(n);
    Bytes7(n);
    InnerByte(t, h2, 64, 1, 0x4, n);
    InnerByte(t, h2, 64, 2, 0x400, n);
    InnerByte(t, h2, 64, 3, 0x4_0000, n);
    InnerByte(t, h2, 64, 4, 0x400_0000, n);
    InnerByte(t, h2, 64, 5, 0x4_0000_0000, n);
    InnerByte(t, h2, 64, 6, 0x400_0000_0000, n);
  }

  lemma Seg3Is(t: nat, h3: nat)
    requires t < 2
    ensures Seg3(t, h3) == ToLe(t + 2 * h3, 6)
  {
    var n := t + 2 * h3;
    BytePowers();
    assert Pow2(1) == 2;
    SharedIs(t, h3, 2, 1);
    FirstByte(n);
    Bytes6(n);
    InnerByte(t, h3, 2, 1, 0x80, n);
    InnerByte(t, h3, 2, 2, 0x8000, n);
    InnerByte(t, h3, 2, 3, 0x80_0000, n);
    InnerByte(t, h3, 2, 4, 0x8000_0000, n);
    InnerByte(t, h3, 2, 5, 0x80_0000_0000, n);
  }

  lemma Seg4Is(t: nat, h4: nat)
    requires t < 16
    ensures Seg4(t, h4) == ToLe(t + 16 * h4, 7)
  {
    var n := t + 16 * h4;
    BytePowers();
    assert Pow2(4) == 16;
    SharedIs(t, h4, 16, 4);
    FirstByte(n);
    Bytes7(n);
    InnerByte(t, h4, 16, 1, 0x10, n);
    InnerByte(t, h4, 16, 2, 0x1000, n);
    InnerByte(t, h4, 16, 3, 0x10_0000, n);
    InnerByte(t, h4, 16, 4, 0x1000_0000, n);
    InnerByte(t, h4, 16, 5, 0x10_0000_0000, n);
    InnerByte(t, h4, 16, 6, 0x1000_0000_0000, n);
  }

  /** Each step: the bytes of one limb, with the bits the limb before it left over. */
  lemma PackStep(n: nat, t: nat, h: nat, rest: nat, s: nat, d: nat, k: nat, m: nat, len: nat, b: nat, out: nat)
    requires 0 < s && t < s && 0 < d && s * d == m && m == Pow2(8 * len) && d * k == B51
    requires n == t + s * (h + B51 * rest) && out == Quotient(h, d) + k * rest
    ensures ToLe(n, len + b) == ToLe(t + s * h, len) + ToLe(out, b)
  {
    Assoc(d, k, rest);
    Dist(s, h, B51 * rest);
    Assoc(s, d, k * rest);
    Shifted(t, h, s, d);
    Segment(n, t + s * h, k * rest, len, b, m);
  }

  /** The value with its powers nested. */
  lemma Nested(h: Fe, rest: nat)
    requires rest == h.a1 + B51 * (h.a2 + B51 * (h.a3 + B51 * h.a4))
    ensures Val(h) == h.a0 + B51 * rest
  {
  }

  function Rest4(h: Fe): nat { h.a3 / M47 + 16 * h.a4 }
  function Rest3(h: Fe): nat { h.a2 / M50 + 2 * (h.a3 + B51 * h.a4) }
  function Rest2(h: Fe): nat { h.a1 / M45 + 64 * (h.a2 + B51 * (h.a3 + B51 * h.a4)) }
  function Rest1(h: Fe): nat { h.a0 / M48 + 8 * (h.a1 + B51 * (h.a2 + B51 * (h.a3 + B51 * h.a4))) }

  lemma PackFirst(h: Fe)
    ensures ToLe(Val(h), 32) == Seg0(h.a0) + ToLe(Rest1(h), 26)
  {
    var rest := h.a1 + B51 * (h.a2 + B51 * (h.a3 + B51 * h.a4));
    Nested(h, rest);
    Seg0Is(h.a0);
    SevenBytes(6);
    PackStep(Val(h), 0, h.a0, rest, 1, M48, 8, M48, 6, 26, Rest1(h));
  }

  lemma PackSecond(h: Fe)
    requires Exact(h)
    ensures ToLe(Rest1(h), 26) == Seg1(h.a0 / M48, h.a1) + ToLe(Rest2(h), 20)
  {
    var t, rest := h.a0 / M48, h.a2 + B51 * (h.a3 + B51 * h.a4);
    Seg1Is(t, h.a1);
    SevenBytes(6);
    PackStep(Rest1(h), t, h.a1, rest, 8, M45, 64, M48, 6, 20, Rest2(h));
  }

  lemma PackThird(h: Fe)
    requires Exact(h)
    ensures ToLe(Rest2(h), 20) == Seg2(h.a1 / M45, h.a2) + ToLe(Rest3(h), 13)
  {
    var t, rest := h.a1 / M45, h.a3 + B51 * h.a4;
    Seg2Is(t, h.a2);
    SevenBytes(7);
    PackStep(Rest2(h), t, h.a2, rest, 64, M50, 2, M56, 7, 13, Rest3(h));
  }

  lemma SevenBytes(n: nat)
    requires n == 6 || n == 7
    ensures Pow2(8 * n) == if n == 6 then M48 else M56
  {
    BytePowers();
  }

  lemma PackFourth(h: Fe)
    requires Exact(h)
    ensures ToLe(Rest3(h), 13) == Seg3(h.a2 / M50, h.a3) + ToLe(Rest4(h), 7)
  {
    SevenBytes(6);
    Seg3Is(h.a2 / M50, h.a3);
    PackStep(Rest3(h), h.a2 / M50, h.a3, h.a4, 2, M47, 16, M48, 6, 7, Rest4(h));
  }

  lemma PackIs(h: Fe)
    requires Exact(h)
    ensures Pack(h) == ToLe(Val(h), 32)
  {
    PackFirst(h);
    PackSecond(h);
    PackThird(h);
    PackFourth(h);
    Seg4Is(h.a3 / M47, h.a4);
  }

  /** The bytes of the field element, reduced to its one value below the prime. */
  method ToBytes(f: Fe) returns (s: seq<Byte>)
    requires Loose(f)
    ensures s == ToLe(Rep(f), 32)
  {
    s := Pack(Reduce(f));
    ReduceVal(f);
    PackIs(Reduce(f));
  }
}
