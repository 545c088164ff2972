/** Field elements from 32 little-endian bytes. */
module X25519Load {
  import opened Bits
  import opened ModArith
  import opened Field25519
  import opened LittleEndian
  import opened X25519Bytes
  import opened X25519Spec

  /** Up to eight bytes from a position, as a 64-bit word. */
  function LoadLe64(s: seq<Byte>, pos: nat): (r: U64)
    requires pos <= |s|
  {
    var end := if pos + 8 < |s| then pos + 8 else |s|;
    LoadFits(s[pos..end]);
    Le(s[pos..end])
  }

  lemma LoadFits(s: seq<Byte>)
    requires |s| <= 8
    ensures Le(s) < 0x1_0000_0000_0000_0000
  {
    LeBound(s);
    Pow2Monotone(8 * |s|, 64);
    BytePowers();
    Pow2Byte(7);
  }

  function FromBytes(s: seq<Byte>): (r: Fe)
    requires |s| == 32
    ensures Exact(r)
  {
    Fe(LoadLe64(s, 0) % B51, (LoadLe64(s, 6) / 8) % B51, (LoadLe64(s, 12) / 64) % B51, (LoadLe64(s, 19) / 2) % B51,
       (LoadLe64(s, 24) / 0x1000) % B51)
  }

  /** 51 bits of a number, cut out of a 64-bit window on it. */
  lemma Window(y: nat, s: nat, k: nat)
    requires s > 0 && k > 0
    ensures s * (B51 * k) > 0 && y % (s * (B51 * k)) / s % B51 == y / s % B51
  {
    SplitBy(y, s, B51 * k);
    SplitBy(y / s, B51, k);
  }

  /** Limb number i, loaded at byte a with a shift of s, holds the bits from 51 i on. */
  lemma LimbIs(s: seq<Byte>, a: nat, shift: nat, i: nat)
    requires |s| == 32 && a + 8 <= 32 && shift <= 13 && 8 * a + shift == 51 * i
    ensures LoadLe64(s, a) / Pow2(shift) % B51 == Quotient(Le(s), Pow2(51 * i)) % B51
  {
    LeSlice(s, a, a + 8);
    Pow2Add(8 * a, shift);
    SplitBy(Le(s), Pow2(8 * a), Pow2(shift));
    Pow51();
    Pow2Add(51, 13 - shift);
    Pow2Add(shift, 64 - shift);
    Window(Above(Le(s), a), Pow2(shift), Pow2(13 - shift));
  }

  /** A number's low 255 bits from its five 51-bit digits. */
  lemma FiveDigits(u: nat)
    ensures u % B255 == Sum(u % B51, u / B51 % B51, u / B102 % B51, u / B153 % B51, u / B204 % B51)
  {
    var q1 := u / B51;
    var q2 := q1 / B51;
    var q3 := q2 / B51;
    var q4 := q3 / B51;
    SplitBy(u, B51, B51);
    SplitBy(u, B102, B51);
    SplitBy(u, B153, B51);
    var r := Fe(u % B51, q1 % B51, q2 % B51, q3 % B51, q4 % B51);
    Digits(u, 0, 0, 0, 0, q1, q2, q3, q4, q4 / B51, r);
    ExactBound(r);
    DivUnique(u, B255, q4 / B51, Val(r));
  }

  lemma LimbPower(i: nat)
    ensures Pow2(51 * (i + 1)) == B51 * Pow2(51 * i)
  {
    Pow51();
    Pow2Add(51, 51 * i);
  }

  /** The weights of the five limbs, and of the bit beyond them. */
  lemma LimbPowers(i: nat, d: nat)
    requires i <= 5
    requires d == if i == 0 then 1 else if i == 1 then B51 else if i == 2 then B102 else if i == 3 then B153
                  else if i == 4 then B204 else B255
    ensures Pow2(51 * i) == d
  {
    if i == 0 {
      assert Pow2(0) == 1;
    } else {
      LimbPowers(i - 1, if i == 1 then 1 else if i == 2 then B51 else if i == 3 then B102
                        else if i == 4 then B153 else B204);
      LimbPower(i - 1);
    }
  }

  lemma LimbAt(s: seq<Byte>, a: nat, shift: nat, i: nat, p: nat, d: nat)
    requires |s| == 32 && a + 8 <= 32 && shift <= 13 && 8 * a + shift == 51 * i && i <= 4 && p == Pow2(shift)
    requires d == if i == 0 then 1 else if i == 1 then B51 else if i == 2 then B102 else if i == 3 then B153 else B204
    ensures LoadLe64(s, a) / p % B51 == Le(s) / d % B51
  {
    LimbIs(s, a, shift, i);
    LimbPowers(i, d);
  }

  lemma FromBytesVal(s: seq<Byte>)
    requires |s| == 32
    ensures Val(FromBytes(s)) == Le(s) % B255
  {
    assert Pow2(0) == 1 && Pow2(1) == 2 && Pow2(3) == 8 && Pow2(6) == 64 && Pow2(12) == 0x1000;
    LimbAt(s, 0, 0, 0, 1, 1);
    LimbAt(s, 6, 3, 1, 8, B51);
    LimbAt(s, 12, 6, 2, 64, B102);
    LimbAt(s, 19, 1, 3, 2, B153);
    LimbAt(s, 24, 12, 4, 0x1000, B204);
    FiveDigits(Le(s));
  }

  lemma TopPower(n: nat)
    requires n == 31
    ensures Pow2(8 * n) * 128 == B255
  {
    assert Pow2(7) == 128;
    Pow2Add(8 * n, 7);
    LimbPowers(5, B255);
  }

  /** Masking off the top bit keeps the low 255 bits. */
  lemma CoordinateIs(u: seq<Byte>)
    requires |u| == 32
    ensures DecodeCoordinate(u) == Le(u) % B255
  {
    var low, top := u[..31], u[31];
    assert u == low + [top] && u[31 := top % 128] == low + [top % 128];
    LeConcat(low, [top]);
    LeConcat(low, [top % 128]);
    LeBound(low);
    TopPower(|low|);
    MaskTop(Le(low), Pow2(8 * |low|), top);
  }

  lemma MaskTop(low: nat, m: nat, top: Byte)
    requires low < m && m * 128 == B255
    ensures (low + m * top) % B255 == low + m * (top % 128)
  {
    var q, r := top / 128, top % 128;
    Dist(m, 128 * q, r);
    Assoc(m, 128, q);
    LowBound(r, 128, m, low);
    DivUnique(low + m * top, B255, q, low + m * r);
  }

  /** Loading represents the decoded coordinate. */
  lemma FromBytesRep(u: seq<Byte>)
    requires |u| == 32
    ensures Rep(FromBytes(u)) == DecodeCoordinate(u) % P
  {
    FromBytesVal(u);
    CoordinateIs(u);
  }
}
