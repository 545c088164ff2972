/** Byte strings as little-endian numbers. */
module LittleEndian {
  import opened Bits
  import opened ModArith

  type Byte = x: int | 0 <= x < 0x100 witness 0

  /** A byte string as a little-endian number. */
  function Le(s: seq<Byte>): nat
  {
    if s == [] then 0 else s[0] + 256 * Le(s[1..])
  }

  function Quotient(n: nat, d: nat): nat
    requires d > 0
  {
    n / d
  }

  /** A number without its k low bytes. */
  function Above(n: nat, k: nat): nat { Quotient(n, Pow2(8 * k)) }

  /** The k low bytes of a number. */
  function Below(n: nat, k: nat): nat { n % Pow2(8 * k) }

  function ByteAt(n: nat, i: nat): Byte { Above(n, i) % 256 }

  /** The len low bytes of a number, lowest first. */
  function ToLe(n: nat, len: nat): seq<Byte>
  {
    seq(len, i requires 0 <= i < len => ByteAt(n, i))
  }

  // ----- reading

  lemma {:induction false} LeConcat(a: seq<Byte>, b: seq<Byte>)
    ensures Le(a + b) == Le(a) + Pow2(8 * |a|) * Le(b)
    decreases |a|
  {
    if a == [] {
      assert a + b == b;
    } else {
      assert (a + b)[1..] == a[1..] + b;
      LeConcat(a[1..], b);
      LeStep(a[0], Le(a[1..]), Pow2(8 * (|a| - 1)), Le(b));
      Pow2Byte(|a| - 1);
    }
  }

  lemma LeStep(x: int, y: int, m: int, z: int)
    ensures x + 256 * (y + m * z) == (x + 256 * y) + (256 * m) * z
  {
  }

  lemma Pow2Byte(k: nat)
    ensures Pow2(8 * (k + 1)) == 256 * Pow2(8 * k)
  {
    assert Pow2(8) == 256;
    Pow2Add(8, 8 * k);
  }

  lemma {:induction false} LeBound(s: seq<Byte>)
    ensures Le(s) < Pow2(8 * |s|)
    decreases |s|
  {
    if s != [] {
      LeBound(s[1..]);
      Pow2Byte(|s| - 1);
    }
  }

  function Zeros(n: nat): seq<Byte> { seq(n, _ => 0) }

  lemma {:induction false} LeZeros(n: nat)
    ensures Le(Zeros(n)) == 0
    decreases n
  {
    if n > 0 {
      assert Zeros(n)[1..] == Zeros(n - 1);
      LeZeros(n - 1);
    }
  }

  // ----- writing

  lemma SplitBy(n: nat, a: nat, m: nat)
    requires m > 0 && a > 0
    ensures a * m > 0
    ensures n / (a * m) == n / a / m
    ensures n % (a * m) % a == n % a
    ensures n % (a * m) / a == n / a % m
  {
    var q, r := n / a, n % a;
    var low := a * (q % m) + r;
    MulBound(1, 1, a, m);
    LowBound(q % m, m, a, r);
    Assoc(a, m, q / m);
    Dist(a, m * (q / m), q % m);
    DivUnique(n, a * m, q / m, low);
    DivUnique(low, a, q % m, r);
  }

  lemma LowBound(x: nat, m: nat, a: nat, r: nat)
    requires x < m && r < a
    ensures a * x + r < a * m
  {
    MulBound(a, x, a, m - 1);
    Dist(a, m, -1);
  }

  lemma ByteBelow(n: nat, m: nat, k: nat, whole: nat)
    requires m > 0 && k > 0 && whole == m * (256 * k)
    ensures whole > 0 && n % whole / m % 256 == n / m % 256
  {
    SplitBy(n, m, 256 * k);
    SplitBy(n / m, 256, k);
  }

  /** Byte i of the low part of a number is byte i of the number. */
  lemma LowByte(n: nat, a: nat, i: nat)
    requires i < a
    ensures ByteAt(Below(n, a), i) == ByteAt(n, i)
  {
    Pow2Add(8 * i, 8 * (a - i));
    Pow2Byte(a - i - 1);
    ByteBelow(n, Pow2(8 * i), Pow2(8 * (a - i - 1)), Pow2(8 * a));
  }

  lemma HighByte(n: nat, a: nat, i: nat)
    ensures Above(Above(n, a), i) == Above(n, a + i)
  {
    Pow2Add(8 * a, 8 * i);
    SplitBy(n, Pow2(8 * a), Pow2(8 * i));
  }

  /** The bytes of a number: those of its low part, then those of what is left of it. */
  lemma ToLeSplit(n: nat, a: nat, b: nat)
    ensures ToLe(n, a + b) == ToLe(Below(n, a), a) + ToLe(Above(n, a), b)
  {
    forall i | 0 <= i < a
      ensures ByteAt(Below(n, a), i) == ByteAt(n, i)
    {
      LowByte(n, a, i);
    }
    forall i | 0 <= i < b
      ensures ByteAt(n, a + i) == ByteAt(Above(n, a), i)
    {
      HighByte(n, a, i);
    }
    Joined(n, Below(n, a), Above(n, a), a, b);
  }

  lemma Joined(n: nat, low: nat, high: nat, a: nat, b: nat)
    requires forall i {:trigger ByteAt(low, i)} :: 0 <= i < a ==> ByteAt(low, i) == ByteAt(n, i)
    requires forall i {:trigger ByteAt(high, i)} :: 0 <= i < b ==> ByteAt(n, a + i) == ByteAt(high, i)
    ensures ToLe(n, a + b) == ToLe(low, a) + ToLe(high, b)
  {
    var l, r := ToLe(n, a + b), ToLe(low, a) + ToLe(high, b);
    assert |l| == |r|;
    forall k | 0 <= k < a + b
      ensures l[k] == r[k]
    {
      if k >= a {
        assert r[k] == ByteAt(high, k - a);
      } else {
        assert r[k] == ByteAt(low, k);
      }
    }
  }

  /** Writing a number and reading it back gives the number, cut to the bytes there are. */
  lemma {:induction false} RoundTrip(n: nat, len: nat)
    ensures Le(ToLe(n, len)) == Below(n, len)
    decreases len
  {
    if len == 0 {
      assert Pow2(0) == 1;
    } else {
      assert Pow2(0) == 1;
      Pow2Byte(0);
      ToLeSplit(n, 1, len - 1);
      assert ToLe(n, len)[0] == n % 256;
      assert ToLe(n, len)[1..] == ToLe(Above(n, 1), len - 1);
      RoundTrip(Above(n, 1), len - 1);
      Pow2Byte(len - 1);
      SplitBy(n, 256, Pow2(8 * (len - 1)));
      Recombine(n, Pow2(8 * (len - 1)), Pow2(8 * len));
    }
  }

  lemma Recombine(n: nat, m: nat, whole: nat)
    requires m > 0 && whole == 256 * m
    ensures n % whole == n % 256 + 256 * (n / 256 % m)
  {
    SplitBy(n, 256, m);
  }

  /** Writing only looks at the bytes it writes. */
  lemma ToLeLow(n: nat, len: nat)
    ensures ToLe(Below(n, len), len) == ToLe(n, len)
  {
    forall i | 0 <= i < len
      ensures ByteAt(Below(n, len), i) == ByteAt(n, i)
    {
      LowByte(n, len, i);
    }
  }

  /** A number whose low bytes are those of u: write u, then what is left. */
  lemma Segment(n: nat, u: nat, c: nat, len: nat, b: nat, m: nat)
    requires m == Pow2(8 * len) && n == u + m * c
    ensures ToLe(n, len + b) == ToLe(u, len) + ToLe(Quotient(u, m) + c, b)
  {
    Dist(m, u / m, c);
    DivUnique(n, m, u / m + c, u % m);
    ToLeSplit(n, len, b);
    ToLeLow(u, len);
  }

  /** A number with s pieces below it, shifted down past them. */
  lemma Shifted(t: nat, h: nat, s: nat, d: nat)
    requires t < s && d > 0
    ensures s * d > 0 && (t + s * h) / (s * d) == h / d
  {
    SplitBy(t + s * h, s, d);
    DivUnique(t + s * h, s, h, t);
  }

  /** The bytes from a up to b of a string are those of the number. */
  lemma LeSlice(s: seq<Byte>, a: nat, b: nat)
    requires a <= b <= |s|
    ensures Le(s[a..b]) == Below(Above(Le(s), a), b - a)
  {
    LeFrom(s, a);
    LeTo(s[a..], b - a);
    assert s[a..][..b - a] == s[a..b];
  }

  lemma LeFrom(s: seq<Byte>, a: nat)
    requires a <= |s|
    ensures Above(Le(s), a) == Le(s[a..])
  {
    assert s == s[..a] + s[a..];
    LeConcat(s[..a], s[a..]);
    LeBound(s[..a]);
    DivUnique(Le(s), Pow2(8 * a), Le(s[a..]), Le(s[..a]));
  }

  lemma LeTo(s: seq<Byte>, k: nat)
    requires k <= |s|
    ensures Below(Le(s), k) == Le(s[..k])
  {
    assert s == s[..k] + s[k..];
    LeConcat(s[..k], s[k..]);
    LeBound(s[..k]);
    DivUnique(Le(s), Pow2(8 * k), Le(s[k..]), Le(s[..k]));
  }

  /** Bit i of the number is bit i mod 8 of byte i / 8. */
  lemma BitOfBytes(s: seq<Byte>, i: nat)
    requires i < 8 * |s|
    ensures Bit(Le(s), i) == Bit(s[i / 8], i % 8)
  {
    var j, r := i / 8, i % 8;
    LeFrom(s, j);
    Pow2Add(8 * j, r);
    SplitBy(Le(s), Pow2(8 * j), Pow2(r));
    assert s[j..][1..] == s[j + 1..];
    Pow2Add(r, 8 - r);
    assert Pow2(8) == 256;
    assert Pow2(8 - r) == 2 * Pow2(8 - r - 1);
    BitBelow(s[j], Le(s[j + 1..]), Pow2(r), Pow2(8 - r - 1));
  }

  lemma BitBelow(x: nat, rest: nat, m: nat, k: nat)
    requires m > 0 && m * (2 * k) == 256
    ensures (x + 256 * rest) / m % 2 == x / m % 2
  {
    var q, r := x / m, x % m;
    Assoc(m, 2 * k, rest);
    Dist(m, q, (2 * k) * rest);
    DivUnique(x + 256 * rest, m, q + (2 * k) * rest, r);
    Assoc(2, k, rest);
    AddMultiple(q, 2, k * rest);
  }
}
