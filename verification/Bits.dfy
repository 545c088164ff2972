/** Bitwise operations on unbounded naturals, and the arithmetic each one amounts to.

    The kernel works on u8/u32/u64/u128 words.  Here a word is a `nat`; `&`, `|` and `^`
    are the recursive functions below, `>>` is division by a power of two and a truncating
    cast is a remainder. */
module Bits {
  function Pow2(n: nat): (r: nat)
    ensures r >= 1
  {
    if n == 0 then 1 else 2 * Pow2(n - 1)
  }

  function And(x: nat, y: nat): (r: nat)
    ensures r <= x && r <= y
    decreases x
  {
    if x == 0 || y == 0 then 0
    else (if x % 2 == 1 && y % 2 == 1 then 1 else 0) + 2 * And(x / 2, y / 2)
  }

  function Or(x: nat, y: nat): nat
    decreases x
  {
    if x == 0 then y
    else (if x % 2 == 1 || y % 2 == 1 then 1 else 0) + 2 * Or(x / 2, y / 2)
  }

  function Xor(x: nat, y: nat): nat
    decreases x
  {
    if x == 0 then y
    else (if x % 2 != y % 2 then 1 else 0) + 2 * Xor(x / 2, y / 2)
  }

  // ----- division and remainder by a power of two, one bit at a time

  lemma SmallMultiple(m: int, d: int)
    requires m > 0
    requires -m < m * d < m
    ensures d == 0
  {
  }

  /** Quotient and remainder are unique. */
  lemma DivUnique(x: int, m: int, q: int, r: int)
    requires 0 <= r < m
    requires x == m * q + r
    ensures x / m == q
    ensures x % m == r
  {
    var d, e := x / m, x % m;
    assert x == m * d + e;
    assert m * (d - q) == m * d - m * q;
    SmallMultiple(m, d - q);
  }

  lemma HalfStep(x: nat, n: nat)
    requires n >= 1
    ensures x / Pow2(n) == (x / 2) / Pow2(n - 1)
    ensures x % Pow2(n) == x % 2 + 2 * ((x / 2) % Pow2(n - 1))
  {
    var h, m := x / 2, Pow2(n - 1);
    var q, r := h / m, h % m;
    assert x == 2 * (m * q + r) + x % 2;
    assert 2 * (m * q) == (2 * m) * q;
    DivUnique(x, 2 * m, q, 2 * r + x % 2);
  }

  lemma Pow2Add(a: nat, b: nat)
    ensures Pow2(a + b) == Pow2(a) * Pow2(b)
    decreases a
  {
    if a > 0 {
      Pow2Add(a - 1, b);
      assert 2 * (Pow2(a - 1) * Pow2(b)) == (2 * Pow2(a - 1)) * Pow2(b);
    }
  }

  lemma Pow2Monotone(a: nat, b: nat)
    requires a <= b
    ensures Pow2(a) <= Pow2(b)
    ensures a < b ==> 2 * Pow2(a) <= Pow2(b)
    decreases b
  {
    if a < b { Pow2Monotone(a, b - 1); }
  }

  // ----- what the operations compute

  /** Masking with n ones keeps the low n bits. */
  lemma {:induction false} AndMask(x: nat, n: nat)
    ensures And(x, Pow2(n) - 1) == x % Pow2(n)
    decreases n
  {
    if n == 0 {
    } else if x == 0 {
    } else {
      HalfStep(x, n);
      AndMask(x / 2, n - 1);
      assert (Pow2(n) - 1) / 2 == Pow2(n - 1) - 1;
    }
  }

  /** `&` works on the low n bits and on the rest separately. */
  lemma {:induction false} AndSplit(a: nat, x: nat, b: nat, y: nat, n: nat, p: nat)
    requires p == Pow2(n) && a < p && b < p
    ensures And(a + p * x, b + p * y) == And(a, b) + p * And(x, y)
    decreases n
  {
    if n == 0 {
      AndSplitBase(a, x, b, y, p);
    } else {
      var m, z := Pow2(n - 1), And(x, y);
      AndSplit(a / 2, x, b / 2, y, n - 1, m);
      NatProduct(m, x);
      NatProduct(m, y);
      NatProduct(m, z);
      TwiceProduct(m, x);
      TwiceProduct(m, y);
      TwiceProduct(m, z);
      AndPair(a % 2, b % 2, a / 2, b / 2, a / 2 + m * x, b / 2 + m * y, a, b, a + p * x, b + p * y);
    }
  }

  lemma AndSplitBase(a: nat, x: nat, b: nat, y: nat, p: nat)
    requires a == 0 && b == 0 && p == 1
    ensures And(a + p * x, b + p * y) == And(a, b) + p * And(x, y)
  {
  }

  lemma NatProduct(m: nat, x: nat)
    ensures m * x >= 0
  {
  }

  lemma AndPair(i: nat, j: nat, x: nat, y: nat, c: nat, d: nat, a: nat, b: nat, a2: nat, b2: nat)
    requires i < 2 && j < 2 && a == i + 2 * x && b == j + 2 * y && a2 == i + 2 * c && b2 == j + 2 * d
    ensures And(a2, b2) - And(a, b) == 2 * (And(c, d) - And(x, y))
  {
    AndJoin(i, c, j, d, a2, b2);
    AndJoin(i, x, j, y, a, b);
  }

  lemma TwiceProduct(m: int, h: int)
    ensures (2 * m) * h == 2 * (m * h)
  {
  }

  lemma AndJoin(i: nat, x: nat, j: nat, y: nat, a: nat, b: nat)
    requires i < 2 && j < 2 && a == i + 2 * x && b == j + 2 * y
    ensures And(a, b) == (if i == 1 && j == 1 then 1 else 0) + 2 * And(x, y)
  {
    assert a / 2 == x && a % 2 == i && b / 2 == y && b % 2 == j;
    AndUnfold(a, b);
  }

  lemma AndUnfold(x: nat, y: nat)
    ensures And(x, y) == (if x % 2 == 1 && y % 2 == 1 then 1 else 0) + 2 * And(x / 2, y / 2)
  {
  }

  /** `|` of two words without a common bit is their sum. */
  lemma {:induction false} OrDisjoint(x: nat, y: nat, n: nat)
    requires x < Pow2(n)
    requires y % Pow2(n) == 0
    ensures Or(x, y) == x + y
    decreases n
  {
    if n == 0 || x == 0 {
    } else {
      HalfStep(y, n);
      OrDisjoint(x / 2, y / 2, n - 1);
    }
  }

  /** `^` with a single bit flips that bit. */
  lemma {:induction false} XorBit(x: nat, n: nat)
    ensures Xor(x, Pow2(n)) == if (x / Pow2(n)) % 2 == 0 then x + Pow2(n) else x - Pow2(n)
    decreases n
  {
    if n == 0 {
      XorZero(x / 2);
      XorUnfold(x, 1);
    } else {
      HalfStep(x, n);
      XorBit(x / 2, n - 1);
      XorUnfold(x, Pow2(n));
    }
  }

  lemma XorUnfold(x: nat, y: nat)
    ensures Xor(x, y) == (if x % 2 != y % 2 then 1 else 0) + 2 * Xor(x / 2, y / 2)
  {
  }

  lemma {:induction false} XorZero(x: nat)
    ensures Xor(x, 0) == x
    decreases x
  {
    if x != 0 { XorZero(x / 2); }
  }

  /** `a ^ (a ^ b)` is `b`. */
  lemma {:induction false} XorCancel(a: nat, b: nat)
    ensures Xor(a, Xor(a, b)) == b
    decreases a
  {
    if a != 0 {
      XorCancel(a / 2, b / 2);
    }
  }

  lemma {:induction false} XorCommutes(a: nat, b: nat)
    ensures Xor(a, b) == Xor(b, a)
    decreases a
  {
    if a == 0 {
      XorZero(b);
    } else if b == 0 {
      XorZero(a);
    } else {
      XorCommutes(a / 2, b / 2);
    }
  }

  lemma {:induction false} XorBound(a: nat, b: nat, n: nat)
    requires a < Pow2(n) && b < Pow2(n)
    ensures Xor(a, b) < Pow2(n)
    decreases n
  {
    if n == 0 {
    } else {
      XorBound(a / 2, b / 2, n - 1);
    }
  }

  lemma ModPow2Mod(x: nat, a: nat, b: nat)
    requires a <= b
    ensures (x % Pow2(b)) % Pow2(a) == x % Pow2(a)
  {
    Pow2Add(a, b - a);
    ModOfProduct(x, Pow2(a), Pow2(b - a));
  }

  lemma ModOfProduct(x: nat, m: nat, n: nat)
    requires m > 0 && n > 0 && m * n > 0
    ensures (x % (m * n)) % m == x % m
  {
    var k := m * n;
    var q, y := x / k, x % k;
    assert x == k * q + y;
    ReassociateQuotient(x, m, n, q, y);
    DivUnique(x, m, n * q + y / m, y % m);
  }

  lemma ReassociateQuotient(x: int, m: int, n: int, q: int, y: int)
    requires m > 0 && x == (m * n) * q + y
    ensures x == m * (n * q + y / m) + y % m
  {
    assert (m * n) * q == m * (n * q);
    assert m * (n * q + y / m) == m * (n * q) + m * (y / m);
  }

  /** `x | (y << s)` in a 32-bit word, when x fits below the shift. */
  function Join(x: nat, y: nat, s: nat): nat
  {
    Or(x, (y * Pow2(s)) % Pow2(32))
  }

  lemma ShiftedMod(y: nat, s: nat, w: nat)
    requires s <= w
    ensures (y * Pow2(s)) % Pow2(w) == Pow2(s) * (y % Pow2(w - s))
  {
    var m, n := Pow2(s), Pow2(w - s);
    Pow2Add(s, w - s);
    var q, r := y / n, y % n;
    ShiftIdentity(y, m, n, q, r);
    DivUnique(y * m, m * n, q, m * r);
  }

  lemma ShiftIdentity(y: int, m: int, n: int, q: int, r: int)
    requires m > 0 && y == n * q + r && 0 <= r < n
    ensures y * m == (m * n) * q + m * r && 0 <= m * r < m * n
  {
    assert (n * q + r) * m == (n * q) * m + r * m;
    assert (n * q) * m == (m * n) * q;
    assert m * (n - r) > 0;
  }

  lemma JoinIs(x: nat, y: nat, s: nat)
    requires s <= 32 && x < Pow2(s)
    ensures Join(x, y, s) == x + Pow2(s) * (y % Pow2(32 - s))
  {
    ShiftedMod(y, s, 32);
    DivUnique(Pow2(s) * (y % Pow2(32 - s)), Pow2(s), y % Pow2(32 - s), 0);
    OrDisjoint(x, Pow2(s) * (y % Pow2(32 - s)), s);
  }

  /** The low n bits of a join. */
  lemma JoinLow(x: nat, y: nat, s: nat, n: nat)
    requires s <= n <= 32 && x < Pow2(s)
    ensures Join(x, y, s) % Pow2(n) == x + Pow2(s) * (y % Pow2(n - s))
  {
    JoinIs(x, y, s);
    var z := y % Pow2(32 - s);
    ModPow2Mod(y, n - s, 32 - s);
    LowOfSum(x, z, s, n);
  }

  lemma LowOfSum(x: nat, z: nat, s: nat, n: nat)
    requires s <= n && x < Pow2(s)
    ensures (x + Pow2(s) * z) % Pow2(n) == x + Pow2(s) * (z % Pow2(n - s))
  {
    Pow2Add(s, n - s);
    LowOfMultiple(x, z, Pow2(s), Pow2(n - s));
  }

  lemma LowOfMultiple(x: nat, z: nat, m: nat, k: nat)
    requires x < m && k > 0 && m * k > 0
    ensures (x + m * z) % (m * k) == x + m * (z % k)
  {
    var q, r := z / k, z % k;
    ShiftIdentity(z, m, k, q, r);
    RoomBelow(m, k, r);
    DivUnique(x + m * z, m * k, q, x + m * r);
  }

  lemma RoomBelow(m: int, k: int, r: int)
    requires m > 0 && r < k
    ensures m * r + m <= m * k
  {
    assert m * (k - 1 - r) >= 0;
    assert m * (k - 1 - r) == m * k - m - m * r;
  }

  // ----- single bits

  predicate Bit(x: nat, i: nat) { (x / Pow2(i)) % 2 == 1 }

  lemma BitStep(x: nat, i: nat)
    requires i >= 1
    ensures Bit(x, i) == Bit(x / 2, i - 1)
  {
    HalfStep(x, i);
  }

  lemma AndHalf(x: nat, y: nat)
    ensures And(x, y) / 2 == And(x / 2, y / 2)
    ensures And(x, y) % 2 == if x % 2 == 1 && y % 2 == 1 then 1 else 0
  {
    AndUnfold(x, y);
  }

  lemma OrHalf(x: nat, y: nat)
    ensures Or(x, y) / 2 == Or(x / 2, y / 2)
    ensures Or(x, y) % 2 == if x % 2 == 1 || y % 2 == 1 then 1 else 0
  {
    OrUnfold(x, y);
  }

  lemma {:induction false} AndBits(x: nat, y: nat, i: nat)
    ensures Bit(And(x, y), i) <==> Bit(x, i) && Bit(y, i)
    decreases i
  {
    AndHalf(x, y);
    if i > 0 {
      BitStep(x, i);
      BitStep(y, i);
      BitStep(And(x, y), i);
      AndBits(x / 2, y / 2, i - 1);
    }
  }

  lemma {:induction false} OrBits(x: nat, y: nat, i: nat)
    ensures Bit(Or(x, y), i) <==> Bit(x, i) || Bit(y, i)
    decreases i
  {
    OrHalf(x, y);
    if i > 0 {
      BitStep(x, i);
      BitStep(y, i);
      BitStep(Or(x, y), i);
      OrBits(x / 2, y / 2, i - 1);
    }
  }

  lemma OrUnfold(x: nat, y: nat)
    ensures Or(x, y) == (if x % 2 == 1 || y % 2 == 1 then 1 else 0) + 2 * Or(x / 2, y / 2)
  {
  }

  lemma {:induction false} OrBound(x: nat, y: nat, n: nat)
    requires x < Pow2(n) && y < Pow2(n)
    ensures Or(x, y) < Pow2(n)
    decreases n
  {
    if n > 0 {
      OrUnfold(x, y);
      OrBound(x / 2, y / 2, n - 1);
    }
  }

  lemma {:induction false} PowerBits(k: nat, i: nat)
    ensures Bit(Pow2(k), i) <==> i == k
    decreases i
  {
    if i > 0 {
      BitStep(Pow2(k), i);
      if k > 0 {
        PowerBits(k - 1, i - 1);
      } else {
        ZeroBits(i - 1);
      }
    }
  }

  lemma ZeroBits(i: nat)
    ensures !Bit(0, i)
  {
  }

  /** `!x` on an n-bit word. */
  lemma Complement(x: nat, y: nat, m: nat)
    requires x + y == 2 * m - 1
    ensures x / 2 + y / 2 == m - 1 && y % 2 == 1 - x % 2
  {
  }

  lemma {:induction false} NotBits(x: nat, n: nat, i: nat)
    requires x < Pow2(n) && i < n
    ensures Bit(Pow2(n) - 1 - x, i) <==> !Bit(x, i)
    decreases i
  {
    var y, m := Pow2(n) - 1 - x, Pow2(n - 1);
    Complement(x, y, m);
    if i == 0 {
      assert Pow2(0) == 1;
    } else {
      BitStep(x, i);
      BitStep(y, i);
      NotBits(x / 2, n - 1, i - 1);
    }
  }

  /** `x & (1 << k)` tests bit k. */
  lemma {:induction false} AndTestsBit(x: nat, k: nat)
    ensures And(x, Pow2(k)) == if Bit(x, k) then Pow2(k) else 0
    decreases k
  {
    if k == 0 {
      AndUnfold(x, 1);
      AndZero(x / 2);
    } else {
      BitStep(x, k);
      AndTestsBit(x / 2, k - 1);
      AndDouble(x, Pow2(k - 1));
    }
  }

  lemma AndDouble(x: nat, y: nat)
    ensures And(x, 2 * y) == 2 * And(x / 2, y)
  {
    var z := 2 * y;
    assert z / 2 == y && z % 2 == 0;
    AndUnfold(x, z);
  }

  lemma AndZero(x: nat)
    ensures And(x, 0) == 0
  {
  }

  lemma AndFullMask(x: nat, n: nat, m: nat)
    requires x < Pow2(n) && m == Pow2(n) - 1
    ensures And(x, m) == x
  {
    AndMask(x, n);
  }

  /** Or sets a bit and leaves the others. */
  lemma {:induction false} OrSetsBit(x: nat, k: nat)
    ensures Or(x, Pow2(k)) == if Bit(x, k) then x else x + Pow2(k)
    decreases k
  {
    OrUnfold(x, Pow2(k));
    if k == 0 {
      OrZero(x / 2);
    } else {
      HalfStep(x, k);
      OrSetsBit(x / 2, k - 1);
    }
  }

  lemma {:induction false} OrZero(x: nat)
    ensures Or(x, 0) == x && Or(0, x) == x
    decreases x
  {
    if x > 0 {
      OrZero(x / 2);
    }
  }
}
