/** Congruences, stated with the remainder operator. */
module ModArith {
  import opened Bits

  /** Adding a multiple of the modulus changes no remainder. */
  lemma AddMultiple(x: int, p: int, k: int)
    requires p > 0
    ensures (x + p * k) % p == x % p
  {
    var q, r := x / p, x % p;
    assert p * q + p * k == p * (q + k);
    DivUnique(x + p * k, p, q + k, r);
  }

  lemma Dist(a: int, b: int, c: int)
    ensures a * (b + c) == a * b + a * c
    ensures (b + c) * a == b * a + c * a
  {
  }

  lemma Assoc(a: int, b: int, c: int)
    ensures a * (b * c) == (a * b) * c
    ensures a * b == b * a
  {
  }

  lemma ModAdd(a: int, b: int, c: int, d: int, p: int)
    requires p > 0 && a % p == b % p && c % p == d % p
    ensures (a + c) % p == (b + d) % p
  {
    ModDifference(a, b, p);
    ModDifference(c, d, p);
    var j, k := a / p - b / p, c / p - d / p;
    Dist(p, j, k);
    AddMultiple(b + d, p, j + k);
  }

  lemma ModSub(a: int, b: int, c: int, d: int, p: int)
    requires p > 0 && a % p == b % p && c % p == d % p
    ensures (a - c) % p == (b - d) % p
  {
    ModDifference(a, b, p);
    ModDifference(c, d, p);
    var j, k := a / p - b / p, c / p - d / p;
    Dist(p, j, -k);
    assert p * (-k) == -(p * k);
    AddMultiple(b - d, p, j - k);
  }

  lemma ModDifference(a: int, b: int, p: int)
    requires p > 0 && a % p == b % p
    ensures a == b + p * (a / p - b / p)
  {
    Dist(p, a / p, -(b / p));
    assert p * (-(b / p)) == -(p * (b / p));
  }

  lemma MultipleTimes(b: int, p: int, j: int, c: int)
    ensures (b + p * j) * c == b * c + p * (j * c)
  {
    Dist(c, b, p * j);
    Assoc(p, j, c);
  }

  lemma ModMulLeft(a: int, b: int, c: int, p: int)
    requires p > 0 && a % p == b % p
    ensures (a * c) % p == (b * c) % p
  {
    var j := a / p - b / p;
    ModDifference(a, b, p);
    MultipleTimes(b, p, j, c);
    AddMultiple(b * c, p, j * c);
  }

  lemma ModMul(a: int, b: int, c: int, d: int, p: int)
    requires p > 0 && a % p == b % p && c % p == d % p
    ensures (a * c) % p == (b * d) % p
  {
    ModMulLeft(a, b, c, p);
    ModMulLeft(c, d, b, p);
    Assoc(c, b, 1);
    Assoc(d, b, 1);
  }

  lemma ModIdempotent(a: int, p: int)
    requires p > 0
    ensures (a % p) % p == a % p
  {
    DivUnique(a % p, p, 0, a % p);
  }

  lemma MulBound(a: nat, b: nat, x: nat, y: nat)
    requires a <= x && b <= y
    ensures 0 <= a * b <= x * y
  {
    assert a * b <= a * y;
    assert a * y <= x * y;
  }
}
