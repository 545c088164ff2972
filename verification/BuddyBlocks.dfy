/** Aligned power-of-two blocks of frames, and the maximal free ones.

    The one fact the whole allocator rests on is AddBlock: adding a block whose buddy is not free
    adds exactly that block to the maximal blocks. */
module BuddyBlocks {
  import opened Bits

  const MAX_ORDER: nat := 10

  predicate Aligned(g: int, o: nat) { g % Pow2(o) == 0 }

  predicate Between(lo: int, x: int, hi: int) { lo <= x < hi }

  ghost function Range(lo: int, hi: int): set<int>
  {
    set x | lo <= x < hi && Between(lo, x, hi)
  }

  lemma {:induction false} RangeCard(lo: int, hi: int)
    requires lo <= hi
    ensures |Range(lo, hi)| == hi - lo
    decreases hi - lo
  {
    if lo == hi {
      assert Range(lo, hi) == {};
    } else {
      RangeCard(lo, hi - 1);
      assert Range(lo, hi) == Range(lo, hi - 1) + {hi - 1};
    }
  }

  /** The frames of the block of order o at g. */
  ghost function Block(g: int, o: nat): set<int>
  {
    Range(g, g + Pow2(o))
  }

  ghost predicate AllIn(f: set<int>, g: int, o: nat)
  {
    forall x :: g <= x < g + Pow2(o) ==> x in f
  }

  /** Is the block the upper half of its parent? */
  predicate Upper(g: int, o: nat) { (g / Pow2(o)) % 2 != 0 }

  function Buddy(g: int, o: nat): int { if Upper(g, o) then g - Pow2(o) else g + Pow2(o) }

  function Parent(g: int, o: nat): int { if Upper(g, o) then g - Pow2(o) else g }

  /** A free aligned block that is not part of a larger free aligned block. */
  ghost predicate Maximal(f: set<int>, g: int, o: int)
  {
    && 0 <= o <= MAX_ORDER && g >= 0
    && Aligned(g, o) && AllIn(f, g, o)
    && (o < MAX_ORDER ==> !AllIn(f, Parent(g, o), o + 1))
  }

  /** Block (g, o) lies inside block (h, p). */
  predicate Within(g: int, o: nat, h: int, p: nat)
  {
    h <= g && g + Pow2(o) <= h + Pow2(p)
  }

  predicate Meet(g: int, o: nat, h: int, p: nat)
  {
    g < h + Pow2(p) && h < g + Pow2(o)
  }

  // ----- arithmetic of alignment

  lemma MultipleForm(a: int, m: int)
    requires m > 0 && a % m == 0
    ensures a == m * (a / m)
  {
  }

  lemma FormMultiple(m: int, k: int)
    requires m > 0
    ensures (m * k) % m == 0
  {
    DivUnique(m * k, m, k, 0);
  }

  lemma MultiplesApart(m: int, a: int, b: int)
    requires m > 0 && a % m == 0 && b % m == 0 && a < b
    ensures a + m <= b
  {
    var j, k := a / m, b / m;
    MultipleForm(a, m);
    MultipleForm(b, m);
    FactorOut(m, j, k);
  }

  lemma MulMonotone(m: int, a: int, b: int)
    requires m >= 0 && a <= b
    ensures m * a <= m * b
  {
  }

  lemma FactorOut(m: int, j: int, k: int)
    requires m > 0 && m * j < m * k
    ensures m * j + m <= m * k
  {
    if j >= k {
      MulMonotone(m, k, j);
    }
    MulMonotone(m, j + 1, k);
    assert m * (j + 1) == m * j + m;
  }

  lemma MultipleOfMultiple(m: int, c: int, k: int)
    requires m > 0
    ensures ((m * c) * k) % m == 0
  {
    assert (m * c) * k == m * (c * k);
    FormMultiple(m, c * k);
  }

  lemma AlignedWeakens(g: int, p: nat, o: nat)
    requires Aligned(g, p) && o <= p
    ensures Aligned(g, o) && Pow2(p) % Pow2(o) == 0
  {
    Pow2Add(o, p - o);
    FormMultiple(Pow2(o), Pow2(p - o));
    MultipleForm(g, Pow2(p));
    MultipleOfMultiple(Pow2(o), Pow2(p - o), g / Pow2(p));
  }

  lemma SumAligned(a: int, b: int, m: int)
    requires m > 0 && a % m == 0 && b % m == 0
    ensures (a + b) % m == 0 && (a - b) % m == 0
  {
    MultipleForm(a, m);
    MultipleForm(b, m);
    var j, k := a / m, b / m;
    assert m * j + m * k == m * (j + k);
    assert m * j - m * k == m * (j - k);
    FormMultiple(m, j + k);
    FormMultiple(m, j - k);
  }

  /** Two aligned blocks that share a frame are nested. */
  lemma Laminar(g: int, o: nat, h: int, p: nat)
    requires Aligned(g, o) && Aligned(h, p) && o <= p
    requires Meet(g, o, h, p)
    ensures Within(g, o, h, p)
  {
    var m := Pow2(o);
    AlignedWeakens(h, p, o);
    SumAligned(h, Pow2(p), m);
    MultiplesApart(m, g, h + Pow2(p));
    if g < h {
      MultiplesApart(m, g, h);
    }
  }

  /** For a multiple of m, the multiple of 2m at or just below it, and the other half. */
  lemma HalvesOfDouble(g: int, m: int)
    requires m > 0 && g >= 0 && g % m == 0
    ensures (g / m) % 2 == 0 ==> g % (2 * m) == 0 && (g + m) % m == 0 && ((g + m) / m) % 2 != 0
    ensures (g / m) % 2 != 0 ==> g >= m && (g - m) % (2 * m) == 0 && (g - m) % m == 0 && ((g - m) / m) % 2 == 0
  {
    var q := g / m;
    MultipleForm(g, m);
    if q % 2 == 0 {
      EvenMultiple(m, q);
      DivUnique(g + m, m, q + 1, 0);
    } else {
      assert q >= 1;
      MulMonotone(m, 1, q);
      EvenMultiple(m, q - 1);
      DivUnique(g - m, m, q - 1, 0);
    }
  }

  lemma EvenMultiple(m: int, q: int)
    requires m > 0 && q % 2 == 0
    ensures (m * q) % (2 * m) == 0
    ensures m * (q + 1) == m * q + m
  {
    assert m * q == (2 * m) * (q / 2);
    FormMultiple(2 * m, q / 2);
  }

  lemma ParentFacts(g: int, o: nat)
    requires Aligned(g, o) && g >= 0
    ensures Parent(g, o) >= 0 && Aligned(Parent(g, o), o + 1)
    ensures Buddy(g, o) >= 0 && Aligned(Buddy(g, o), o)
    ensures Parent(Buddy(g, o), o) == Parent(g, o)
    ensures Within(g, o, Parent(g, o), o + 1) && Within(Buddy(g, o), o, Parent(g, o), o + 1)
  {
    HalvesOfDouble(g, Pow2(o));
  }

  /** The parent is the block and its buddy, which do not overlap. */
  lemma ParentIsBothHalves(f: set<int>, g: int, o: nat)
    requires Aligned(g, o) && g >= 0
    ensures AllIn(f, Parent(g, o), o + 1) <==> AllIn(f, g, o) && AllIn(f, Buddy(g, o), o)
    ensures !Meet(g, o, Buddy(g, o), o)
  {
  }

  /** A block strictly inside another has its parent inside too. */
  lemma ParentWithin(g: int, o: nat, h: int, p: nat)
    requires Aligned(g, o) && g >= 0 && Aligned(h, p) && o < p
    requires Within(g, o, h, p)
    ensures Within(Parent(g, o), o + 1, h, p)
  {
    ParentFacts(g, o);
    Laminar(Parent(g, o), o + 1, h, p);
  }

  // ----- the key lemma

  /** (b, a) can be added to the free set f as a block of its own. */
  ghost predicate Addable(f: set<int>, b: int, a: int)
  {
    && 0 <= a <= MAX_ORDER && b >= 0 && Aligned(b, a)
    && (forall x :: b <= x < b + Pow2(a) ==> x !in f)
    && (a < MAX_ORDER ==> !AllIn(f, Buddy(b, a), a))
  }

  /** No larger aligned block around an addable one becomes free. */
  lemma NothingAround(f: set<int>, b: int, a: int, h: int, p: int)
    requires Addable(f, b, a) && a < p <= MAX_ORDER && Aligned(h, p)
    requires Within(b, a, h, p)
    ensures !AllIn(f + Block(b, a), h, p)
  {
    ParentFacts(b, a);
    ParentWithin(b, a, h, p);
    ParentIsBothHalves(f, b, a);
    var x :| Buddy(b, a) <= x < Buddy(b, a) + Pow2(a) && x !in f;
    assert x !in Block(b, a);
  }

  lemma OldStaysMaximal(f: set<int>, b: int, a: int, g: int, o: int)
    requires Addable(f, b, a) && Maximal(f, g, o)
    ensures Maximal(f + Block(b, a), g, o)
  {
    var f' := f + Block(b, a);
    if o < MAX_ORDER {
      var p := Parent(g, o);
      ParentFacts(g, o);
      assert g in f;
      if Meet(p, o + 1, b, a) {
        if o + 1 <= a {
          Laminar(p, o + 1, b, a);
        } else {
          Laminar(b, a, p, o + 1);
          NothingAround(f, b, a, p, o + 1);
        }
      } else {
        var x :| p <= x < p + Pow2(o + 1) && x !in f;
        assert x !in f';
      }
    }
  }

  lemma NewMaximalIsOldOrAdded(f: set<int>, b: int, a: int, g: int, o: int)
    requires Addable(f, b, a) && Maximal(f + Block(b, a), g, o)
    ensures Maximal(f, g, o) || (g == b && o == a)
  {
    var f' := f + Block(b, a);
    if Meet(g, o, b, a) {
      if o <= a {
        Laminar(g, o, b, a);
        if o < a {
          ParentWithin(g, o, b, a);
        }
      } else {
        Laminar(b, a, g, o);
        NothingAround(f, b, a, g, o);
      }
    } else {
      forall x | g <= x < g + Pow2(o) ensures x in f {
        assert x in f';
      }
    }
  }

  /** Adding a block whose buddy is not free adds exactly that block to the maximal free blocks. */
  lemma AddBlock(f: set<int>, b: int, a: int, g: int, o: int)
    requires Addable(f, b, a)
    ensures Maximal(f + Block(b, a), g, o) <==> Maximal(f, g, o) || (g == b && o == a)
  {
    if Maximal(f, g, o) {
      OldStaysMaximal(f, b, a, g, o);
    }
    if Maximal(f + Block(b, a), g, o) {
      NewMaximalIsOldOrAdded(f, b, a, g, o);
    }
  }

  /** Taking a maximal block out leaves a set to which it could be added back. */
  lemma MaximalIsAddable(f: set<int>, b: int, a: int)
    requires Maximal(f, b, a)
    ensures Addable(f - Block(b, a), b, a)
    ensures f - Block(b, a) + Block(b, a) == f
  {
    if a < MAX_ORDER {
      ParentIsBothHalves(f, b, a);
      var x :| Buddy(b, a) <= x < Buddy(b, a) + Pow2(a) && x !in f;
      assert x !in f - Block(b, a);
    }
  }

  /** Two maximal blocks that share a frame are the same block. */
  lemma MaximalUnique(f: set<int>, g: int, o: int, h: int, p: int)
    requires Maximal(f, g, o) && Maximal(f, h, p) && Meet(g, o, h, p)
    ensures g == h && o == p
  {
    if o < p {
      Laminar(g, o, h, p);
      ParentWithin(g, o, h, p);
    } else if p < o {
      Laminar(h, p, g, o);
      ParentWithin(h, p, g, o);
    } else {
      Laminar(g, o, h, p);
    }
  }

  /** Every free aligned block lies inside a maximal one. */
  lemma {:induction false} MaximalAround(f: set<int>, g: int, o: int) returns (h: int, p: int)
    requires 0 <= o <= MAX_ORDER && g >= 0 && Aligned(g, o) && AllIn(f, g, o)
    ensures o <= p <= MAX_ORDER && Maximal(f, h, p) && Within(g, o, h, p)
    decreases MAX_ORDER - o
  {
    if Maximal(f, g, o) {
      h, p := g, o;
    } else {
      ParentFacts(g, o);
      h, p := MaximalAround(f, Parent(g, o), o + 1);
    }
  }
}
