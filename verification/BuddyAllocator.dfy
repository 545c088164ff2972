/** The buddy frame allocator: a bitmap and, per order, a free list threaded through the free frames.

    Frame numbers stand for page addresses; number 0 encodes the null pointer, so frame 0 is never
    usable.  `next` holds the word each free frame stores in its first eight bytes. */
module BuddyAllocator {
  import opened Bits
  import opened Wrappers
  import opened BuddyBlocks

  const MAX_FRAMES: nat := 262144
  const BITMAP_SIZE: nat := 32768
  const PAGE_SIZE: nat := 4096

  /** Element i of a list, or the null pointer past its end. */
  function Nth(l: seq<int>, i: nat): int { if i < |l| then l[i] else 0 }

  lemma ByteMask(k: nat)
    requires k < 8
    ensures Pow2(k) <= 128
  {
    Pow2Monotone(k, 7);
    assert Pow2(7) == 128;
  }

  lemma BitFlip(b: nat, k: nat, i: nat)
    requires b < 256 && k < 8 && i < 8 && Pow2(k) <= 128
    ensures Or(b, Pow2(k)) < 256 && (Bit(Or(b, Pow2(k)), i) <==> Bit(b, i) || i == k)
    ensures And(b, 255 - Pow2(k)) < 256 && (Bit(And(b, 255 - Pow2(k)), i) <==> Bit(b, i) && i != k)
  {
    assert Pow2(8) == 256;
    OrBound(b, Pow2(k), 8);
    OrBits(b, Pow2(k), i);
    PowerBits(k, i);
    AndBits(b, 255 - Pow2(k), i);
    NotBits(Pow2(k), 8, i);
  }

  // ----- singly linked lists threaded through an array of next pointers

  /** `l` is the list that starts at `head` and follows `next` until the null pointer. */
  ghost predicate Linked(next: seq<int>, head: int, l: seq<int>)
  {
    && head == Nth(l, 0)
    && (forall i :: 0 <= i < |l| ==> 0 < l[i] < |next|)
    && (forall i {:trigger next[l[i]]} :: 0 <= i < |l| ==> next[l[i]] == Nth(l, i + 1))
  }

  ghost predicate NoRepeat(l: seq<int>)
  {
    forall i, j :: 0 <= i < j < |l| ==> l[i] != l[j]
  }

  ghost predicate Apart(l: seq<int>, m: seq<int>)
  {
    forall x :: x in l ==> x !in m
  }

  lemma WriteElsewhere(next: seq<int>, head: int, l: seq<int>, at: nat, v: int)
    requires Linked(next, head, l) && at < |next| && at !in l
    ensures Linked(next[at := v], head, l)
  {
  }

  lemma PushLinks(next: seq<int>, head: int, l: seq<int>, frame: nat)
    requires Linked(next, head, l) && NoRepeat(l) && 0 < frame < |next| && frame !in l
    ensures Linked(next[frame := head], frame, [frame] + l) && NoRepeat([frame] + l)
  {
    WriteElsewhere(next, head, l, frame, head);
    var next', l' := next[frame := head], [frame] + l;
    forall i | 0 <= i < |l'| ensures 0 < l'[i] < |next'| && next'[l'[i]] == Nth(l', i + 1) {
      if i > 0 {
        assert l'[i] == l[i - 1];
      }
    }
  }

  lemma PopLinks(next: seq<int>, head: int, l: seq<int>)
    requires Linked(next, head, l) && NoRepeat(l) && head != 0
    ensures l != [] && l[0] == head && Linked(next, next[head], l[1..]) && NoRepeat(l[1..])
    ensures l == [head] + l[1..]
  {
  }

  ghost function Without(l: seq<int>, k: nat): seq<int>
    requires k < |l|
  {
    l[..k] + l[k + 1..]
  }

  lemma WithoutContents(l: seq<int>, k: nat)
    requires NoRepeat(l) && k < |l|
    ensures forall x :: x in Without(l, k) <==> x in l && x != l[k]
  {
    var w := Without(l, k);
    forall x | x in l && x != l[k] ensures x in w {
      var i :| 0 <= i < |l| && l[i] == x;
      assert x == w[if i < k then i else i - 1];
    }
    forall x | x in w ensures x in l && x != l[k] {
      var i :| 0 <= i < |w| && w[i] == x;
      assert x == l[if i < k then i else i + 1];
    }
  }

  /** A list of different frames is shorter than the number of frames. */
  lemma {:induction false} DistinctIsShort(l: seq<int>, n: int)
    requires n > 0 && NoRepeat(l) && forall i {:trigger l[i]} :: 0 <= i < |l| ==> 0 < l[i] < n
    ensures |l| < n
    decreases n
  {
    if l != [] {
      assert 0 < l[0] < n;
      if n - 1 in l {
        var k :| 0 <= k < |l| && l[k] == n - 1;
        DistinctIsShort(Without(l, k), n - 1);
      } else {
        DistinctIsShort(l, n - 1);
      }
    }
  }

  /** Unlinking element k by redirecting its predecessor. */
  lemma UnlinkLinks(next: seq<int>, head: int, l: seq<int>, k: nat)
    requires Linked(next, head, l) && NoRepeat(l) && 0 < k < |l|
    ensures Linked(next[l[k - 1] := next[l[k]]], head, Without(l, k)) && NoRepeat(Without(l, k))
  {
    var next', l' := next[l[k - 1] := next[l[k]]], Without(l, k);
    forall i | 0 <= i < |l'| ensures 0 < l'[i] < |next'| && next'[l'[i]] == Nth(l', i + 1) {
      if i < k - 1 {
        assert l'[i] == l[i] && l[i] != l[k - 1];
      } else if i >= k {
        assert l'[i] == l[i + 1] && l[i + 1] != l[k - 1];
      }
    }
  }

  // ----- the lists as a function of the free set

  ghost predicate Listed(lists: seq<seq<int>>, g: int, o: int)
  {
    0 <= o < |lists| && g in lists[o]
  }

  /** The lists hold exactly the maximal blocks of f. */
  ghost predicate Tracks(lists: seq<seq<int>>, f: set<int>)
  {
    && |lists| == MAX_ORDER + 1
    && forall g, o :: Listed(lists, g, o) <==> Maximal(f, g, o)
  }

  /** List a lost b; the other lists are as before. */
  ghost predicate LostOne(lists: seq<seq<int>>, lists': seq<seq<int>>, b: int, a: int)
  {
    && |lists'| == |lists| && 0 <= a < |lists|
    && lists' == lists[a := lists'[a]]
    && forall x :: x in lists'[a] <==> x in lists[a] && x != b
  }

  lemma TracksPush(lists: seq<seq<int>>, f: set<int>, b: int, a: int)
    requires Tracks(lists, f) && Addable(f, b, a)
    ensures Tracks(lists[a := [b] + lists[a]], f + Block(b, a))
  {
    var lists' := lists[a := [b] + lists[a]];
    forall g, o ensures Listed(lists', g, o) <==> Maximal(f + Block(b, a), g, o) {
      AddBlock(f, b, a, g, o);
      assert Listed(lists, g, o) <==> Maximal(f, g, o);
    }
  }

  lemma TracksRemove(lists: seq<seq<int>>, lists': seq<seq<int>>, f: set<int>, b: int, a: int)
    requires Tracks(lists, f) && Maximal(f, b, a) && LostOne(lists, lists', b, a)
    ensures Tracks(lists', f - Block(b, a))
  {
    var f' := f - Block(b, a);
    MaximalIsAddable(f, b, a);
    forall g, o ensures Listed(lists', g, o) <==> Maximal(f', g, o) {
      AddBlock(f', b, a, g, o);
      assert Listed(lists, g, o) <==> Maximal(f, g, o);
      assert b !in f';
    }
  }

  /** A frame that is not free heads no list. */
  lemma NotListed(lists: seq<seq<int>>, f: set<int>, b: int)
    requires Tracks(lists, f) && b !in f
    ensures forall o :: 0 <= o <= MAX_ORDER ==> b !in lists[o]
  {
    forall o | 0 <= o <= MAX_ORDER ensures b !in lists[o] {
      assert Listed(lists, b, o) <==> Maximal(f, b, o);
    }
  }

  /** The bookkeeping of one split: the block in hand halves, its upper half goes on a list. */
  lemma SplitStep(f: set<int>, b: int, a: nat)
    requires a < MAX_ORDER && b >= 0 && Aligned(b, a + 1) && AllIn(f, b, a + 1)
    ensures Aligned(b, a) && b + Pow2(a) !in f - Block(b, a + 1)
    ensures Addable(f - Block(b, a + 1), b + Pow2(a), a)
    ensures f - Block(b, a + 1) + Block(b + Pow2(a), a) == f - Block(b, a)
  {
    AlignedWeakens(b, a + 1, a);
    LowerHalf(b, a);
    assert b !in f - Block(b, a + 1);
  }

  lemma LowerHalf(b: int, a: nat)
    requires b >= 0 && Aligned(b, a + 1)
    ensures Aligned(b + Pow2(a), a) && Buddy(b + Pow2(a), a) == b && !Upper(b, a)
  {
    EvenQuotient(b, Pow2(a));
    OddQuotient(b, Pow2(a));
  }

  lemma EvenQuotient(b: int, m: int)
    requires m > 0 && b % (2 * m) == 0
    ensures b % m == 0 && (b / m) % 2 == 0
  {
    MultipleForm(b, 2 * m);
    var k := b / (2 * m);
    assert (2 * m) * k == m * (2 * k);
    DivUnique(b, m, 2 * k, 0);
  }

  lemma OddQuotient(b: int, m: int)
    requires m > 0 && b % m == 0 && (b / m) % 2 == 0
    ensures (b + m) % m == 0 && ((b + m) / m) % 2 == 1
  {
    MultipleForm(b, m);
    DivUnique(b + m, m, b / m + 1, 0);
  }

  /** The bookkeeping of one merge: the block in hand and its free buddy become their parent. */
  lemma MergeStep(f: set<int>, b: int, a: nat)
    requires a < MAX_ORDER && b >= 0 && Aligned(b, a)
    requires forall x :: x in Block(b, a) ==> x !in f
    requires AllIn(f + Block(b, a), Buddy(b, a), a)
    ensures Maximal(f, Buddy(b, a), a)
    ensures Parent(b, a) >= 0 && Aligned(Parent(b, a), a + 1)
    ensures forall x :: x in Block(Parent(b, a), a + 1) ==> x !in f - Block(Buddy(b, a), a)
    ensures f - Block(Buddy(b, a), a) + Block(Parent(b, a), a + 1) == f + Block(b, a)
  {
    ParentFacts(b, a);
    ParentIsBothHalves(f, b, a);
    assert b in Block(b, a);
    forall x | Buddy(b, a) <= x < Buddy(b, a) + Pow2(a) ensures x in f {
      assert x in f + Block(b, a);
    }
    ParentFacts(Buddy(b, a), a);
    assert !AllIn(f, Parent(b, a), a + 1);
  }

  class BuddyAllocator {
    const heads: array<int>
    const next: array<int>
    const bitmap: array<nat>
    var totalFrames: nat
    var freeFrames: int
    var maxOrder: nat
    var initialized: bool
    ghost var free: set<int>
    ghost var lists: seq<seq<int>>

    ghost predicate Shape()
    {
      && heads.Length == MAX_ORDER + 1 && next.Length == MAX_FRAMES && bitmap.Length == BITMAP_SIZE
      && heads != next
      && (bitmap as object != heads) && (bitmap as object != next)
    }

    // ----- bitmap

    ghost predicate BitmapOk()
      reads this`free, bitmap
    {
      && Shape()
      && (forall i :: 0 <= i < BITMAP_SIZE ==> bitmap[i] < 256)
      && (forall f :: f in free ==> 0 < f < MAX_FRAMES)
      && (forall f :: 0 <= f < MAX_FRAMES ==> (f in free <==> !Bit(bitmap[f / 8], f % 8)))
    }

    method SetBit(frame: nat)
      requires BitmapOk() && frame < MAX_FRAMES
      modifies bitmap, this`free
      ensures BitmapOk() && free == old(free) - {frame}
    {
      var i, k := frame / 8, frame % 8;
      ghost var b := bitmap[i];
      ByteMask(k);
      BitFlip(b, k, 0);
      bitmap[i] := Or(bitmap[i], Pow2(k));
      free := free - {frame};
      forall f | 0 <= f < MAX_FRAMES ensures f in free <==> !Bit(bitmap[f / 8], f % 8) {
        BitFlip(b, k, f % 8);
      }
    }

    method ClearBit(frame: nat)
      requires BitmapOk() && 0 < frame < MAX_FRAMES
      modifies bitmap, this`free
      ensures BitmapOk() && free == old(free) + {frame}
    {
      var i, k := frame / 8, frame % 8;
      ghost var b := bitmap[i];
      ByteMask(k);
      BitFlip(b, k, 0);
      bitmap[i] := And(bitmap[i], 255 - Pow2(k));
      free := free + {frame};
      forall f | 0 <= f < MAX_FRAMES ensures f in free <==> !Bit(bitmap[f / 8], f % 8) {
        BitFlip(b, k, f % 8);
      }
    }

    method IsFree(frame: nat) returns (r: bool)
      requires BitmapOk()
      ensures r <==> frame in free
    {
      if frame >= MAX_FRAMES {
        return false;
      }
      AndTestsBit(bitmap[frame / 8], frame % 8);
      r := And(bitmap[frame / 8], Pow2(frame % 8)) == 0;
    }

    // ----- free lists

    ghost predicate ListsOk()
      reads this`lists, heads, next
    {
      && Shape()
      && |lists| == MAX_ORDER + 1
      && (forall o :: 0 <= o <= MAX_ORDER ==> Linked(next[..], heads[o], lists[o]) && NoRepeat(lists[o]))
      && (forall o, p :: 0 <= o <= MAX_ORDER && 0 <= p <= MAX_ORDER && o != p ==> Apart(lists[o], lists[p]))
    }

    method PushFreeList(frame: nat, order: nat)
      requires ListsOk() && order <= MAX_ORDER && 0 < frame < MAX_FRAMES
      requires forall o :: 0 <= o <= MAX_ORDER ==> frame !in lists[o]
      modifies heads, next, this`lists
      ensures ListsOk() && lists == old(lists)[order := [frame] + old(lists[order])]
    {
      ghost var n, h, ls := next[..], heads[order], lists;
      PushLinks(n, h, ls[order], frame);
      next[frame] := heads[order];
      heads[order] := frame;
      lists := lists[order := [frame] + lists[order]];
      assert next[..] == n[frame := h];
      forall o | 0 <= o <= MAX_ORDER ensures Linked(next[..], heads[o], lists[o]) && NoRepeat(lists[o]) {
        if o != order {
          WriteElsewhere(n, heads[o], ls[o], frame, h);
        }
      }
    }

    method PopFreeList(order: nat) returns (r: Option<nat>)
      requires ListsOk() && order <= MAX_ORDER
      modifies heads, this`lists
      ensures ListsOk()
      ensures r.None? ==> lists[order] == [] && lists == old(lists)
      ensures r.Some? ==> old(lists[order]) == [r.value] + lists[order] && lists == old(lists)[order := lists[order]]
      ensures r.Some? ==> forall x :: x in lists[order] <==> x in old(lists[order]) && x != r.value
    {
      var head := heads[order];
      if head == 0 {
        return None;
      }
      PopLinks(next[..], head, lists[order]);
      heads[order] := next[head];
      lists := lists[order := lists[order][1..]];
      return Some(head);
    }

    /** Lists a block that merges with nothing: the lists then stand for g, which is f and the block. */
    method ListBlock(frame: nat, order: nat, ghost f: set<int>, ghost g: set<int>)
      requires ListsOk() && order <= MAX_ORDER && 0 < frame < MAX_FRAMES
      requires Tracks(lists, f) && Addable(f, frame, order) && frame !in f && f + Block(frame, order) == g
      modifies heads, next, this`lists
      ensures ListsOk() && lists == old(lists)[order := [frame] + old(lists[order])]
      ensures Tracks(lists, g)
    {
      NotListed(lists, f, frame);
      TracksPush(lists, f, frame, order);
      PushFreeList(frame, order);
    }

    /** Walk the list and take `frame` out of it; false if it is not there. */
    method RemoveFromFreeList(frame: nat, order: nat) returns (r: bool)
      requires ListsOk() && order <= MAX_ORDER && 0 < frame < MAX_FRAMES
      modifies heads, next, this`lists
      ensures ListsOk()
      ensures r <==> frame in old(lists[order])
      ensures lists == old(lists)[order := lists[order]]
      ensures forall x :: x in lists[order] <==> x in old(lists[order]) && x != frame
    {
      ghost var l := lists[order];
      if heads[order] == 0 {
        return false;
      }
      if heads[order] == frame {
        var _ := PopFreeList(order);
        assert l == [frame] + lists[order];
        WithoutContents(l, 0);
        assert Without(l, 0) == lists[order];
        return true;
      }
      var current, _, k := FindBefore(frame, order);
      if current == 0 {
        return false;
      }
      Unlink(current, frame, order, k);
      WithoutContents(l, k);
      return true;
    }

    /** The element before `frame` on its list, or 0. The walk never takes more than MAX_FRAMES steps, which is where
        the kernel gives up on a list with a cycle. */
    method FindBefore(frame: nat, order: nat) returns (current: int, iterations: nat, ghost k: nat)
      requires ListsOk() && order <= MAX_ORDER && 0 < frame < MAX_FRAMES
      requires heads[order] != frame
      ensures iterations < MAX_FRAMES
      ensures current == 0 ==> frame !in lists[order]
      ensures current != 0 ==> 0 < k < |lists[order]| && lists[order][k - 1] == current && lists[order][k] == frame
    {
      ghost var l := lists[order];
      DistinctIsShort(l, MAX_FRAMES);
      current, iterations, k := heads[order], 0, 0;
      while current != 0
        invariant 0 <= k <= |l| && current == Nth(l, k) && iterations == k
        invariant forall i :: 0 <= i <= k && i < |l| ==> l[i] != frame
        decreases |l| - k
      {
        iterations := iterations + 1;
        var nxt := next[current];
        k := k + 1;
        if nxt == frame {
          return;
        }
        current := nxt;
      }
    }

    method Unlink(current: int, frame: nat, order: nat, ghost k: nat)
      requires ListsOk() && order <= MAX_ORDER
      requires 0 < k < |lists[order]| && lists[order][k - 1] == current && lists[order][k] == frame
      modifies next, this`lists
      ensures ListsOk()
      ensures lists == old(lists)[order := Without(old(lists[order]), k)]
    {
      ghost var n, l, ls := next[..], lists[order], lists;
      assert Linked(n, heads[order], l);
      UnlinkLinks(n, heads[order], l, k);
      WithoutContents(l, k);
      next[current] := next[frame];
      lists := lists[order := Without(l, k)];
      assert next[..] == n[current := n[frame]];
      forall o | 0 <= o <= MAX_ORDER ensures Linked(next[..], heads[o], lists[o]) && NoRepeat(lists[o]) {
        if o != order {
          assert Apart(ls[order], ls[o]);
          WriteElsewhere(n, heads[o], ls[o], current, n[frame]);
        }
      }
    }

    // ----- the allocator

    /** The bitmap and the lists describe the same free frames: the lists are exactly its maximal blocks. */
    ghost predicate Valid()
      reads this, heads, next, bitmap
    {
      BitmapOk() && ListsOk() && Tracks(lists, free) && freeFrames == |free|
    }

    method MarkAllocated(frame: nat, order: nat)
      requires BitmapOk() && frame + Pow2(order) <= MAX_FRAMES
      modifies bitmap, this`free
      ensures BitmapOk() && free == old(free) - Block(frame, order)
    {
      var count := Pow2(order);
      for i := 0 to count
        invariant BitmapOk() && free == old(free) - Range(frame, frame + i)
      {
        RangeGrows(frame, frame + i);
        SetBit(frame + i);
      }
    }

    method MarkFree(frame: nat, order: nat)
      requires BitmapOk() && 0 < frame && frame + Pow2(order) <= MAX_FRAMES
      modifies bitmap, this`free
      ensures BitmapOk() && free == old(free) + Block(frame, order)
    {
      var count := Pow2(order);
      for i := 0 to count
        invariant BitmapOk() && free == old(free) + Range(frame, frame + i)
      {
        RangeGrows(frame, frame + i);
        ClearBit(frame + i);
      }
    }

    /** The smallest order, at least the requested one, whose list is not empty. */
    method FindOrder(order: nat) returns (avail: nat)
      requires ListsOk() && order <= MAX_ORDER
      ensures order <= avail <= MAX_ORDER + 1
      ensures forall o :: order <= o < avail ==> lists[o] == []
      ensures avail <= MAX_ORDER ==> lists[avail] != []
    {
      avail := order;
      while avail <= MAX_ORDER
        invariant order <= avail <= MAX_ORDER + 1
        invariant forall o :: order <= o < avail ==> lists[o] == []
      {
        if heads[avail] != 0 {
          break;
        }
        assert Linked(next[..], heads[avail], lists[avail]);
        avail := avail + 1;
      }
    }

    /** Split the block in hand down to the requested order, listing the upper halves. */
    method SplitDown(frame: nat, avail: nat, order: nat)
      requires BitmapOk() && ListsOk() && order <= avail <= MAX_ORDER
      requires Aligned(frame, avail) && AllIn(free, frame, avail)
      requires Tracks(lists, free - Block(frame, avail))
      modifies heads, next, this`lists
      ensures ListsOk() && Aligned(frame, order)
      ensures Tracks(lists, free - Block(frame, order))
    {
      var a := avail;
      while a > order
        invariant order <= a <= avail
        invariant ListsOk() && Aligned(frame, a) && AllIn(free, frame, a)
        invariant Tracks(lists, free - Block(frame, a))
      {
        a := a - 1;
        SplitStep(free, frame, a);
        var buddyFrame := frame + Pow2(a);
        assert buddyFrame in free;
        ListBlock(buddyFrame, a, free - Block(frame, a + 1), free - Block(frame, a));
      }
    }

    method Allocate(order: nat) returns (r: Option<nat>)
      requires Valid()
      modifies this, heads, next, bitmap
      ensures Valid() && totalFrames == old(totalFrames) && initialized == old(initialized)
      ensures r.None? ==> free == old(free) && lists == old(lists)
      ensures r.None? <==> !initialized || order > MAX_ORDER || NoBlock(old(free), order)
      ensures r.Some? ==> r.value % PAGE_SIZE == 0 && Granted(old(free), free, r.value / PAGE_SIZE, order)
    {
      if !initialized || order > MAX_ORDER {
        return None;
      }
      var avail := FindOrder(order);
      if avail > MAX_ORDER {
        NothingListed(lists, free, order);
        return None;
      }
      var frame := Carve(order, avail);
      PageRoundTrip(frame);
      return Some(frame * PAGE_SIZE);
    }

    /** Pop a block of order `avail`, split it, and mark its low end allocated. */
    method Carve(order: nat, avail: nat) returns (frame: nat)
      requires Valid() && order <= avail <= MAX_ORDER && lists[avail] != []
      requires forall o :: order <= o < avail ==> lists[o] == []
      modifies this`free, this`lists, this`freeFrames, heads, next, bitmap
      ensures Valid() && Granted(old(free), free, frame, order) && !NoBlock(old(free), order)
    {
      ghost var f, ls := free, lists;
      frame := PopHead(avail);
      SmallestListed(ls, f, order, frame, avail);
      SplitDown(frame, avail, order);
      AllInRange(f, frame, avail, order);
      MarkAllocated(frame, order);
      freeFrames := freeFrames - Pow2(order);
      BlockTaken(f, frame, order);
    }

    method PopHead(avail: nat) returns (frame: nat)
      requires ListsOk() && Tracks(lists, free) && avail <= MAX_ORDER && lists[avail] != []
      modifies heads, this`lists
      ensures ListsOk() && Listed(old(lists), frame, avail)
      ensures Tracks(lists, free - Block(frame, avail))
    {
      ghost var ls := lists;
      var popped := PopFreeList(avail);
      frame := popped.value;
      assert Listed(ls, frame, avail);
      TracksRemove(ls, lists, free, frame, avail);
    }

    /** A block is held back: the lists describe f, and f with the block is what the bitmap calls free. */
    ghost predicate InHand(f: set<int>, b: int, a: int)
      reads this`free, this`lists
    {
      && 0 <= a <= MAX_ORDER && b >= 0 && Aligned(b, a)
      && (forall x :: x in Block(b, a) ==> x !in f)
      && f + Block(b, a) == free
      && Tracks(lists, f)
    }

    method BlockIsFree(frame: nat, order: nat) returns (r: bool)
      requires BitmapOk()
      ensures r <==> AllIn(free, frame, order)
    {
      var size := Pow2(order);
      for i := 0 to size
        invariant forall x :: frame <= x < frame + i ==> x in free
      {
        var bit := IsFree(frame + i);
        if frame + i >= MAX_FRAMES || !bit {
          assert frame + i !in free;
          return false;
        }
      }
      return true;
    }

    /** Merge the block in hand with its buddy if the buddy is free.  The buddy is then always on its list. */
    method MergeOnce(frame: nat, order: nat, ghost f: set<int>) returns (merged: bool, frame': nat, ghost f': set<int>)
      requires BitmapOk() && ListsOk() && InHand(f, frame, order) && order < MAX_ORDER
      modifies heads, next, this`lists
      ensures ListsOk()
      ensures merged <==> AllIn(free, Buddy(frame, order), order)
      ensures if merged then InHand(f', frame', order + 1)
              else frame' == frame && f' == f && InHand(f, frame, order) && Addable(f, frame, order)
    {
      XorBit(frame, order);
      ParentFacts(frame, order);
      var buddyFrame := Xor(frame, Pow2(order));
      merged := BlockIsFree(buddyFrame, order);
      frame', f' := frame, f;
      if !merged {
        HandIsAddable(f, free, frame, order);
        return;
      }
      MergeStep(f, frame, order);
      assert Listed(lists, buddyFrame, order);
      ghost var ls := lists;
      assert buddyFrame in free;
      merged := RemoveFromFreeList(buddyFrame, order);
      TracksRemove(ls, lists, f, buddyFrame, order);
      f' := f - Block(buddyFrame, order);
      frame' := if buddyFrame < frame then buddyFrame else frame;
    }

    method MergeUp(frame: nat, order: nat, ghost f: set<int>) returns (frame': nat, order': nat, ghost f': set<int>)
      requires BitmapOk() && ListsOk() && InHand(f, frame, order)
      modifies heads, next, this`lists
      ensures ListsOk() && InHand(f', frame', order') && Addable(f', frame', order')
    {
      frame', order', f' := frame, order, f;
      while order' < MAX_ORDER
        invariant ListsOk() && InHand(f', frame', order')
      {
        var merged;
        merged, frame', f' := MergeOnce(frame', order', f');
        if !merged {
          return;
        }
        order' := order' + 1;
      }
    }

    /** Give back a block.  Callers give back what they were granted: an aligned block of frames that are not free. */
    method Deallocate(addr: nat, order: nat)
      requires Valid() && order <= MAX_ORDER && addr % PAGE_SIZE == 0
      requires Aligned(addr / PAGE_SIZE, order)
      requires 0 < addr / PAGE_SIZE && addr / PAGE_SIZE + Pow2(order) <= MAX_FRAMES
      requires forall x :: x in Block(addr / PAGE_SIZE, order) ==> x !in free
      modifies this`free, this`lists, this`freeFrames, heads, next, bitmap
      ensures Valid() && free == old(free) + Block(addr / PAGE_SIZE, order)
    {
      var frame := addr / PAGE_SIZE;
      ghost var f := free;
      MarkFree(frame, order);
      freeFrames := freeFrames + Pow2(order);
      BlockGiven(f, frame, order);
      MergeAndList(frame, order, f);
    }

    /** Merges the block in hand as far as it goes, and lists it. */
    method MergeAndList(frame: nat, order: nat, ghost f: set<int>)
      requires BitmapOk() && ListsOk() && InHand(f, frame, order)
      modifies heads, next, this`lists
      ensures ListsOk() && Tracks(lists, free)
    {
      var currentFrame, currentOrder;
      ghost var g;
      currentFrame, currentOrder, g := MergeUp(frame, order, f);
      assert currentFrame in Block(currentFrame, currentOrder);
      ListBlock(currentFrame, currentOrder, g, free);
    }

    // ----- construction

    constructor ()
      ensures Shape() && fresh(heads) && fresh(next) && fresh(bitmap)
      ensures BitmapOk() && ListsOk() && free == {} && freeFrames == totalFrames == maxOrder == 0 && !initialized
      ensures forall o :: 0 <= o <= MAX_ORDER ==> lists[o] == []
    {
      heads := new int[MAX_ORDER + 1](_ => 0);
      next := new int[MAX_FRAMES](_ => 0);
      bitmap := new nat[BITMAP_SIZE](_ => 255);
      totalFrames, freeFrames, maxOrder, initialized := 0, 0, 0, false;
      free, lists := {}, seq(MAX_ORDER + 1, _ => []);
      new;
      forall i: nat | i < 8 ensures Bit(255, i) {
        assert Pow2(8) == 256;
        NotBits(0, 8, i);
        ZeroBits(i);
      }
    }

    /** The largest aligned free block that starts at `frame`. */
    method MaxBlockOrder(frame: nat) returns (order: nat)
      requires BitmapOk() && frame in free
      ensures order <= MAX_ORDER && LargestAt(free, frame, order)
    {
      order := 0;
      while order < MAX_ORDER
        invariant order <= MAX_ORDER && Aligned(frame, order) && AllIn(free, frame, order)
      {
        var nextSize := Pow2(order + 1);
        if frame % nextSize != 0 {
          break;
        }
        var allFree := UpperHalfIsFree(frame, order);
        if !allFree {
          break;
        }
        order := order + 1;
      }
    }

    method UpperHalfIsFree(frame: nat, order: nat) returns (r: bool)
      requires BitmapOk() && AllIn(free, frame, order)
      ensures r <==> AllIn(free, frame, order + 1)
    {
      HalvesAllIn(free, frame, order);
      r := BlockIsFree(frame + Pow2(order), order);
    }

    /** `maxOrder` is the highest order with a non-empty list. */
    ghost predicate MaxOrderOk()
      reads this`lists, this`maxOrder
    {
      && |lists| == MAX_ORDER + 1 && maxOrder <= MAX_ORDER
      && (forall o :: maxOrder < o <= MAX_ORDER ==> lists[o] == [])
      && (maxOrder > 0 ==> lists[maxOrder] != [])
    }

    /** List the largest block at a free frame that no block straddles. */
    method ListBlockAt(frame: nat) returns (order: nat)
      requires BitmapOk() && ListsOk() && frame in free
      requires MaxOrderOk() && Scanned(frame)
      modifies heads, next, this`lists, this`maxOrder
      ensures ListsOk() && MaxOrderOk() && Scanned(frame + Pow2(order))
    {
      order := MaxBlockOrder(frame);
      ListLargest(frame, order);
      if order > maxOrder {
        maxOrder := order;
      }
    }

    method ListLargest(frame: nat, order: nat)
      requires BitmapOk() && ListsOk() && frame in free && Scanned(frame)
      requires order <= MAX_ORDER && LargestAt(free, frame, order)
      modifies heads, next, this`lists
      ensures ListsOk() && Scanned(frame + Pow2(order))
      ensures lists == old(lists)[order := [frame] + old(lists[order])]
    {
      GreedyStep(free, frame, order);
      ListBlock(frame, order, Below(free, frame), Below(free, frame + Pow2(order)));
    }

    /** Greedy construction: scan upward, list the largest block at each free frame, skip past it. */
    method BuildFreeLists()
      requires BitmapOk() && ListsOk() && maxOrder == 0
      requires forall o :: 0 <= o <= MAX_ORDER ==> lists[o] == []
      modifies heads, next, this`lists, this`maxOrder
      ensures ListsOk() && Tracks(lists, free) && MaxOrderOk()
    {
      var frame: nat := 0;
      EmptyTracks(lists, Below(free, 0));
      while frame < MAX_FRAMES
        invariant ListsOk() && MaxOrderOk() && Scanned(frame)
        decreases MAX_FRAMES - frame
      {
        frame := ScanOne(frame);
      }
      assert Below(free, frame) == free;
    }

    /** Everything below `frame` is on the lists, and no block reaches across. */
    ghost predicate Scanned(frame: int)
      reads this`lists, this`free
    {
      Tracks(lists, Below(free, frame)) && NoStraddle(free, frame)
    }

    method ScanOne(frame: nat) returns (frame': nat)
      requires BitmapOk() && ListsOk() && MaxOrderOk() && Scanned(frame)
      modifies heads, next, this`lists, this`maxOrder
      ensures ListsOk() && MaxOrderOk() && Scanned(frame') && frame < frame'
    {
      var bit := IsFree(frame);
      if bit {
        var order := ListBlockAt(frame);
        frame' := frame + Pow2(order);
      } else {
        StepOver(free, frame);
        frame' := frame + 1;
        assert Scanned(frame');
      }
    }

    /** Make the usable regions available and build the lists.  Regions are disjoint and do not cover frame 0. */
    method InitFromRegions(regions: seq<(nat, nat)>)
      requires BitmapOk() && ListsOk() && free == {} && freeFrames == totalFrames == maxOrder == 0
      requires forall o :: 0 <= o <= MAX_ORDER ==> lists[o] == []
      requires RegionsOk(regions)
      modifies this, heads, next, bitmap
      ensures Valid() && MaxOrderOk() && initialized
      ensures free == UsableFrames(regions) && totalFrames == freeFrames == |free|
    {
      FreeRegions(regions);
      BuildFreeLists();
      initialized := true;
    }

    ghost predicate Counted()
      reads this`free, this`freeFrames, this`totalFrames, bitmap
    {
      BitmapOk() && freeFrames == totalFrames == |free|
    }

    method FreeRegions(regions: seq<(nat, nat)>)
      requires Counted() && free == {} && RegionsOk(regions)
      modifies bitmap, this`free, this`freeFrames, this`totalFrames
      ensures Counted() && free == UsableFrames(regions)
    {
      for r := 0 to |regions|
        invariant Counted() && free == UsableFrames(regions[..r])
      {
        FreshRegion(regions, r);
        FreeRegion(regions[r].0, regions[r].1);
        NextRegion(regions, r);
      }
      assert regions[..|regions|] == regions;
    }

    method FreeRegion(base: nat, length: nat)
      requires Counted()
      requires forall x :: x in RegionFrames(base, length) ==> x > 0 && x !in free
      modifies bitmap, this`free, this`freeFrames, this`totalFrames
      ensures Counted() && free == old(free) + RegionFrames(base, length)
    {
      ghost var before := free;
      var start, end := CeilDiv(base, PAGE_SIZE), (base + length) / PAGE_SIZE;
      assert Usable(start, end) == RegionFrames(base, length);
      FreeFrames(start, end, before);
    }

    method FreeFrames(start: nat, end: nat, ghost before: set<int>)
      requires Counted() && free == before
      requires forall x :: x in Usable(start, end) ==> x > 0 && x !in before
      modifies bitmap, this`free, this`freeFrames, this`totalFrames
      ensures Counted() && free == before + Usable(start, end)
    {
      var frame := start;
      UsableEmpty(start, end);
      while frame < end
        invariant start <= frame && (frame <= end || frame == start)
        invariant Counted() && free == before + Usable(start, frame)
        decreases end - frame
      {
        FreeNext(start, frame, end, before);
        frame := frame + 1;
      }
    }

    method FreeNext(ghost start: nat, frame: nat, ghost end: nat, ghost before: set<int>)
      requires Counted() && start <= frame < end && free == before + Usable(start, frame)
      requires forall x :: x in Usable(start, end) ==> x > 0 && x !in before
      modifies bitmap, this`free, this`freeFrames, this`totalFrames
      ensures Counted() && free == before + Usable(start, frame + 1)
    {
      UsableGrows(start, frame);
      if frame < MAX_FRAMES {
        assert frame in Usable(start, end) && frame !in Usable(start, frame);
        FreeFrame(frame);
      }
    }

    method FreeFrame(frame: nat)
      requires Counted() && 0 < frame < MAX_FRAMES && frame !in free
      modifies bitmap, this`free, this`freeFrames, this`totalFrames
      ensures Counted() && free == old(free) + {frame}
    {
      ClearBit(frame);
      totalFrames := totalFrames + 1;
      freeFrames := freeFrames + 1;
    }
  }

  function CeilDiv(a: nat, b: nat): nat
    requires b > 0
  {
    (a + b - 1) / b
  }

  ghost function Usable(start: int, end: int): set<int>
  {
    set x | start <= x < end && Between(0, x, MAX_FRAMES)
  }

  lemma UsableGrows(start: int, frame: int)
    requires 0 <= start <= frame
    ensures Usable(start, frame + 1) == Usable(start, frame) + if frame < MAX_FRAMES then {frame} else {}
  {
  }

  lemma UsableEmpty(start: int, end: int)
    ensures Usable(start, start) == {} && (start >= end ==> Usable(start, end) == {})
  {
  }

  /** The whole frames inside a region of bytes, up to the supported maximum. */
  ghost function RegionFrames(base: nat, length: nat): set<int>
  {
    Usable(CeilDiv(base, PAGE_SIZE), (base + length) / PAGE_SIZE)
  }

  ghost function UsableFrames(regions: seq<(nat, nat)>): set<int>
  {
    if regions == [] then {}
    else UsableFrames(regions[..|regions| - 1]) + RegionFrames(regions[|regions| - 1].0, regions[|regions| - 1].1)
  }

  ghost predicate RegionsOk(regions: seq<(nat, nat)>)
  {
    && (forall i :: 0 <= i < |regions| ==> 0 !in RegionFrames(regions[i].0, regions[i].1))
    && (forall i, j :: 0 <= i < j < |regions| ==>
          RegionFrames(regions[i].0, regions[i].1) !! RegionFrames(regions[j].0, regions[j].1))
  }

  lemma {:induction false} InSomeRegion(regions: seq<(nat, nat)>, x: int) returns (i: nat)
    requires x in UsableFrames(regions)
    ensures i < |regions| && x in RegionFrames(regions[i].0, regions[i].1)
    decreases |regions|
  {
    var n := |regions| - 1;
    if x in RegionFrames(regions[n].0, regions[n].1) {
      i := n;
    } else {
      i := InSomeRegion(regions[..n], x);
    }
  }

  lemma NextRegion(regions: seq<(nat, nat)>, r: nat)
    requires r < |regions|
    ensures UsableFrames(regions[..r + 1]) == UsableFrames(regions[..r]) + RegionFrames(regions[r].0, regions[r].1)
  {
    assert regions[..r + 1][..r] == regions[..r];
  }

  lemma FreshRegion(regions: seq<(nat, nat)>, r: nat)
    requires RegionsOk(regions) && r < |regions|
    ensures forall x :: x in RegionFrames(regions[r].0, regions[r].1) ==> x > 0 && x !in UsableFrames(regions[..r])
  {
    forall x | x in RegionFrames(regions[r].0, regions[r].1) ensures x > 0 && x !in UsableFrames(regions[..r]) {
      if x in UsableFrames(regions[..r]) {
        var i := InSomeRegion(regions[..r], x);
      }
    }
  }

  /** No aligned run of 2^order free frames exists. */
  ghost predicate NoBlock(f: set<int>, order: nat)
  {
    forall g :: g >= 0 && Aligned(g, order) ==> !AllIn(f, g, order)
  }

  /** The block at `frame` is the low end of a maximal block of the least sufficient order. */
  ghost predicate CutFromSmallest(f: set<int>, frame: int, order: nat)
  {
    exists a :: order <= a && Maximal(f, frame, a) && forall h, p :: Maximal(f, h, p) && p >= order ==> p >= a
  }

  /** An aligned block of free frames was taken out of the free set, cut from a smallest sufficient block. */
  ghost predicate Granted(f: set<int>, f': set<int>, frame: int, order: nat)
  {
    && frame >= 0 && order <= MAX_ORDER && Aligned(frame, order) && AllIn(f, frame, order)
    && f' == f - Block(frame, order)
    && CutFromSmallest(f, frame, order)
  }

  lemma PageRoundTrip(frame: nat)
    ensures (frame * PAGE_SIZE) / PAGE_SIZE == frame && (frame * PAGE_SIZE) % PAGE_SIZE == 0
  {
  }

  lemma NothingListed(lists: seq<seq<int>>, f: set<int>, order: nat)
    requires Tracks(lists, f) && order <= MAX_ORDER
    requires forall o :: order <= o <= MAX_ORDER ==> lists[o] == []
    ensures NoBlock(f, order)
  {
    forall g | g >= 0 && Aligned(g, order) ensures !AllIn(f, g, order) {
      if AllIn(f, g, order) {
        var h, p := MaximalAround(f, g, order);
      }
    }
  }

  lemma SmallestListed(lists: seq<seq<int>>, f: set<int>, order: nat, frame: int, avail: nat)
    requires Tracks(lists, f) && order <= avail <= MAX_ORDER && Listed(lists, frame, avail)
    requires forall o :: order <= o < avail ==> lists[o] == []
    ensures Maximal(f, frame, avail) && CutFromSmallest(f, frame, order)
    ensures !NoBlock(f, order)
  {
    forall h, p | Maximal(f, h, p) && p >= order ensures p >= avail {
      assert Listed(lists, h, p);
    }
    AlignedWeakens(frame, avail, order);
    Pow2Monotone(order, avail);
    assert AllIn(f, frame, order);
  }

  lemma RangeGrows(lo: int, hi: int)
    requires lo <= hi
    ensures Range(lo, hi + 1) == Range(lo, hi) + {hi}
  {
  }

  lemma AllInRange(f: set<int>, frame: int, avail: nat, order: nat)
    requires AllIn(f, frame, avail) && order <= avail
    requires forall x :: x in f ==> 0 < x < MAX_FRAMES
    ensures AllIn(f, frame, order) && frame + Pow2(order) <= MAX_FRAMES
  {
    Pow2Monotone(order, avail);
    assert frame + Pow2(order) - 1 in f;
  }

  // ----- greedy construction

  /** No larger aligned free block starts at `frame`. */
  ghost predicate LargestAt(f: set<int>, frame: int, order: int)
  {
    && 0 <= order && Aligned(frame, order) && AllIn(f, frame, order)
    && (order < MAX_ORDER ==> !(Aligned(frame, order + 1) && AllIn(f, frame, order + 1)))
  }

  ghost function Below(f: set<int>, frame: int): set<int>
  {
    set x | x in f && x < frame
  }

  /** No aligned free block has `frame` strictly inside. */
  ghost predicate NoStraddle(f: set<int>, frame: int)
  {
    forall h, p :: 0 <= p <= MAX_ORDER && h >= 0 && Aligned(h, p) && AllIn(f, h, p) ==> !(h < frame < h + Pow2(p))
  }

  lemma HalvesAllIn(f: set<int>, frame: int, order: nat)
    requires AllIn(f, frame, order)
    ensures AllIn(f, frame + Pow2(order), order) <==> AllIn(f, frame, order + 1)
  {
    assert Pow2(order + 1) == Pow2(order) + Pow2(order);
  }

  lemma EmptyTracks(lists: seq<seq<int>>, f: set<int>)
    requires |lists| == MAX_ORDER + 1 && forall o :: 0 <= o <= MAX_ORDER ==> lists[o] == []
    requires forall x :: x in f ==> x < 0
    ensures Tracks(lists, f)
  {
    forall g, o ensures !Maximal(f, g, o) {
      assert g >= 0 ==> g !in f;
    }
  }

  lemma StepOver(f: set<int>, frame: int)
    requires NoStraddle(f, frame) && frame !in f
    ensures NoStraddle(f, frame + 1) && Below(f, frame + 1) == Below(f, frame)
  {
  }

  /** The largest block at a frame that no block straddles can be added to what lies below it. */
  lemma GreedyStep(f: set<int>, frame: int, order: nat)
    requires NoStraddle(f, frame) && frame >= 0 && frame in f && order <= MAX_ORDER && LargestAt(f, frame, order)
    ensures Addable(Below(f, frame), frame, order)
    ensures Below(f, frame + Pow2(order)) == Below(f, frame) + Block(frame, order)
    ensures NoStraddle(f, frame + Pow2(order))
  {
    GreedyAddable(f, frame, order);
    GreedyNoStraddle(f, frame, order);
  }

  lemma GreedyAddable(f: set<int>, frame: int, order: nat)
    requires NoStraddle(f, frame) && frame >= 0 && frame in f && order <= MAX_ORDER && LargestAt(f, frame, order)
    ensures Addable(Below(f, frame), frame, order)
  {
    if order < MAX_ORDER {
      ParentFacts(frame, order);
      ParentIsBothHalves(f, frame, order);
      var buddy := Buddy(frame, order);
      if Upper(frame, order) {
        assert !AllIn(f, Parent(frame, order), order + 1);
        var x :| buddy <= x < buddy + Pow2(order) && x !in f;
        assert x !in Below(f, frame);
      } else {
        assert buddy !in Below(f, frame);
      }
    }
  }

  lemma SmallerAt(f: set<int>, frame: int, p: nat, o: nat)
    requires o <= p && Aligned(frame, p) && AllIn(f, frame, p)
    ensures Aligned(frame, o) && AllIn(f, frame, o)
  {
    AlignedWeakens(frame, p, o);
    Pow2Monotone(o, p);
  }

  lemma GreedyNoStraddle(f: set<int>, frame: int, order: nat)
    requires NoStraddle(f, frame) && frame >= 0 && order <= MAX_ORDER && LargestAt(f, frame, order)
    ensures NoStraddle(f, frame + Pow2(order))
  {
    var end := frame + Pow2(order);
    forall h, p | 0 <= p <= MAX_ORDER && h >= 0 && Aligned(h, p) && AllIn(f, h, p) ensures !(h < end < h + Pow2(p)) {
      if h < end < h + Pow2(p) {
        if p <= order {
          Laminar(h, p, frame, order);
        } else if h == frame {
          SmallerAt(f, frame, p, order + 1);
        } else {
          Laminar(frame, order, h, p);
        }
      }
    }
  }

  lemma HandIsAddable(f: set<int>, free: set<int>, b: int, a: nat)
    requires a < MAX_ORDER && b >= 0 && Aligned(b, a)
    requires forall x :: x in Block(b, a) ==> x !in f
    requires f <= free && !AllIn(free, Buddy(b, a), a)
    ensures Addable(f, b, a)
  {
    forall x | b <= x < b + Pow2(a) ensures x !in f {
      assert x in Block(b, a);
    }
    var y :| Buddy(b, a) <= y < Buddy(b, a) + Pow2(a) && y !in free;
    assert y !in f;
  }

  lemma BlockGiven(f: set<int>, frame: int, order: nat)
    requires forall x :: x in Block(frame, order) ==> x !in f
    ensures |f + Block(frame, order)| == |f| + Pow2(order)
  {
    RangeCard(frame, frame + Pow2(order));
  }

  lemma BlockTaken(f: set<int>, frame: int, order: nat)
    requires AllIn(f, frame, order)
    ensures |f - Block(frame, order)| == |f| - Pow2(order)
  {
    RangeCard(frame, frame + Pow2(order));
    assert f == (f - Block(frame, order)) + Block(frame, order);
  }
}
