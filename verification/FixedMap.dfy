/** Open-addressing hash table with linear probing and backward-shift deletion.

    The first half is about slot sequences and holds for every hash function `home`;
    the second half is the mutable map, whose every operation is proved to act on a
    plain finite map `view`. */
module FixedMap {
  import opened Bits
  import opened Wrappers

  type Key = k: int | 0 <= k < 0x1_0000_0000_0000_0000 witness 0

  datatype Slot<+V> = Empty | Full(key: Key, value: V)

  // ----- positions on the ring of slots

  /** x lies on the cyclic stretch that starts at a and ends at b, both included. */
  predicate Between(a: nat, x: nat, b: nat)
  {
    if a <= b then a <= x <= b else x >= a || x <= b
  }

  /** x lies strictly inside the cyclic stretch from a to b. */
  predicate Inside(a: nat, x: nat, b: nat)
  {
    Between(a, x, b) && x != a && x != b
  }

  function Next(i: nat, n: nat): (j: nat)
    requires i < n
    ensures j < n
  {
    if i + 1 == n then 0 else i + 1
  }

  function Distance(a: nat, b: nat, n: nat): nat
    requires a < n && b < n
  {
    if a <= b then b - a else b - a + n
  }

  // ----- the table invariant, for an arbitrary hash function

  ghost predicate HashInto(home: Key -> nat, n: nat)
  {
    forall k: Key :: home(k) < n
  }

  /** The occupied slots are the graph of `view`; `pos` says where each key sits. */
  ghost predicate Indexed<V>(s: seq<Slot<V>>, view: map<Key, V>, pos: map<Key, nat>)
  {
    && pos.Keys == view.Keys
    && (forall k :: k in view ==> pos[k] < |s| && s[pos[k]] == Full(k, view[k]))
    && (forall i :: 0 <= i < |s| && s[i].Full? ==> s[i].key in view && pos[s[i].key] == i)
  }

  /** Every slot from a key's home to its position is occupied, cyclically; slot `hole` excepted. */
  ghost predicate ProbedExcept<V>(s: seq<Slot<V>>, home: Key -> nat, hole: int)
  {
    forall i, x :: 0 <= i < |s| && s[i].Full? && 0 <= x < |s| && x != hole && Between(home(s[i].key), x, i) ==>
      s[x].Full?
  }

  ghost predicate Table<V>(s: seq<Slot<V>>, home: Key -> nat, view: map<Key, V>, pos: map<Key, nat>)
  {
    && HashInto(home, |s|)
    && Indexed(s, view, pos)
    && ProbedExcept(s, home, -1)
  }

  /** The probe for `k` has passed every slot from its home up to `idx`. */
  ghost predicate Passed<V>(s: seq<Slot<V>>, home: Key -> nat, k: Key, idx: nat)
  {
    && idx < |s|
    && forall x :: 0 <= x < |s| && x != idx && Between(home(k), x, idx) ==> s[x].Full? && s[x].key != k
  }

  lemma {:induction false} KeysOfFullPrefix<V>(s: seq<Slot<V>>, view: map<Key, V>, pos: map<Key, nat>, n: nat)
    returns (ks: set<Key>)
    requires Indexed(s, view, pos) && n <= |s|
    requires forall i :: 0 <= i < n ==> s[i].Full?
    ensures |ks| == n && ks <= view.Keys
    ensures forall k :: k in ks ==> k in view && pos[k] < n
    decreases n
  {
    if n == 0 {
      ks := {};
    } else {
      var rest := KeysOfFullPrefix(s, view, pos, n - 1);
      ks := rest + {s[n - 1].key};
    }
  }

  /** A table holding fewer keys than it has slots has an empty slot; no loop below can run forever. */
  lemma EmptySlotExists<V>(s: seq<Slot<V>>, view: map<Key, V>, pos: map<Key, nat>) returns (e: nat)
    requires Indexed(s, view, pos)
    requires |view| < |s|
    ensures e < |s| && s[e].Empty?
  {
    if forall i :: 0 <= i < |s| ==> s[i].Full? {
      var ks := KeysOfFullPrefix(s, view, pos, |s|);
      SubsetSize(ks, view.Keys);
    }
    e :| 0 <= e < |s| && !s[e].Full?;
  }

  lemma {:induction false} SubsetSize<T>(a: set<T>, b: set<T>)
    requires a <= b
    ensures |a| <= |b|
    decreases a
  {
    if a != {} {
      var x :| x in a;
      SubsetSize(a - {x}, b - {x});
    }
  }

  // ----- lookup

  /** A probe that reaches an empty slot proves the key absent. */
  lemma MissMeansAbsent<V>(s: seq<Slot<V>>, home: Key -> nat, view: map<Key, V>, pos: map<Key, nat>, k: Key, idx: nat)
    requires Table(s, home, view, pos)
    requires Passed(s, home, k, idx) && s[idx].Empty?
    ensures k !in view
  {
    if k in view {
    }
  }

  lemma PassedNext<V>(s: seq<Slot<V>>, home: Key -> nat, k: Key, idx: nat)
    requires HashInto(home, |s|)
    requires Passed(s, home, k, idx)
    requires s[idx].Full? && s[idx].key != k
    requires Next(idx, |s|) != home(k)
    ensures Passed(s, home, k, Next(idx, |s|))
  {
  }

  // ----- insertion

  lemma InsertKeepsTable<V>(s: seq<Slot<V>>, home: Key -> nat, view: map<Key, V>, pos: map<Key, nat>, k: Key, v: V,
                            idx: nat)
    requires Table(s, home, view, pos)
    requires Passed(s, home, k, idx) && s[idx].Empty?
    ensures k !in view
    ensures Table(s[idx := Full(k, v)], home, view[k := v], pos[k := idx])
  {
    MissMeansAbsent(s, home, view, pos, k, idx);
    var t := s[idx := Full(k, v)];
    forall i, x | 0 <= i < |t| && t[i].Full? && 0 <= x < |t| && x != -1 && Between(home(t[i].key), x, i)
      ensures t[x].Full?
    {
    }
  }

  lemma UpdateKeepsTable<V>(s: seq<Slot<V>>, home: Key -> nat, view: map<Key, V>, pos: map<Key, nat>, k: Key, v: V,
                            idx: nat)
    requires Table(s, home, view, pos)
    requires idx < |s| && s[idx].Full? && s[idx].key == k
    ensures k in view && s[idx].value == view[k]
    ensures Table(s[idx := Full(k, v)], home, view[k := v], pos)
  {
    var t := s[idx := Full(k, v)];
    forall i, x | 0 <= i < |t| && t[i].Full? && 0 <= x < |t| && x != -1 && Between(home(t[i].key), x, i)
      ensures t[x].Full?
    {
      assert s[i].Full? && s[i].key == t[i].key;
    }
  }

  // ----- backward-shift deletion

  /** The table while a gap is being closed: slot `hole` is empty, probe paths may cross it,
      but no entry strictly between the gap and `scan` needs it. */
  ghost predicate Gap<V>(s: seq<Slot<V>>, home: Key -> nat, view: map<Key, V>, pos: map<Key, nat>, hole: nat, scan: nat)
  {
    && HashInto(home, |s|)
    && hole < |s| && scan < |s| && s[hole].Empty?
    && Indexed(s, view, pos)
    && ProbedExcept(s, home, hole)
    && forall i :: 0 <= i < |s| && s[i].Full? && Between(home(s[i].key), hole, i) ==> !Inside(hole, i, scan)
  }

  lemma TakeOpensGap<V>(s: seq<Slot<V>>, home: Key -> nat, view: map<Key, V>, pos: map<Key, nat>, k: Key, idx: nat)
    requires Table(s, home, view, pos)
    requires idx < |s| && s[idx].Full? && s[idx].key == k
    ensures k in view && s[idx].value == view[k]
    ensures Gap(s[idx := Empty], home, view - {k}, pos - {k}, idx, Next(idx, |s|))
  {
    var t := s[idx := Empty];
    forall i | 0 <= i < |t| && t[i].Full? ensures t[i].key in view - {k} && (pos - {k})[t[i].key] == i {
      assert s[i].Full? && pos[s[i].key] == i;
    }
    forall i, x | 0 <= i < |t| && t[i].Full? && 0 <= x < |t| && x != idx && Between(home(t[i].key), x, i)
      ensures t[x].Full?
    {
      assert s[i].Full? && x != -1;
    }
  }

  /** The entry at `scan` probed past the gap: moving it back keeps every path intact and moves the gap to `scan`. */
  lemma MoveKeepsGap<V>(s: seq<Slot<V>>, home: Key -> nat, view: map<Key, V>, pos: map<Key, nat>, hole: nat, scan: nat)
    requires Gap(s, home, view, pos, hole, scan)
    requires scan != hole && s[scan].Full?
    requires Between(home(s[scan].key), hole, scan)
    ensures Gap(s[hole := s[scan]][scan := Empty], home, view, pos[s[scan].key := hole], scan, Next(scan, |s|))
  {
    var t := s[hole := s[scan]][scan := Empty];
    forall i, x | 0 <= i < |t| && t[i].Full? && 0 <= x < |t| && x != scan && Between(home(t[i].key), x, i)
      ensures t[x].Full?
    {
      if i == hole {
        assert Between(home(s[scan].key), x, scan);
      } else {
        assert s[i].Full?;
      }
    }
  }

  /** The entry at `scan` does not need the gap: it stays, and the scan goes on. */
  lemma SkipKeepsGap<V>(s: seq<Slot<V>>, home: Key -> nat, view: map<Key, V>, pos: map<Key, nat>, hole: nat, scan: nat)
    requires Gap(s, home, view, pos, hole, scan)
    requires scan != hole && s[scan].Full?
    requires !Between(home(s[scan].key), hole, scan)
    ensures Gap(s, home, view, pos, hole, Next(scan, |s|))
  {
  }

  /** Reaching an empty slot closes the gap: nobody's path crosses it any more. */
  lemma GapCloses<V>(s: seq<Slot<V>>, home: Key -> nat, view: map<Key, V>, pos: map<Key, nat>, hole: nat, scan: nat)
    requires Gap(s, home, view, pos, hole, scan)
    requires scan != hole && s[scan].Empty?
    ensures Table(s, home, view, pos)
  {
    forall i, x | 0 <= i < |s| && s[i].Full? && 0 <= x < |s| && x != -1 && Between(home(s[i].key), x, i)
      ensures s[x].Full?
    {
      assert x == hole ==> Between(home(s[i].key), scan, i);
    }
  }

  /** Besides the gap there is another empty slot, which will end the scan. */
  lemma OtherEmptySlot<V>(s: seq<Slot<V>>, home: Key -> nat, view: map<Key, V>, pos: map<Key, nat>, hole: nat)
    returns (e: nat)
    requires hole < |s| && s[hole].Empty? && Indexed(s, view, pos)
    requires |view| + 1 < |s|
    ensures e < |s| && s[e].Empty? && e != hole
  {
    if forall i :: 0 <= i < |s| && i != hole ==> s[i].Full? {
      var ks := KeysOfFullPrefix(s, view, pos, hole);
      var all := KeysOfFullSuffix(s, view, pos, ks, hole, |s|);
      SubsetSize(all, view.Keys);
    }
    e :| 0 <= e < |s| && e != hole && !s[e].Full?;
  }

  lemma {:induction false} KeysOfFullSuffix<V>(s: seq<Slot<V>>, view: map<Key, V>, pos: map<Key, nat>,
                                               below: set<Key>, hole: nat, n: nat) returns (ks: set<Key>)
    requires Indexed(s, view, pos) && hole < n <= |s|
    requires |below| == hole && below <= view.Keys && forall k :: k in below ==> k in view && pos[k] < hole
    requires forall i :: hole < i < n ==> s[i].Full?
    ensures |ks| == n - 1 && ks <= view.Keys
    ensures forall k :: k in ks ==> k in view && pos[k] < n
    decreases n
  {
    if n == hole + 1 {
      ks := below;
    } else {
      var rest := KeysOfFullSuffix(s, view, pos, below, hole, n - 1);
      ks := rest + {s[n - 1].key};
    }
  }

  // ----- the mutable map

  /** 16384 slots, a power of two. */
  const CAPACITY: nat := 16384
  /** At most three quarters of the slots are ever occupied. */
  const MAX_LOAD: nat := 12288

  function FibHash(key: Key, mask: nat): nat
  {
    And(key * 0x9E37_79B9_7F4A_7C15 % 0x1_0000_0000_0000_0000 / 0x1_0000_0000, mask)
  }

  // ----- what the map operations do to a plain finite map

  /** Insert or overwrite; refused only when the key is new and the map is at its load limit. */
  function Inserted<K, V>(m: map<K, V>, k: K, v: V): (map<K, V>, bool)
  {
    if k in m || |m| < MAX_LOAD then (m[k := v], true) else (m, false)
  }

  /** `None` stands for the panic of the `expect`. */
  function GottenOrInserted<K, V>(m: map<K, V>, k: K, default: V): (map<K, V>, Option<V>)
  {
    if k in m then (m, Some(m[k]))
    else if |m| < MAX_LOAD then (m[k := default], Some(default))
    else (m, None)
  }

  function Found<K, V>(m: map<K, V>, k: K): Option<V>
  {
    if k in m then Some(m[k]) else None
  }

  /** The hash the kernel uses: the upper half of a wrapping product, masked to the table size. */
  function Fibonacci(key: Key): (h: nat)
    ensures h < CAPACITY
  {
    FibHash(key, CAPACITY - 1)
  }

  lemma NextByMask(i: nat, n: nat)
    requires i < Pow2(n)
    ensures And(i + 1, Pow2(n) - 1) == Next(i, Pow2(n))
  {
    AndMask(i + 1, n);
    if i + 1 == Pow2(n) {
      DivUnique(i + 1, Pow2(n), 1, 0);
    } else {
      DivUnique(i + 1, Pow2(n), 0, i + 1);
    }
  }

  lemma Step(i: nat)
    requires i < CAPACITY
    ensures And(i + 1, CAPACITY - 1) == Next(i, CAPACITY)
  {
    assert Pow2(14) == 16384;
    NextByMask(i, 14);
  }

  class FixedMap<V> {
    const home: Key -> nat
    var slots: array?<Slot<V>>
    var capacity: nat
    var mask: nat
    var len: nat
    ghost var view: map<Key, V>
    ghost var pos: map<Key, nat>

    ghost predicate Valid()
      reads this, slots
    {
      && HashInto(home, CAPACITY)
      && len == |view| <= MAX_LOAD
      && if slots == null then
           capacity == 0 && mask == 0 && view == map[]
         else
           && capacity == slots.Length == CAPACITY
           && mask == CAPACITY - 1
           && Table(slots[..], home, view, pos)
    }

    constructor (home: Key -> nat)
      requires HashInto(home, CAPACITY)
      ensures Valid() && view == map[] && slots == null && this.home == home
    {
      this.home := home;
      slots, capacity, mask, len := null, 0, 0, 0;
      view, pos := map[], map[];
    }

    /** Allocate the slots on first use. */
    method EnsureInit()
      requires Valid()
      modifies this
      ensures Valid() && slots != null && view == old(view)
      ensures if old(slots) == null then fresh(slots) else slots == old(slots) && pos == old(pos)
    {
      if slots == null {
        slots := new Slot<V>[CAPACITY](_ => Empty);
        capacity, mask := CAPACITY, CAPACITY - 1;
        pos := map[];
      }
    }

    /** Linear probe: the slot holding `key`, or the first empty slot of its path. */
    method Probe(key: Key) returns (idx: nat)
      requires Valid() && slots != null
      ensures idx < slots.Length
      ensures Passed(slots[..], home, key, idx)
      ensures slots[idx].Full? ==> slots[idx].key == key
    {
      idx := home(key);
      ghost var e := EmptySlotExists(slots[..], view, pos);
      while slots[idx].Full? && slots[idx].key != key
        invariant idx < CAPACITY
        invariant Between(home(key), idx, e)
        invariant Passed(slots[..], home, key, idx)
        decreases Distance(idx, e, CAPACITY)
      {
        PassedNext(slots[..], home, key, idx);
        idx := Advance(idx);
      }
    }

    method Advance(i: nat) returns (j: nat)
      requires i < CAPACITY && mask == CAPACITY - 1
      ensures j == Next(i, CAPACITY)
    {
      Step(i);
      j := And(i + 1, mask);
    }

    method Insert(key: Key, value: V) returns (ok: bool)
      requires Valid()
      modifies this, slots
      ensures Valid() && slots != null
      ensures if old(slots) == null then fresh(slots) else slots == old(slots)
      ensures (view, ok) == Inserted(old(view), key, value)
    {
      EnsureInit();
      var idx := Probe(key);
      ghost var s := slots[..];
      if slots[idx].Empty? {
        InsertKeepsTable(s, home, view, pos, key, value, idx);
        if len >= capacity * 3 / 4 {
          return false;
        }
        slots[idx] := Full(key, value);
        len := len + 1;
        view, pos := view[key := value], pos[key := idx];
        assert slots[..] == s[idx := Full(key, value)];
        return true;
      } else {
        UpdateKeepsTable(s, home, view, pos, key, value, idx);
        slots[idx] := Full(key, value);
        view := view[key := value];
        assert slots[..] == s[idx := Full(key, value)];
        return true;
      }
    }

    /** The scan shared by `get`, `get_mut` and `remove`. */
    method Find(key: Key) returns (r: Option<nat>)
      requires Valid()
      ensures r.Some? <==> key in view
      ensures r.Some? ==> slots != null && r.value < slots.Length && slots[r.value] == Full(key, view[key])
    {
      if slots == null {
        return None;
      }
      var idx := Probe(key);
      if slots[idx].Empty? {
        MissMeansAbsent(slots[..], home, view, pos, key, idx);
        return None;
      }
      assert slots[..][idx].Full?;
      return Some(idx);
    }

    method Get(key: Key) returns (r: Option<V>)
      requires Valid()
      ensures r == Found(view, key)
    {
      var idx := Find(key);
      r := if idx.None? then None else Some(slots[idx.value].value);
    }

    method ContainsKey(key: Key) returns (r: bool)
      requires Valid()
      ensures r <==> key in view
    {
      var v := Get(key);
      r := v.Some?;
    }

    /** An assignment through the reference that `get_mut` returns. */
    method SetExisting(key: Key, value: V) returns (found: bool)
      requires Valid()
      modifies slots, this`view
      ensures Valid() && (found <==> key in old(view))
      ensures view == if found then old(view)[key := value] else old(view)
    {
      var idx := Find(key);
      if idx.None? {
        return false;
      }
      ghost var s := slots[..];
      UpdateKeepsTable(s, home, view, pos, key, value, idx.value);
      slots[idx.value] := Full(key, value);
      view := view[key := value];
      assert slots[..] == s[idx.value := Full(key, value)];
      return true;
    }

    method GetOrInsert(key: Key, default: V) returns (r: Option<V>)
      requires Valid()
      modifies this, slots
      ensures Valid() && slots != null
      ensures if old(slots) == null then fresh(slots) else slots == old(slots)
      ensures (view, r) == GottenOrInserted(old(view), key, default)
    {
      EnsureInit();
      var present := ContainsKey(key);
      if !present {
        var _ := Insert(key, default);
      }
      r := Get(key);
    }

    /** Remove a key, then close the gap by shifting displaced entries backward. */
    method Remove(key: Key) returns (r: Option<V>)
      requires Valid()
      modifies this, slots
      ensures Valid() && slots == old(slots)
      ensures r == Found(old(view), key) && view == old(view) - {key}
    {
      var idx := Find(key);
      if idx.None? {
        return None;
      }
      r := Some(slots[idx.value].value);
      Take(key, idx.value);
      CloseGap(idx.value);
    }

    ghost predicate GapAt(idx: nat)
      reads this, slots
    {
      && HashInto(home, CAPACITY)
      && slots != null && slots.Length == capacity == CAPACITY && mask == CAPACITY - 1
      && idx < CAPACITY && len == |view| < MAX_LOAD
      && Gap(slots[..], home, view, pos, idx, Next(idx, CAPACITY))
    }

    /** Empty the slot that holds `key`, which leaves a gap there. */
    method Take(key: Key, idx: nat)
      requires Valid() && slots != null && idx < slots.Length
      requires slots[idx].Full? && slots[idx].key == key
      modifies slots, this`view, this`pos, this`len
      ensures GapAt(idx)
      ensures key in old(view) && old(slots[idx]).value == old(view)[key]
      ensures view == old(view) - {key}
    {
      ghost var s := slots[..];
      TakeOpensGap(s, home, view, pos, key, idx);
      slots[idx] := Empty;
      len := len - 1;
      view, pos := view - {key}, pos - {key};
      assert slots[..] == s[idx := Empty];
    }

    /** The gap is at `hole`, the scan at `scan`, and the empty slot `e` that will end the scan is still ahead. */
    ghost predicate Closing(hole: nat, scan: nat, e: nat)
      reads this, slots
    {
      && slots != null && slots.Length == CAPACITY && mask == CAPACITY - 1
      && hole < CAPACITY && scan < CAPACITY && e < CAPACITY
      && scan != hole && e != hole && Between(hole, scan, e) && slots[e].Empty?
      && Gap(slots[..], home, view, pos, hole, scan)
    }

    method CloseGap(idx: nat)
      requires GapAt(idx)
      modifies slots, this`pos
      ensures Valid()
    {
      ghost var e := OtherEmptySlot(slots[..], home, view, pos, idx);
      var hole: nat := idx;
      var scan: nat := Advance(idx);
      while slots[scan].Full?
        invariant Closing(hole, scan, e)
        decreases Distance(scan, e, CAPACITY)
      {
        hole, scan := ShiftOne(hole, scan, e);
      }
      GapCloses(slots[..], home, view, pos, hole, scan);
    }

    /** The entry at `scan` moves into the gap, which is then at `scan`. */
    method MoveBack(hole: nat, scan: nat)
      requires slots != null && slots.Length == CAPACITY && hole < CAPACITY && scan < CAPACITY && scan != hole
      requires Gap(slots[..], home, view, pos, hole, scan) && slots[scan].Full?
      requires Between(home(slots[scan].key), hole, scan)
      modifies slots, this`pos
      ensures slots[..] == old(slots[..])[hole := old(slots[scan])][scan := Empty]
      ensures Gap(slots[..], home, view, pos, scan, Next(scan, CAPACITY))
    {
      ghost var s := slots[..];
      MoveKeepsGap(s, home, view, pos, hole, scan);
      pos := pos[slots[scan].key := hole];
      slots[hole], slots[scan] := slots[scan], slots[hole];
      assert slots[..] == s[hole := s[scan]][scan := Empty];
    }

    /** One round of the shift: the entry at `scan` moves into the gap if it probed past it. */
    method ShiftOne(hole: nat, scan: nat, ghost e: nat) returns (hole': nat, scan': nat)
      requires Closing(hole, scan, e) && slots[scan].Full?
      modifies slots, this`pos
      ensures Closing(hole', scan', e)
      ensures Distance(scan', e, CAPACITY) < Distance(scan, e, CAPACITY)
    {
      ghost var s := slots[..];
      var natural := home(slots[scan].key);
      var shouldMove := if natural <= scan then hole >= natural && hole < scan
                        else hole >= natural || hole < scan;
      scan' := Advance(scan);
      if shouldMove {
        MoveBack(hole, scan);
        hole' := scan;
      } else {
        SkipKeepsGap(s, home, view, pos, hole, scan);
        hole' := hole;
      }
    }

    method Clear()
      requires Valid()
      modifies this, slots
      ensures Valid() && slots == old(slots) && view == map[]
    {
      if slots != null {
        for i := 0 to slots.Length
          invariant forall j :: 0 <= j < i ==> slots[j].Empty?
          modifies slots
        {
          slots[i] := Empty;
        }
      }
      len := 0;
      view, pos := map[], map[];
    }
  }

  /** The map with the kernel's own hash. */
  method New<V>() returns (m: FixedMap<V>)
    ensures fresh(m) && m.Valid() && m.home == Fibonacci && m.view == map[]
  {
    m := new FixedMap<V>(Fibonacci);
  }
}
