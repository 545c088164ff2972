/** The inbox of a process: a ring of 32 slots that behaves as a bounded queue. */
module BusQueue {
  import opened Wrappers

  const CAPACITY: nat := 32

  function Slot(head: nat, i: nat): nat { (head + i) % CAPACITY }

  /** The slots that are in use, oldest first. */
  ghost function Used<T>(slots: seq<Option<T>>, head: nat, count: nat): (r: seq<Option<T>>)
    requires |slots| == CAPACITY && count <= CAPACITY
    ensures |r| == count && forall i {:trigger r[i]} :: 0 <= i < count ==> r[i] == slots[Slot(head, i)]
  {
    seq(count, i requires 0 <= i < count => slots[Slot(head, i)])
  }

  ghost function Full<T>(s: seq<T>): (r: seq<Option<T>>)
    ensures |r| == |s| && forall i {:trigger r[i]} :: 0 <= i < |s| ==> r[i] == Some(s[i])
  {
    seq(|s|, i requires 0 <= i < |s| => Some(s[i]))
  }

  lemma SlotsDiffer(head: nat, i: nat, j: nat)
    requires i < j < i + CAPACITY
    ensures Slot(head, i) != Slot(head, j)
  {
  }

  lemma SlotStep(head: nat, i: nat)
    ensures Slot(head, i + 1) == (Slot(head, i) + 1) % CAPACITY
    ensures Slot(Slot(head, 1), i) == Slot(head, i + 1)
  {
  }

  lemma Pushed<T>(was: seq<Option<T>>, head: nat, n: nat, s: seq<T>, x: T)
    requires |was| == CAPACITY && n < CAPACITY && Used(was, head, n) == Full(s)
    ensures Used(was[Slot(head, n) := Some(x)], head, n + 1) == Full(s + [x])
  {
    var r := Used(was[Slot(head, n) := Some(x)], head, n + 1);
    assert |s| == |Full(s)| == n;
    forall i | 0 <= i < n + 1
      ensures r[i] == Full(s + [x])[i]
    {
      if i < n {
        SlotsDiffer(head, i, n);
        assert Used(was, head, n)[i] == Full(s)[i];
      }
    }
  }

  lemma Popped<T>(was: seq<Option<T>>, head: nat, n: nat, s: seq<T>)
    requires |was| == CAPACITY && head < CAPACITY && 0 < n <= CAPACITY && Used(was, head, n) == Full(s)
    ensures s != [] && was[head] == Some(s[0])
    ensures Used(was[head := None], Slot(head, 1), n - 1) == Full(s[1..])
  {
    var r := Used(was[head := None], Slot(head, 1), n - 1);
    assert |s| == |Full(s)| == n;
    assert Used(was, head, n)[0] == Full(s)[0] && Slot(head, 0) == head;
    forall i | 0 <= i < n - 1
      ensures r[i] == Full(s[1..])[i]
    {
      SlotStep(head, i);
      SlotsDiffer(head, 0, i + 1);
      assert Used(was, head, n)[i + 1] == Full(s)[i + 1];
    }
  }

  class InboxQueue<T> {
    const slots: array<Option<T>>
    var head: nat
    var tail: nat
    var count: nat
    /** The pending messages, oldest first. */
    ghost var contents: seq<T>

    ghost predicate Valid()
      reads this, slots
    {
      && slots.Length == CAPACITY && head < CAPACITY && count <= CAPACITY && tail == Slot(head, count)
      && Used(slots[..], head, count) == Full(contents)
    }

    constructor ()
      ensures Valid() && contents == [] && fresh(slots)
    {
      slots := new Option<T>[CAPACITY](_ => None);
      head, tail, count, contents := 0, 0, 0, [];
    }

    /** Adds at the end, unless 32 messages are pending. */
    method Push(x: T) returns (ok: bool)
      requires Valid()
      modifies this, slots
      ensures Valid() && ok == (|old(contents)| < CAPACITY)
      ensures contents == if ok then old(contents) + [x] else old(contents)
    {
      assert |contents| == count;
      if count >= CAPACITY {
        return false;
      }
      Pushed(slots[..], head, count, contents, x);
      SlotStep(head, count);
      ghost var was := slots[..];
      slots[tail] := Some(x);
      assert slots[..] == was[tail := Some(x)];
      tail := (tail + 1) % CAPACITY;
      count := count + 1;
      contents := contents + [x];
      return true;
    }

    /** Removes the oldest message. */
    method Pop() returns (r: Option<T>)
      requires Valid()
      modifies this, slots
      ensures Valid()
      ensures if old(contents) == [] then r == None && contents == []
              else r == Some(old(contents)[0]) && contents == old(contents)[1..]
    {
      assert |contents| == count;
      if count == 0 {
        return None;
      }
      Popped(slots[..], head, count, contents);
      SlotStep(head, count - 1);
      ghost var was := slots[..];
      r := slots[head];
      slots[head] := None;
      assert slots[..] == was[head := None];
      head := (head + 1) % CAPACITY;
      count := count - 1;
      contents := contents[1..];
    }

    /** The oldest message, left in place. */
    method Peek() returns (r: Option<T>)
      requires Valid()
      ensures r == if contents == [] then None else Some(contents[0])
    {
      assert |contents| == count;
      if count == 0 {
        return None;
      }
      Popped(slots[..], head, count, contents);
      return slots[head];
    }
  }
}
