/** The audit log of the message bus: a chain of hashes kept in a ring of 512 entries. */
module BusAudit {
  import opened Wrappers

  const CAPACITY: nat := 512

  datatype Action = MessageSent | MessageRejected | SequenceViolation | QueueFull | PolicyViolation

  /** What an entry's hash covers, the hash of the entry before it included. */
  datatype Fact = Fact(number: nat, time: nat, actor: nat, action: Action, target: nat, msgType: nat, capability: nat,
                       msgSequence: nat, prev: nat)

  datatype Entry = Entry(fact: Fact, hash: nat)

  /** The hash function; nothing is assumed about it. */
  type Hash = Fact -> nat

  function LastHash(s: seq<Entry>): nat { if s == [] then 0 else s[|s| - 1].hash }

  /** Each hash is that of its entry, and each entry carries the hash of the one before. */
  ghost predicate ChainOk(h: Hash, s: seq<Entry>)
  {
    && (forall i {:trigger s[i]} :: 0 <= i < |s| ==> s[i].hash == h(s[i].fact))
    && (forall i {:trigger s[i].fact.prev} :: 0 < i < |s| ==> s[i].fact.prev == s[i - 1].hash)
  }

  function Append(h: Hash, s: seq<Entry>, time: nat, actor: nat, action: Action, target: nat, msgType: nat,
                  capability: nat, msgSequence: nat): seq<Entry>
  {
    var f := Fact(|s|, time, actor, action, target, msgType, capability, msgSequence, LastHash(s));
    s + [Entry(f, h(f))]
  }

  lemma AppendKeepsChain(h: Hash, s: seq<Entry>, time: nat, actor: nat, action: Action, target: nat, msgType: nat,
                         capability: nat, msgSequence: nat)
    requires ChainOk(h, s)
    ensures ChainOk(h, Append(h, s, time, actor, action, target, msgType, capability, msgSequence))
  {
    LinkedKeepsChain(h, s, Fact(|s|, time, actor, action, target, msgType, capability, msgSequence, LastHash(s)));
  }

  lemma LinkedKeepsChain(h: Hash, s: seq<Entry>, f: Fact)
    requires ChainOk(h, s) && f.prev == LastHash(s)
    ensures ChainOk(h, s + [Entry(f, h(f))])
  {
    var r := s + [Entry(f, h(f))];
    forall i | 0 < i < |r|
      ensures r[i].fact.prev == r[i - 1].hash
    {
      if i < |s| {
        assert r[i] == s[i] && s[i].fact.prev == s[i - 1].hash;
      }
    }
  }

  // ----- checking a chain

  /** The check of a ring: empty slots are skipped, the first entry's link is trusted. */
  ghost function Check(h: Hash, ring: seq<Option<Entry>>, prev: Option<nat>, n: nat): (nat, bool)
    decreases |ring|
  {
    if ring == [] then (n, true)
    else
      match ring[0]
      case None => Check(h, ring[1..], prev, n)
      case Some(e) =>
        if (prev.Some? && e.fact.prev != prev.value) || e.hash != h(e.fact) then (n, false)
        else Check(h, ring[1..], Some(e.hash), n + 1)
  }

  ghost function Full(s: seq<Entry>): seq<Option<Entry>> { seq(|s|, i requires 0 <= i < |s| => Some(s[i])) }

  /** The check accepts a full ring exactly when its hashes chain, and then counts every entry. */
  lemma {:induction false} CheckIff(h: Hash, s: seq<Entry>, prev: Option<nat>, n: nat)
    ensures Check(h, Full(s), prev, n).1 <==> ChainOk(h, s) && (prev.Some? && s != [] ==> s[0].fact.prev == prev.value)
    ensures Check(h, Full(s), prev, n).1 ==> Check(h, Full(s), prev, n).0 == n + |s|
    decreases |s|
  {
    if s != [] {
      assert Full(s)[1..] == Full(s[1..]) && Full(s)[0] == Some(s[0]);
      CheckIff(h, s[1..], Some(s[0].hash), n + 1);
    }
  }

  /** Any window on a chain is a chain. */
  lemma ChainWindow(h: Hash, s: seq<Entry>, from: nat)
    requires ChainOk(h, s) && from <= |s|
    ensures ChainOk(h, s[from..])
  {
    var t := s[from..];
    forall i | 0 < i < |t|
      ensures t[i].fact.prev == t[i - 1].hash
    {
      assert s[from + i].fact.prev == s[from + i - 1].hash;
    }
    forall i | 0 <= i < |t|
      ensures t[i].hash == h(t[i].fact)
    {
      assert t[i] == s[from + i];
    }
  }

  // ----- what tampering the check finds

  /** Two different facts with the same hash. */
  ghost predicate Collision(h: Hash) { exists f, g {:trigger h(f), h(g)} :: f != g && h(f) == h(g) }

  /** Two chains that agree in one hash agree in every entry up to it, unless the hash function has a collision. */
  lemma {:induction false} SameBelow(h: Hash, s: seq<Entry>, t: seq<Entry>, k: nat, i: nat)
    requires ChainOk(h, s) && ChainOk(h, t) && !Collision(h)
    requires i <= k < |s| && k < |t| && s[k].hash == t[k].hash
    ensures s[i] == t[i]
    decreases k - i
  {
    assert s[k].hash == h(s[k].fact) && t[k].hash == h(t[k].fact);
    assert s[k].fact == t[k].fact;
    if i < k {
      assert s[k].fact.prev == s[k - 1].hash && t[k].fact.prev == t[k - 1].hash;
      SameBelow(h, s, t, k - 1, i);
    }
  }

  /** Entries with other contents, linked and hashed again behind s. */
  function Rechained(h: Hash, s: seq<Entry>, facts: seq<Fact>): (r: seq<Entry>)
    ensures |r| == |s| + |facts|
    decreases |facts|
  {
    if facts == [] then s
    else
      var f := facts[0].(prev := LastHash(s));
      Rechained(h, s + [Entry(f, h(f))], facts[1..])
  }

  lemma {:induction false} RechainedIsChain(h: Hash, s: seq<Entry>, facts: seq<Fact>)
    requires ChainOk(h, s)
    ensures ChainOk(h, Rechained(h, s, facts))
    decreases |facts|
  {
    if facts != [] {
      var f := facts[0].(prev := LastHash(s));
      LinkedKeepsChain(h, s, f);
      RechainedIsChain(h, s + [Entry(f, h(f))], facts[1..]);
    }
  }

  /** The check does not compare the newest entry with the hash the log keeps for the next one: any rewritten end of a
      chain is accepted once it is linked and hashed again. */
  lemma RewrittenEndIsAccepted(h: Hash, s: seq<Entry>, k: nat, facts: seq<Fact>)
    requires ChainOk(h, s) && k <= |s| && |facts| == |s| - k
    ensures Check(h, Full(Rechained(h, s[..k], facts)), None, 0) == (|s|, true)
  {
    ChainFront(h, s, k);
    RechainedIsChain(h, s[..k], facts);
    CheckIff(h, Rechained(h, s[..k], facts), None, 0);
  }

  // ----- empty slots

  /** The entries of a ring, in order. */
  ghost function Present(ring: seq<Option<Entry>>): (s: seq<Entry>)
    ensures |s| <= |ring|
  {
    if ring == [] then []
    else (if ring[0].Some? then [ring[0].value] else []) + Present(ring[1..])
  }

  /** The check does not see empty slots. */
  lemma {:induction false} CheckSkips(h: Hash, ring: seq<Option<Entry>>, prev: Option<nat>, n: nat)
    ensures Check(h, ring, prev, n) == Check(h, Full(Present(ring)), prev, n)
    decreases |ring|
  {
    if ring != [] {
      var s, rest := Present(ring), ring[1..];
      match ring[0]
      case None =>
        assert s == Present(rest);
        CheckSkips(h, rest, prev, n);
      case Some(e) =>
        assert s[0] == e && s[1..] == Present(rest);
        assert Full(s)[0] == Some(e) && Full(s)[1..] == Full(Present(rest));
        CheckSkips(h, rest, Some(e.hash), n + 1);
    }
  }

  /** Any contents are accepted exactly when the hashes of the entries that are left chain; the count is their number.
      */
  lemma AcceptedIff(h: Hash, ring: seq<Option<Entry>>)
    ensures Check(h, ring, None, 0).1 <==> ChainOk(h, Present(ring))
    ensures Check(h, ring, None, 0).1 ==> Check(h, ring, None, 0).0 == |Present(ring)|
  {
    CheckSkips(h, ring, None, 0);
    CheckIff(h, Present(ring), None, 0);
  }

  ghost function Empty(n: nat): seq<Option<Entry>> { seq(n, _ => None) }

  /** The entries from i to j, and empty slots around them. */
  ghost function Emptied(s: seq<Entry>, i: nat, j: nat): seq<Option<Entry>>
    requires i <= j <= |s|
  {
    Empty(i) + Full(s[i..j]) + Empty(|s| - j)
  }

  lemma {:induction false} PresentConcat(a: seq<Option<Entry>>, b: seq<Option<Entry>>)
    ensures Present(a + b) == Present(a) + Present(b)
    decreases |a|
  {
    if a == [] {
      assert a + b == b;
    } else {
      var c, first := a + b, if a[0].Some? then [a[0].value] else [];
      assert c[0] == a[0] && c[1..] == a[1..] + b;
      PresentConcat(a[1..], b);
      assert Present(c) == first + (Present(a[1..]) + Present(b));
    }
  }

  lemma {:induction false} PresentEmpty(n: nat)
    ensures Present(Empty(n)) == []
    decreases n
  {
    if n > 0 {
      assert Empty(n)[1..] == Empty(n - 1);
      PresentEmpty(n - 1);
    }
  }

  lemma PresentInEmptied(s: seq<Entry>, i: nat, j: nat)
    requires i <= j <= |s|
    ensures Present(Emptied(s, i, j)) == s[i..j]
  {
    PresentConcat(Empty(i) + Full(s[i..j]), Empty(|s| - j));
    PresentConcat(Empty(i), Full(s[i..j]));
    PresentEmpty(i);
    PresentEmpty(|s| - j);
    FullPresent(s[i..j]);
  }

  /** Emptying slots at either end of a chain is not noticed, but for the count. */
  lemma EmptiedEndsAreAccepted(h: Hash, s: seq<Entry>, i: nat, j: nat)
    requires ChainOk(h, s) && i <= j <= |s|
    ensures Check(h, Emptied(s, i, j), None, 0) == (j - i, true)
  {
    PresentInEmptied(s, i, j);
    AcceptedIff(h, Emptied(s, i, j));
    assert s[i..j] == s[..j][i..];
    ChainFront(h, s, j);
    ChainWindow(h, s[..j], i);
  }

  lemma ChainFront(h: Hash, s: seq<Entry>, k: nat)
    requires ChainOk(h, s) && k <= |s|
    ensures ChainOk(h, s[..k])
  {
    var front := s[..k];
    forall i | 0 < i < |front|
      ensures front[i].fact.prev == front[i - 1].hash
    {
      assert s[i].fact.prev == s[i - 1].hash;
    }
  }

  lemma {:induction false} FullPresent(s: seq<Entry>)
    ensures Present(Full(s)) == s
    decreases |s|
  {
    if s != [] {
      assert Full(s)[1..] == Full(s[1..]);
      FullPresent(s[1..]);
    }
  }

  lemma {:induction false} AllPresent(ring: seq<Option<Entry>>)
    ensures |Present(ring)| == |ring| <==> ring == Full(Present(ring))
    decreases |ring|
  {
    if ring != [] {
      AllPresent(ring[1..]);
      if |Present(ring)| == |ring| {
        assert ring[1..] == Full(Present(ring[1..]));
        assert ring == [ring[0]] + ring[1..];
      }
    }
  }

  // ----- the ring

  function Oldest(total: nat): nat { if total <= CAPACITY then 0 else total - CAPACITY }

  /** Two positions of the window never share a slot. */
  lemma SlotsDiffer(i: nat, j: nat)
    requires i < j < i + CAPACITY
    ensures i % CAPACITY != j % CAPACITY
  {
  }

  /** The slots that hold entries, oldest first. */
  function RingOf(slots: seq<Option<Entry>>, total: nat): (r: seq<Option<Entry>>)
    requires |slots| == CAPACITY
    ensures |r| == Least(total, CAPACITY)
    ensures forall i {:trigger r[i]} :: 0 <= i < |r| ==> r[i] == slots[(Oldest(total) + i) % CAPACITY]
  {
    seq(Least(total, CAPACITY), i requires 0 <= i < Least(total, CAPACITY) => slots[(Oldest(total) + i) % CAPACITY])
  }

  /** The ring holds the last entries of a log. */
  ghost predicate Holds(slots: seq<Option<Entry>>, s: seq<Entry>)
  {
    |slots| == CAPACITY && forall i {:trigger s[i]} :: Oldest(|s|) <= i < |s| ==> slots[i % CAPACITY] == Some(s[i])
  }

  lemma Recorded(slots: seq<Option<Entry>>, s: seq<Entry>, e: Entry)
    requires Holds(slots, s)
    ensures Holds(slots[|s| % CAPACITY := Some(e)], s + [e])
  {
    var t := s + [e];
    forall i | Oldest(|t|) <= i < |t|
      ensures slots[|s| % CAPACITY := Some(e)][i % CAPACITY] == Some(t[i])
    {
      if i < |s| {
        SlotsDiffer(i, |s|);
        assert t[i] == s[i];
      }
    }
  }

  lemma SameWindow(h: Hash, s: seq<Entry>, from: nat, u: seq<Entry>, k: nat)
    requires ChainOk(h, s) && Check(h, Full(u), None, 0).1
    requires k < |u| && from + k < |s| && u[k].hash == s[from + k].hash
    ensures Collision(h) || forall i {:trigger u[i]} :: 0 <= i <= k ==> u[i] == s[from + i]
  {
    CheckIff(h, u, None, 0);
    ChainWindow(h, s, from);
    if !Collision(h) {
      forall i | 0 <= i <= k
        ensures u[i] == s[from + i]
      {
        SameBelow(h, s[from..], u, k, i);
      }
    }
  }

  class AuditLog {
    const hash: Hash
    const slots: array<Option<Entry>>
    var writePos: nat
    var total: nat
    var prev: nat
    /** Every entry ever appended. */
    ghost var history: seq<Entry>

    ghost predicate Shape()
      reads this
    {
      slots.Length == CAPACITY && writePos == total % CAPACITY
    }

    ghost predicate Valid()
      reads this, slots
    {
      && Shape() && total == |history| && prev == LastHash(history) && ChainOk(hash, history)
      && Holds(slots[..], history)
    }

    /** The slots in the order they are checked. */
    ghost function Ring(): seq<Option<Entry>>
      requires Shape()
      reads this, slots
    {
      RingOf(slots[..], total)
    }

    constructor (hash: Hash)
      ensures Valid() && this.hash == hash && history == [] && fresh(slots)
    {
      this.hash := hash;
      slots := new Option<Entry>[CAPACITY](_ => None);
      writePos, total, prev, history := 0, 0, 0, [];
    }

    method Record(time: nat, actor: nat, action: Action, target: nat, msgType: nat, capability: nat, msgSequence: nat)
      requires Valid()
      modifies this`writePos, this`total, this`prev, this`history, slots
      ensures Valid()
      ensures history == Append(hash, old(history), time, actor, action, target, msgType, capability, msgSequence)
    {
      AppendKeepsChain(hash, history, time, actor, action, target, msgType, capability, msgSequence);
      var f := Fact(total, time, actor, action, target, msgType, capability, msgSequence, prev);
      var e := Entry(f, hash(f));
      history := history + [e];
      prev := e.hash;
      slots[writePos] := Some(e);
      writePos := (writePos + 1) % CAPACITY;
      total := total + 1;
      assert slots[..] == old(slots[..])[old(writePos) := Some(e)];
      Recorded(old(slots[..]), old(history), e);
    }

    /** Checks the ring from its oldest entry on; works on any contents, also tampered ones. */
    method VerifyChain() returns (verified: nat, ok: bool)
      requires Shape()
      ensures (verified, ok) == Check(hash, Ring(), None, 0)
    {
      if total == 0 {
        return 0, true;
      }
      var n := Least(total, CAPACITY);
      var start := if total <= CAPACITY then 0 else writePos;
      verified := 0;
      var last: Option<nat> := None;
      ghost var ring := Ring();
      for i := 0 to n
        invariant Check(hash, ring[i..], last, verified) == Check(hash, ring, None, 0)
      {
        assert ring[i..][1..] == ring[i + 1..] && ring[i..][0] == ring[i];
        WrapStart(total, start, i);
        var slot := slots[(start + i) % CAPACITY];
        if slot.Some? {
          var e := slot.value;
          if last.Some? && e.fact.prev != last.value {
            return verified, false;
          }
          if e.hash != hash(e.fact) {
            return verified, false;
          }
          last := Some(e.hash);
          verified := verified + 1;
        }
      }
      return verified, true;
    }

    /** Without tampering the check accepts all entries the ring still holds, however often it has wrapped. */
    lemma Untampered()
      requires Valid()
      ensures Check(hash, Ring(), None, 0) == (Least(|history|, CAPACITY), true)
    {
      ChainWindow(hash, history, Oldest(total));
      RingIsWindow();
      CheckIff(hash, history[Oldest(total)..], None, 0);
    }

    /** Any contents of the slots that the check accepts, and whose last hash is the one the log keeps, are the newest
        entries of the log, as many as it counts; or the hash function has a collision. */
    lemma Newest(ring: seq<Option<Entry>>)
      requires Valid() && |ring| == Least(total, CAPACITY) && Check(hash, ring, None, 0).1
      requires LastHash(Present(ring)) == prev
      ensures var m := Check(hash, ring, None, 0).0;
        m <= total && (Collision(hash) || Present(ring) == history[total - m..])
    {
      AcceptedIff(hash, ring);
      var u := Present(ring);
      var s := history[total - |u|..];
      ChainWindow(hash, history, total - |u|);
      if !Collision(hash) {
        forall i | 0 <= i < |u|
          ensures s[i] == u[i]
        {
          SameBelow(hash, s, u, |u| - 1, i);
        }
      }
    }

    /** Without collisions: contents are accepted in full, with the last hash the log keeps, exactly when they are the
        log's own. */
    lemma WholeIff(ring: seq<Option<Entry>>)
      requires Valid() && |ring| == Least(total, CAPACITY) && !Collision(hash)
      ensures Check(hash, ring, None, 0) == (|ring|, true) && LastHash(Present(ring)) == prev <==> ring == Ring()
    {
      var s := history[Oldest(total)..];
      RingIsWindow();
      AcceptedIff(hash, ring);
      AllPresent(ring);
      FullPresent(s);
      if Check(hash, ring, None, 0) == (|ring|, true) && LastHash(Present(ring)) == prev {
        Newest(ring);
      }
      if ring == Ring() {
        Untampered();
      }
    }

    lemma RingIsWindow()
      requires Valid()
      ensures Ring() == Full(history[Oldest(total)..])
    {
      var s := history[Oldest(total)..];
      forall i | 0 <= i < |s|
        ensures Ring()[i] == Some(s[i])
      {
        assert s[i] == history[Oldest(total) + i];
      }
    }

    /** Contents that the check accepts and that agree with the log in one hash agree with it up to there, or the hash
        function has a collision. */
    lemma Detected(u: seq<Entry>, k: nat)
      requires Valid() && k < |u| == Least(total, CAPACITY) && Check(hash, Full(u), None, 0).1
      requires u[k].hash == history[Oldest(total) + k].hash
      ensures Collision(hash) || forall i {:trigger u[i]} :: 0 <= i <= k ==> u[i] == history[Oldest(total) + i]
    {
      SameWindow(hash, history, Oldest(total), u, k);
    }
  }

  lemma WrapStart(total: nat, start: nat, i: nat)
    requires start == if total <= CAPACITY then 0 else total % CAPACITY
    ensures (start + i) % CAPACITY == (Oldest(total) + i) % CAPACITY
  {
  }
}
