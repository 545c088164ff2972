/** Whole runs of the frame allocator: grants and returns in any order. */
module BuddyRuns {
  import opened Bits
  import opened Wrappers
  import opened BuddyBlocks
  import opened BuddyAllocator

  /** A granted block: its first frame and its order. */
  datatype Grant = Grant(frame: int, order: nat)

  /** Free frames, and the blocks granted and not yet returned. */
  datatype State = State(free: set<int>, live: seq<Grant>)

  ghost function Frames(g: Grant): set<int> { Block(g.frame, g.order) }

  ghost function Sizes(live: seq<Grant>): nat
  {
    if live == [] then 0 else Sizes(live[..|live| - 1]) + Pow2(live[|live| - 1].order)
  }

  function Drop(live: seq<Grant>, i: nat): seq<Grant>
    requires i < |live|
  {
    live[..i] + live[i + 1..]
  }

  /** A call of allocate that succeeds. */
  ghost predicate Grants(s: State, s': State, g: Grant)
  {
    Granted(s.free, s'.free, g.frame, g.order) && s'.live == s.live + [g]
  }

  /** A call of deallocate with a live block at its own order. */
  ghost predicate Returns(s: State, s': State, i: int)
  {
    0 <= i < |s.live| && s'.free == s.free + Frames(s.live[i]) && s'.live == Drop(s.live, i)
  }

  ghost predicate Step(s: State, s': State)
  {
    (exists g :: Grants(s, s', g)) || (exists i :: Returns(s, s', i))
  }

  ghost predicate Run(trace: seq<State>, usable: set<int>)
  {
    && trace != [] && trace[0] == State(usable, [])
    && forall i :: 0 < i < |trace| ==> Step(trace[i - 1], trace[i])
  }

  // ----- what every run keeps

  ghost predicate GrantOk(s: State, usable: set<int>, g: Grant)
  {
    && g.frame >= 0 && g.order <= MAX_ORDER && Aligned(g.frame, g.order)
    && (forall x :: x in Frames(g) ==> x in usable && x !in s.free)
  }

  /** Live blocks are aligned, lie in usable memory, overlap neither each other nor the free frames,
      and together with the free frames make up all usable memory. */
  ghost predicate Accounted(s: State, usable: set<int>)
  {
    && s.free <= usable
    && (forall i :: 0 <= i < |s.live| ==> GrantOk(s, usable, s.live[i]))
    && PairwiseApart(s.live)
    && |s.free| + Sizes(s.live) == |usable|
  }

  lemma {:induction false} SizesDrop(live: seq<Grant>, i: nat)
    requires i < |live|
    ensures Sizes(live) == Sizes(Drop(live, i)) + Pow2(live[i].order)
    decreases |live|
  {
    var n := |live| - 1;
    if i == n {
      assert Drop(live, i) == live[..n];
    } else {
      SizesDrop(live[..n], i);
      assert Drop(live, i)[..n - 1] == Drop(live[..n], i);
    }
  }

  lemma AllocateKeepsAccounts(s: State, s': State, usable: set<int>, g: Grant)
    requires Accounted(s, usable) && Grants(s, s', g)
    ensures Accounted(s', usable)
  {
    assert s'.live[..|s.live|] == s.live;
    BlockTaken(s.free, g.frame, g.order);
    assert Frames(g) <= s.free;
    forall i | 0 <= i < |s'.live| ensures GrantOk(s', usable, s'.live[i]) {
      if i < |s.live| {
        assert GrantOk(s, usable, s.live[i]);
      }
    }
    forall i, j | 0 <= i < j < |s'.live| ensures Frames(s'.live[i]) !! Frames(s'.live[j]) {
      assert GrantOk(s, usable, s.live[i]);
    }
  }

  ghost predicate PairwiseApart(live: seq<Grant>)
  {
    forall i, j :: 0 <= i < j < |live| ==> Frames(live[i]) !! Frames(live[j])
  }

  lemma DeallocateKeepsAccounts(s: State, s': State, usable: set<int>, i: nat)
    requires Accounted(s, usable) && Returns(s, s', i)
    ensures Accounted(s', usable)
  {
    assert GrantOk(s, usable, s.live[i]);
    BlockGiven(s.free, s.live[i].frame, s.live[i].order);
    SizesDrop(s.live, i);
    forall k | 0 <= k < |s'.live| ensures GrantOk(s', usable, s'.live[k]) {
      var g := s'.live[k];
      assert g in s.live && GrantOk(s, usable, g);
    }
  }

  lemma StepKeepsAccounts(s: State, s': State, usable: set<int>)
    requires Accounted(s, usable) && Step(s, s')
    ensures Accounted(s', usable)
  {
    if g :| Grants(s, s', g) {
      AllocateKeepsAccounts(s, s', usable, g);
    } else {
      var i :| Returns(s, s', i);
      DeallocateKeepsAccounts(s, s', usable, i);
    }
  }

  /** In every run live allocations never overlap, and free frames plus live sizes equal the total. */
  lemma {:induction false} EveryRunAccounted(trace: seq<State>, usable: set<int>, n: nat)
    requires Run(trace, usable) && n < |trace|
    ensures Accounted(trace[n], usable)
    decreases n
  {
    if n == 0 {
      assert trace[0].live == [];
    } else {
      EveryRunAccounted(trace, usable, n - 1);
      StepKeepsAccounts(trace[n - 1], trace[n], usable);
    }
  }

  /** Once everything is returned, in whatever order, the free frames and hence the blocks on the free
      lists are those of the start. */
  lemma ReturningEverythingRestores(trace: seq<State>, usable: set<int>, n: nat, start: seq<seq<int>>,
                                    end: seq<seq<int>>)
    requires Run(trace, usable) && n < |trace| && trace[n].live == []
    requires Tracks(start, trace[0].free) && Tracks(end, trace[n].free)
    ensures trace[n].free == usable
    ensures forall g, o :: Listed(start, g, o) <==> Listed(end, g, o)
  {
    EveryRunAccounted(trace, usable, n);
    SameSizeSubset(trace[n].free, usable);
    forall g, o ensures Listed(start, g, o) <==> Listed(end, g, o) {
      assert Listed(start, g, o) <==> Maximal(usable, g, o);
    }
  }

  lemma SameSizeSubset(a: set<int>, b: set<int>)
    requires a <= b && |a| == |b|
    ensures a == b
  {
    assert b == a + (b - a);
  }

  /** No two buddies below the top order are both listed. */
  lemma NoListedBuddies(lists: seq<seq<int>>, f: set<int>, g: int, o: nat)
    requires Tracks(lists, f) && o < MAX_ORDER && Listed(lists, g, o)
    ensures !Listed(lists, Buddy(g, o), o)
  {
    assert Maximal(f, g, o);
    ParentIsBothHalves(f, g, o);
    assert Listed(lists, Buddy(g, o), o) <==> Maximal(f, Buddy(g, o), o);
  }

  // ----- the object follows the runs

  datatype Op = Allocate(order: nat) | Free(index: nat)

  /** Any client that returns only what it was granted: the object stays valid and accounted for. */
  method Drive(a: BuddyAllocator, ops: seq<Op>) returns (live: seq<Grant>)
    requires a.Valid()
    modifies a, a.heads, a.next, a.bitmap
    ensures a.Valid() && Accounted(State(a.free, live), old(a.free))
    ensures a.freeFrames + Sizes(live) == |old(a.free)|
  {
    live := [];
    ghost var usable := a.free;
    for n := 0 to |ops|
      invariant a.Valid() && Accounted(State(a.free, live), usable)
    {
      live := Serve(a, ops[n], live, usable);
    }
  }

  ghost predicate Addressable(usable: set<int>)
  {
    forall x :: x in usable ==> 0 < x < MAX_FRAMES
  }

  lemma GrantAddressable(s: State, usable: set<int>, g: Grant)
    requires GrantOk(s, usable, g) && Addressable(usable)
    ensures 0 < g.frame && g.frame + Pow2(g.order) <= MAX_FRAMES
  {
    assert g.frame in Frames(g);
    assert g.frame + Pow2(g.order) - 1 in Frames(g);
  }

  method Serve(a: BuddyAllocator, op: Op, live: seq<Grant>, ghost usable: set<int>) returns (live': seq<Grant>)
    requires a.Valid() && Accounted(State(a.free, live), usable) && Addressable(usable)
    modifies a, a.heads, a.next, a.bitmap
    ensures a.Valid() && Accounted(State(a.free, live'), usable)
  {
    ghost var s := State(a.free, live);
    live' := live;
    match op {
      case Allocate(order) =>
        var r := a.Allocate(order);
        if r.Some? {
          var g := Grant(r.value / PAGE_SIZE, order);
          live' := live + [g];
          AllocateKeepsAccounts(s, State(a.free, live'), usable, g);
        }
      case Free(index) =>
        if index < |live| {
          live' := GiveBack(a, live, index, usable);
        }
    }
  }

  method GiveBack(a: BuddyAllocator, live: seq<Grant>, index: nat, ghost usable: set<int>) returns (live': seq<Grant>)
    requires a.Valid() && Accounted(State(a.free, live), usable) && Addressable(usable) && index < |live|
    modifies a, a.heads, a.next, a.bitmap
    ensures a.Valid() && Accounted(State(a.free, live'), usable)
  {
    ghost var s := State(a.free, live);
    var g := live[index];
    live' := Drop(live, index);
    assert GrantOk(s, usable, g);
    GrantAddressable(s, usable, g);
    PageRoundTrip(g.frame);
    a.Deallocate(g.frame * PAGE_SIZE, g.order);
    DeallocateKeepsAccounts(s, State(a.free, live'), usable, index);
  }
}
