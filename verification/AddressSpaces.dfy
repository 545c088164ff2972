/** What mapping, unmapping and destroying an address space amount to, and the address space itself. */
module AddressSpaces {
  import opened Wrappers
  import opened PageTables

  // ----- the flat map

  /** What a map amounts to on the flat map: the page is added if it was free, and otherwise nothing changes; running
      out of frames changes nothing either. */
  ghost predicate MapsFlat(r: Space, result: Result<(), Error>, m: map<Path, Entry>, p: Path, e: Entry)
  {
    && (p in m ==> result == Err(AlreadyMapped))
    && (p !in m ==> result == Ok(()) || (result == Err(AllocationFailed) && r.pool == []))
    && Flat(r, if result.Ok? then m[p := e] else m)
  }

  lemma PagesAfterMap(s: Space, p: Path, e: Entry, r: Space, ok: bool)
    requires Tree(s, HALF) && |p| == 4 && Within(p, HALF) && e.present
    requires r == MapPath(s, p, e).0 && ok == MapPath(s, p, e).1.Ok?
    ensures forall q {:trigger Lookup(r, q)} :: |q| == 4 && Within(q, HALF) ==>
      Lookup(r, q) == if ok && q == p then Some(e) else Lookup(s, q)
  {
    forall q: Path | |q| == 4 && Within(q, HALF)
      ensures Lookup(r, q) == if ok && q == p then Some(e) else Lookup(s, q)
    {
      MapChangesOnePage(HALF, s, p, e, q);
    }
  }

  lemma MapRefines(s: Space, m: map<Path, Entry>, p: Path, e: Entry)
    requires Tree(s, HALF) && Flat(s, m) && |p| == 4 && Within(p, HALF) && e.present
    ensures Tree(MapPath(s, p, e).0, HALF) && MapsFlat(MapPath(s, p, e).0, MapPath(s, p, e).1, m, p, e)
  {
    var (r, result) := MapPath(s, p, e);
    assert Lookup(s, p) == if p in m then Some(m[p]) else None;
    MapChangesOnePage(HALF, s, p, e, p);
    PagesAfterMap(s, p, e, r, result.Ok?);
  }

  /** Unmapping removes exactly that page from the flat map and returns its frame; an unmapped page is an error. */
  lemma UnmapRefines(s: Space, m: map<Path, Entry>, p: Path)
    requires Tree(s, HALF) && Flat(s, m) && |p| == 4 && Within(p, HALF)
    ensures var (r, result) := UnmapPath(s, p);
      if p in m then Tree(r, HALF) && result == Ok(m[p].frame) && Flat(r, m - {p})
      else r == s && result == Err(NotMapped)
  {
    assert Lookup(s, p) == if p in m then Some(m[p]) else None;
    if p in m {
      var r := UnmapPath(s, p).0;
      assert |m - {p}| == |m| - 1 by { assert (m - {p}).Keys == m.Keys - {p}; }
      UnmapChangesOnePage(HALF, s, p, p);
      forall q: Path | |q| == 4 && Within(q, HALF)
        ensures Lookup(r, q) == if q == p then None else Lookup(s, q)
      {
        UnmapChangesOnePage(HALF, s, p, q);
      }
    }
  }

  // ----- what is written

  /** The frames of the tables under the first `top` entries of the root. */
  ghost predicate IsTable(s: Space, top: nat, f: Frame)
  {
    exists p :: Short(p, top) && TableAt(s, p) == Some(f)
  }

  /** A frame that belongs to someone else: not one of those tables, and not free. */
  ghost predicate Foreign(s: Space, top: nat, f: Frame) { f in s.mem && !IsTable(s, top, f) && f !in s.pool }

  lemma IsTableAt(top: nat, s: Space, p: Path, f: Frame)
    requires Short(p, top) && TableAt(s, p) == Some(f)
    ensures IsTable(s, top, f)
  {
  }

  lemma NextSparesForeign(top: nat, s: Space, p: Path, f: Frame, i: nat, x: Frame)
    requires Tree(s, top) && Short(p, top) && Short(p + [i], top) && TableAt(s, p) == Some(f) && Foreign(s, top, x)
    ensures var r := NextOrCreate(s, f, i).0; Foreign(r, top, x) && r.mem[x] == s.mem[x]
  {
    NextKeeps(top, s, p, f, i);
    var r := NextOrCreate(s, f, i).0;
    IsTableAt(top, s, p, f);
    if r != s && IsTable(r, top, x) {
      var q :| Short(q, top) && TableAt(r, q) == Some(x);
      TableAfterGrow(top, s, p, f, i, q);
      if q != p + [i] {
        IsTableAt(top, s, q, x);
      }
    }
  }

  lemma {:induction false} DescendSparesForeign(top: nat, s: Space, p: Path, n: nat, x: Frame)
    requires Tree(s, top) && n <= |p| && n <= 3 && Within(p, top) && Foreign(s, top, x)
    ensures var r := Descend(s, p, n).0; Foreign(r, top, x) && r.mem[x] == s.mem[x]
    decreases n
  {
    if n > 0 {
      DescendSparesForeign(top, s, p, n - 1, x);
      DescendKeeps(top, s, p, n - 1);
      var (r, f) := Descend(s, p, n - 1);
      if f.Some? {
        PathStep(top, p, n - 1);
        NextSparesForeign(top, r, p[..n - 1], f.value, p[n - 1], x);
      }
    }
  }

  /** Mapping a page writes to no frame but the tables on that side and new ones. */
  lemma MapSparesForeign(top: nat, s: Space, p: Path, e: Entry, x: Frame)
    requires Tree(s, top) && |p| == 4 && Within(p, top) && Foreign(s, top, x)
    ensures x in MapPath(s, p, e).0.mem && MapPath(s, p, e).0.mem[x] == s.mem[x]
  {
    DescendSparesForeign(top, s, p, 3, x);
    DescendKeeps(top, s, p, 3);
    var (r, f) := Descend(s, p, 3);
    LeafIsWhole(top, r, f, p);
    if f.Some? {
      IsTableAt(top, r, p[..3], f.value);
    }
  }

  // ----- the kernel's half

  predicate RootIsWhole(s: Space) { s.root in s.mem && |s.mem[s.root]| == 512 }

  /** The kernel's half of the root table. */
  function Upper(s: Space): seq<Entry>
    requires RootIsWhole(s)
  {
    s.mem[s.root][HALF..]
  }

  lemma TreeHasRoot(top: nat, s: Space)
    requires Tree(s, top)
    ensures RootIsWhole(s)
  {
    assert TableAt(s, []) == Some(s.root) && Short([], top);
  }

  lemma NextKeepsUpper(s: Space, p: Path, f: Frame, i: nat)
    requires Tree(s, HALF) && Short(p, HALF) && Short(p + [i], HALF) && TableAt(s, p) == Some(f) && RootIsWhole(s)
    ensures var r := NextOrCreate(s, f, i).0; RootIsWhole(r) && Upper(r) == Upper(s)
  {
    NextKeeps(HALF, s, p, f, i);
    assert TableAt(s, []) == Some(s.root) && Short([], HALF);
    assert i == (p + [i])[|p|] && (f == s.root ==> p == []);
  }

  lemma {:induction false} DescendKeepsUpper(s: Space, p: Path, n: nat)
    requires Tree(s, HALF) && n <= |p| && n <= 3 && Within(p, HALF) && RootIsWhole(s)
    ensures var r := Descend(s, p, n).0; RootIsWhole(r) && Upper(r) == Upper(s)
    decreases n
  {
    if n > 0 {
      DescendKeepsUpper(s, p, n - 1);
      DescendKeeps(HALF, s, p, n - 1);
      var (r, f) := Descend(s, p, n - 1);
      if f.Some? {
        PathStep(HALF, p, n - 1);
        NextKeepsUpper(r, p[..n - 1], f.value, p[n - 1]);
      }
    }
  }

  /** Mapping a page of the lower half leaves the kernel's half of the root table alone. */
  lemma MapKeepsUpper(s: Space, p: Path, e: Entry)
    requires Tree(s, HALF) && |p| == 4 && Within(p, HALF) && RootIsWhole(s)
    ensures var r := MapPath(s, p, e).0; RootIsWhole(r) && Upper(r) == Upper(s)
  {
    DescendKeepsUpper(s, p, 3);
    DescendKeeps(HALF, s, p, 3);
    var (r, f) := Descend(s, p, 3);
    if f.Some? {
      LastIsNotRoot(HALF, r, p, f.value);
    }
  }

  lemma LastIsNotRoot(top: nat, s: Space, p: Path, f: Frame)
    requires Tree(s, top) && |p| == 4 && Within(p, top) && TableAt(s, p[..3]) == Some(f)
    ensures f != s.root && f in s.mem && |s.mem[f]| == 512
  {
    assert TableAt(s, []) == Some(s.root) && Short([], top) && Short(p[..3], top);
  }

  /** f is the table at a path through the kernel's half of the root. */
  ghost predicate KernelTable(s: Space, q: Path, f: Frame)
  {
    Short(q, WHOLE) && q != [] && q[0] >= HALF && TableAt(s, q) == Some(f)
  }

  /** The kernel's half of the root and every table below it are unchanged. */
  ghost predicate KernelKept(s: Space, r: Space)
  {
    && RootIsWhole(s) && RootIsWhole(r) && r.root == s.root && Upper(r) == Upper(s)
    && (forall q, f {:trigger KernelTable(s, q, f)} :: KernelTable(s, q, f) ==>
          f in s.mem && f in r.mem && r.mem[f] == s.mem[f])
  }

  lemma {:induction false} KernelTablesKept(s: Space, r: Space, q: Path)
    requires KernelKept(s, r) && Short(q, WHOLE) && q != [] && q[0] >= HALF
    ensures TableAt(r, q) == TableAt(s, q)
    decreases |q|
  {
    var init := q[..|q| - 1];
    if |q| == 1 {
      assert init == [] && q[0] == HALF + (q[0] - HALF);
      assert s.mem[s.root][q[0]] == Upper(s)[q[0] - HALF] && r.mem[r.root][q[0]] == Upper(r)[q[0] - HALF];
    } else {
      ShortInit(WHOLE, q);
      KernelTablesKept(s, r, init);
      if TableAt(s, init).Some? {
        assert KernelTable(s, init, TableAt(s, init).value);
      }
    }
  }

  lemma KernelKeptTrans(s: Space, r: Space, t: Space)
    requires KernelKept(s, r) && KernelKept(r, t)
    ensures KernelKept(s, t)
  {
    forall q, f | KernelTable(s, q, f)
      ensures f in s.mem && f in t.mem && t.mem[f] == s.mem[f]
    {
      KernelTablesKept(s, r, q);
      assert KernelTable(r, q, f);
    }
  }

  lemma KernelKeptSame(s: Space)
    requires Tree(s, WHOLE)
    ensures KernelKept(s, s)
  {
    TreeHasRoot(WHOLE, s);
  }

  lemma LowerMapKeepsKernel(s: Space, p: Path, e: Entry)
    requires Tree(s, WHOLE) && |p| == 4 && Within(p, HALF)
    ensures KernelKept(s, MapPath(s, p, e).0)
  {
    TreeHasRoot(HALF, s);
    MapKeepsUpper(s, p, e);
    DescendKeeps(HALF, s, p, 3);
    forall q, f | KernelTable(s, q, f)
      ensures f in s.mem && f in MapPath(s, p, e).0.mem && MapPath(s, p, e).0.mem[f] == s.mem[f]
    {
      MapSparesForeign(HALF, s, p, e, f);
    }
  }

  lemma {:induction false} NoFramesNoTables(s: Space, p: Path, n: nat)
    requires s.pool == [] && n <= |p|
    ensures Descend(s, p, n).0 == s
    decreases n
  {
    if n > 0 {
      NoFramesNoTables(s, p, n - 1);
    }
  }

  /** With a frame left, a walk along a path whose table is missing leaves a table where there was none. */
  lemma {:induction false} WalkAdds(s: Space, p: Path, n: nat) returns (k: nat)
    requires Tree(s, WHOLE) && n <= |p| && n <= 3 && Within(p, WHOLE) && s.pool != [] && TableAt(s, p[..n]) == None
    ensures 1 <= k <= n && TableAt(s, p[..k]) == None && TableAt(Descend(s, p, n).0, p[..k]).Some?
    decreases n
  {
    PathStep(WHOLE, p, n - 1);
    assert p[..n][..n - 1] == p[..n - 1];
    DescendKeeps(WHOLE, s, p, n - 1);
    var (r, f) := Descend(s, p, n - 1);
    if TableAt(s, p[..n - 1]) == None {
      k := WalkAdds(s, p, n - 1);
      if f.Some? {
        NextKeepsTable(r, p, n - 1, f.value, k);
      }
    } else {
      DescendExisting(WHOLE, s, p, n - 1);
      NextKeeps(WHOLE, s, p[..n - 1], f.value, p[n - 1]);
      k := n;
    }
  }

  lemma NextKeepsTable(s: Space, p: Path, n: nat, f: Frame, k: nat)
    requires Tree(s, WHOLE) && n < |p| && n < 3 && Within(p, WHOLE) && TableAt(s, p[..n]) == Some(f) && k <= n
    requires TableAt(s, p[..k]).Some?
    ensures TableAt(NextOrCreate(s, f, p[n]).0, p[..k]).Some?
  {
    PathStep(WHOLE, p, n);
    PathStep(WHOLE, p, k);
    NextKeeps(WHOLE, s, p[..n], f, p[n]);
    if !s.mem[f][p[n]].present && s.pool != [] {
      TableAfterGrow(WHOLE, s, p[..n], f, p[n], p[..k]);
    }
  }

  /** Setting the last entry moves no table. */
  lemma FinishKeepsTables(top: nat, s: Space, f: Option<Frame>, p: Path, e: Entry, q: Path)
    requires Tree(s, top) && |p| == 4 && Within(p, top) && (f.Some? ==> TableAt(s, p[..3]) == f) && Short(q, top)
    ensures TableAt(FinishMap(s, f, p, e).0, q) == TableAt(s, q)
  {
    LeafIsWhole(top, s, f, p);
    if f.Some? && !s.mem[f.value][p[3]].present {
      assert Short(p[..3], top);
      TableAfterLeaf(top, s, p[..3], f.value, p[3], e, q);
      SameTable(SetEntry(s, f.value, p[3], e), FinishMap(s, f, p, e).0, q);
    }
  }

  /** A map through the upper half that has a frame for a missing table changes the kernel's half. */
  lemma MissingTableIsAdded(s: Space, p: Path, e: Entry)
    requires Tree(s, WHOLE) && |p| == 4 && Within(p, WHOLE) && p[0] >= HALF
    requires s.pool != [] && TableAt(s, p[..3]) == None
    ensures !KernelKept(s, MapPath(s, p, e).0)
  {
    var k := WalkAdds(s, p, 3);
    DescendKeeps(WHOLE, s, p, 3);
    PathStep(WHOLE, p, k - 1);
    var (d, f) := Descend(s, p, 3);
    FinishKeepsTables(WHOLE, d, f, p, e, p[..k]);
    if KernelKept(s, MapPath(s, p, e).0) {
      KernelTablesKept(s, MapPath(s, p, e).0, p[..k]);
    }
  }

  /** A map through the upper half that finds the last table and a free entry in it changes the kernel's half. */
  lemma FreeEntryIsSet(s: Space, p: Path, e: Entry)
    requires Tree(s, WHOLE) && |p| == 4 && Within(p, WHOLE) && p[0] >= HALF && e.present
    requires TableAt(s, p[..3]).Some? && Lookup(s, p) == None
    ensures !KernelKept(s, MapPath(s, p, e).0)
  {
    var f := TableAt(s, p[..3]);
    DescendExisting(WHOLE, s, p, 3);
    LeafIsWhole(WHOLE, s, f, p);
    assert KernelTable(s, p[..3], f.value);
    assert MapPath(s, p, e).0.mem[f.value][p[3]] == e;
  }

  /** Whether a map that passes the check on the address keeps the kernel's half: exactly when the address indexes the
      lower half of the root, or the map is refused before it writes. An address below the kernel's start can index the
      upper half. */
  lemma KernelHalfKeptIff(s: Space, v: nat, e: Entry)
    requires Tree(s, WHOLE) && v < KERNEL_START && e.present
    ensures |PathOf(v)| == 4
    ensures KernelKept(s, MapPath(s, PathOf(v), e).0)
        <==> Pml4Index(v) < HALF || Lookup(s, PathOf(v)).Some? || (s.pool == [] && TableAt(s, PathOf(v)[..3]) == None)
  {
    var p := PathOf(v);
    PathPage(v);
    if Pml4Index(v) < HALF {
      LowerMapKeepsKernel(s, p, e);
    } else if TableAt(s, p[..3]) == None {
      if s.pool == [] {
        NoFramesNoTables(s, p, 3);
        DescendKeeps(WHOLE, s, p, 3);
        KernelKeptSame(s);
      } else {
        MissingTableIsAdded(s, p, e);
      }
    } else if Lookup(s, p).Some? {
      MapChangesOnePage(WHOLE, s, p, e, p);
      KernelKeptSame(s);
    } else {
      FreeEntryIsSet(s, p, e);
    }
  }

  /** A map at any address below the kernel's start that succeeds changes one page; it is the page of that address
      exactly in the lower half. */
  lemma MapsOwnPageIff(s: Space, v: nat, e: Entry, q: Path)
    requires Tree(s, WHOLE) && v < KERNEL_START && e.present && |q| == 4 && Within(q, WHOLE)
    requires |PathOf(v)| == 4 && MapPath(s, PathOf(v), e).1.Ok?
    ensures Lookup(MapPath(s, PathOf(v), e).0, q) != Lookup(s, q) <==> q == PathOf(v)
    ensures PageAt(PathOf(v)) == v / 0x1000 * 0x1000 <==> v < 0x8000_0000_0000
  {
    PathPage(v);
    MapChangesOnePage(WHOLE, s, PathOf(v), e, q);
    MapChangesOnePage(WHOLE, s, PathOf(v), e, PathOf(v));
  }

  lemma LowerUnmapKeepsKernel(s: Space, p: Path)
    requires Tree(s, WHOLE) && |p| == 4 && Within(p, HALF)
    ensures KernelKept(s, UnmapPath(s, p).0)
  {
    KernelKeptSame(s);
    if Lookup(s, p).Some? {
      var f := TableAt(s, p[..3]).value;
      LastIsNotRoot(WHOLE, s, p, f);
      forall q, g | KernelTable(s, q, g)
        ensures g != f
      {
        assert Short(p[..3], WHOLE) && q[0] != p[..3][0];
      }
    }
  }

  /** An unmap keeps the kernel's half exactly when the address indexes the lower half of the root, or nothing is mapped
      there. */
  lemma UnmapKeepsKernelIff(s: Space, v: nat)
    requires Tree(s, WHOLE) && v < KERNEL_START
    ensures |PathOf(v)| == 4
    ensures KernelKept(s, UnmapPath(s, PathOf(v)).0) <==> Pml4Index(v) < HALF || Lookup(s, PathOf(v)) == None
  {
    var p := PathOf(v);
    PathPage(v);
    if Pml4Index(v) < HALF {
      LowerUnmapKeepsKernel(s, p);
    } else if Lookup(s, p).Some? {
      assert KernelTable(s, p[..3], TableAt(s, p[..3]).value);
    } else {
      KernelKeptSame(s);
    }
  }

  /** A root whose entry 256 leads to a table of the kernel and whose other entries are absent, with two free frames. */
  ghost predicate Shared(s: Space)
  {
    && s.root == 1 && s.pool == [3, 4] && s.mem.Keys == {1, 2} && s.mem[2] == Blank()
    && s.mem[1] == Blank()[HALF := Entry(true, 2, TABLE_FLAGS)]
  }

  lemma {:induction false} SharedTable(s: Space, q: Path)
    requires Shared(s) && Short(q, WHOLE)
    ensures TableAt(s, q) == if q == [] then Some(1) else if q == [HALF] then Some(2) else None
    decreases |q|
  {
    if q != [] {
      var init, i := q[..|q| - 1], q[|q| - 1];
      assert q == init + [i];
      ShortInit(WHOLE, q);
      SharedTable(s, init);
      assert !s.mem[2][i].present && (s.mem[1][i].present <==> i == HALF);
    }
  }

  lemma SharedWritten(s: Space, e: Entry)
    requires Shared(s)
    ensures var (r, result) := MapPath(s, PathOf(0x8000_0000_0000), e);
      result.Ok? && 2 in r.mem && r.mem[2] != s.mem[2]
  {
    var p := PathOf(0x8000_0000_0000);
    assert p == [HALF, 0, 0, 0];
    var s1 := Grow(s, 2, 0);
    assert Descend(s, p, 1) == (s, Some(2));
    assert Descend(s, p, 2) == (s1, Some(3));
    assert s1.mem[2][0].present && s1.mem[3] == Blank() && s1.pool == [4];
    var s2 := Grow(s1, 3, 0);
    assert Descend(s, p, 3) == (s2, Some(4));
    assert s2.mem[2][0].present && s2.mem[4] == Blank();
    assert !s.mem[2][0].present;
  }

  /** The address 0x8000_0000_0000 passes the check, and a map at it can write into a table of the kernel. */
  lemma KernelTableWritten(e: Entry) returns (s: Space)
    ensures Tree(s, WHOLE) && 0x8000_0000_0000 < KERNEL_START && KernelTable(s, [HALF], 2)
    ensures var (r, result) := MapPath(s, PathOf(0x8000_0000_0000), e);
      result.Ok? && 2 in r.mem && r.mem[2] != s.mem[2]
  {
    s := Space(map[1 := Blank()[HALF := Entry(true, 2, TABLE_FLAGS)], 2 := Blank()], 1, [3, 4], 0);
    forall q: Path | Short(q, WHOLE)
      ensures TableAt(s, q) == if q == [] then Some(1) else if q == [HALF] then Some(2) else None
    {
      SharedTable(s, q);
    }
    SharedWritten(s, e);
  }

  // ----- destroying

  function Width(p: Path): nat { if p == [] then 256 else 512 }

  /** The tables below the first n entries of the table at p, each one after those below it. */
  ghost function Below(s: Space, p: Path, n: nat): seq<Frame>
    requires |p| < 3
    decreases 3 - |p|, n
  {
    if n == 0 then []
    else Below(s, p, n - 1) + From(s, p + [n - 1])
  }

  /** The table at p and all below it, in the order they are freed. */
  ghost function From(s: Space, p: Path): seq<Frame>
    requires |p| <= 3
    decreases 3 - |p|, 512 + 1
  {
    match TableAt(s, p)
    case None => []
    case Some(f) => (if |p| == 3 then [] else Below(s, p, Width(p))) + [f]
  }

  ghost predicate IsAt(s: Space, q: Path, f: Frame) { Short(q, HALF) && TableAt(s, q) == Some(f) }

  /** f is the table at p or one below it. */
  ghost predicate Under(s: Space, p: Path, f: Frame)
  {
    exists q {:trigger IsAt(s, q, f)} :: IsAt(s, q, f) && Prefix(p, q)
  }

  /** f is a table below one of the first n entries of the table at p. */
  ghost predicate UnderFirst(s: Space, p: Path, n: nat, f: Frame)
  {
    exists q {:trigger IsAt(s, q, f)} :: IsAt(s, q, f) && Prefix(p, q) && |q| > |p| && q[|p|] < n
  }

  lemma {:induction false} TablesAbove(s: Space, p: Path, q: Path)
    requires Prefix(p, q) && TableAt(s, q).Some?
    ensures TableAt(s, p).Some?
    decreases |q|
  {
    if |p| < |q| {
      PrefixStep(p, q);
      TablesAbove(s, p, q[..|q| - 1]);
    } else {
      assert p == q;
    }
  }

  lemma NoDupConcat(a: seq<Frame>, b: seq<Frame>)
    requires NoDup(a) && NoDup(b) && forall f :: f in a ==> f !in b
    ensures NoDup(a + b)
  {
    var c := a + b;
    forall i, j | 0 <= i < j < |c|
      ensures c[i] != c[j]
    {
      if i < |a| <= j {
        assert c[i] in a && c[j] in b;
      }
    }
  }

  lemma {:induction false} BelowIs(s: Space, p: Path, n: nat)
    requires Tree(s, HALF) && Short(p, HALF) && |p| < 3 && n <= Width(p)
    ensures NoDup(Below(s, p, n)) && forall f :: f in Below(s, p, n) <==> UnderFirst(s, p, n, f)
    decreases 3 - |p|, n
  {
    if n > 0 {
      BelowIs(s, p, n - 1);
      FromIs(s, p + [n - 1]);
      JoinBelow(s, p, n, Below(s, p, n - 1), From(s, p + [n - 1]));
    }
  }

  lemma JoinBelow(s: Space, p: Path, n: nat, a: seq<Frame>, b: seq<Frame>)
    requires Tree(s, HALF) && n > 0 && NoDup(a) && NoDup(b)
    requires forall f :: f in a <==> UnderFirst(s, p, n - 1, f)
    requires forall f :: f in b <==> Under(s, p + [n - 1], f)
    ensures NoDup(a + b) && forall f :: f in a + b <==> UnderFirst(s, p, n, f)
  {
    forall f
      ensures UnderFirst(s, p, n, f) <==> f in a || f in b
      ensures !(f in a && f in b)
    {
    }
    NoDupConcat(a, b);
  }

  lemma {:induction false} FromIs(s: Space, p: Path)
    requires Tree(s, HALF) && Short(p, HALF)
    ensures NoDup(From(s, p)) && forall f :: f in From(s, p) <==> Under(s, p, f)
    decreases 3 - |p|, 513
  {
    if TableAt(s, p) == None {
      forall f
        ensures !Under(s, p, f)
      {
        if Under(s, p, f) {
          var q :| IsAt(s, q, f) && Prefix(p, q);
          TablesAbove(s, p, q);
        }
      }
    } else {
      var f := TableAt(s, p).value;
      assert IsAt(s, p, f) && Prefix(p, p);
      if |p| < 3 {
        var width := Width(p);
        BelowIs(s, p, width);
        forall g
          ensures Under(s, p, g) <==> g == f || UnderFirst(s, p, width, g)
          ensures UnderFirst(s, p, width, g) ==> g != f
        {
          UnderSelf(s, p, f, width, g);
        }
        NoDupConcat(Below(s, p, width), [f]);
      } else {
        forall g
          ensures Under(s, p, g) <==> g == f
        {
          UnderLast(s, p, f, g);
        }
      }
    }
  }

  lemma UnderSelf(s: Space, p: Path, f: Frame, width: nat, g: Frame)
    requires Tree(s, HALF) && IsAt(s, p, f) && |p| < 3 && width == Width(p)
    ensures Under(s, p, g) <==> g == f || UnderFirst(s, p, width, g)
    ensures UnderFirst(s, p, width, g) ==> g != f
  {
    assert Prefix(p, p);
    if Under(s, p, g) && g != f {
      var q :| IsAt(s, q, g) && Prefix(p, q);
      assert q != p;
      assert |q| > |p| && q[|p|] < width;
    }
  }

  lemma UnderLast(s: Space, p: Path, f: Frame, g: Frame)
    requires Tree(s, HALF) && IsAt(s, p, f) && |p| == 3
    ensures Under(s, p, g) <==> g == f
  {
    assert Prefix(p, p);
    if Under(s, p, g) {
      var q :| IsAt(s, q, g) && Prefix(p, q);
      assert q == p;
    }
  }

  /** Destroying frees each user table exactly once, and nothing else. */
  lemma DestroyFreesTables(s: Space)
    requires Tree(s, HALF)
    ensures NoDup(From(s, [])) && forall f :: f in From(s, []) <==> IsTable(s, HALF, f)
  {
    FromIs(s, []);
    forall f: Frame
      ensures Under(s, [], f) <==> IsTable(s, HALF, f)
    {
      if IsTable(s, HALF, f) {
        var p :| Short(p, HALF) && TableAt(s, p) == Some(f);
        assert IsAt(s, p, f) && Prefix([], p);
      }
    }
  }

  // ----- runs

  datatype Op = OpMap(path: Path, entry: Entry) | OpUnmap(path: Path)

  ghost predicate OpOk(op: Op) { |op.path| == 4 && Within(op.path, HALF) && (op.OpMap? ==> op.entry.present) }

  ghost function Apply(s: Space, op: Op): Space
    requires Tree(s, HALF) && OpOk(op)
  {
    if op.OpMap? then MapPath(s, op.path, op.entry).0 else UnmapPath(s, op.path).0
  }

  /** The same operation on a flat map; a map that the tables refuse leaves it alone. */
  ghost function FlatApply(s: Space, m: map<Path, Entry>, op: Op): map<Path, Entry>
    requires Tree(s, HALF) && OpOk(op)
  {
    if op.OpMap? then (if MapPath(s, op.path, op.entry).1.Ok? then m[op.path := op.entry] else m) else m - {op.path}
  }

  /** The tables refine the flat map through every operation. */
  lemma ApplyRefines(s: Space, m: map<Path, Entry>, op: Op)
    requires Tree(s, HALF) && Flat(s, m) && OpOk(op)
    ensures Tree(Apply(s, op), HALF) && Flat(Apply(s, op), FlatApply(s, m, op))
  {
    if op.OpMap? {
      MapRefines(s, m, op.path, op.entry);
    } else {
      UnmapRefines(s, m, op.path);
      if op.path !in m {
        assert m - {op.path} == m;
      }
    }
  }

  ghost predicate AllOk(ops: seq<Op>) { forall i {:trigger ops[i]} :: 0 <= i < |ops| ==> OpOk(ops[i]) }

  /** The flat map after a run of operations on the tables. */
  ghost function FlatRun(s: Space, m: map<Path, Entry>, ops: seq<Op>): (r: (Space, map<Path, Entry>))
    requires Tree(s, HALF) && Flat(s, m) && AllOk(ops)
    ensures Tree(r.0, HALF) && Flat(r.0, r.1)
    decreases |ops|
  {
    if ops == [] then (s, m)
    else
      assert OpOk(ops[0]);
      ApplyRefines(s, m, ops[0]);
      FlatRun(Apply(s, ops[0]), FlatApply(s, m, ops[0]), ops[1..])
  }

  /** After any run, a page that no operation named is mapped as it was before. */
  lemma {:induction false} OtherPagesKept(s: Space, m: map<Path, Entry>, ops: seq<Op>, p: Path)
    requires Tree(s, HALF) && Flat(s, m) && AllOk(ops) && |p| == 4 && Within(p, HALF)
    requires forall i {:trigger ops[i]} :: 0 <= i < |ops| ==> ops[i].path != p
    ensures Lookup(FlatRun(s, m, ops).0, p) == Lookup(s, p)
    decreases |ops|
  {
    if ops != [] {
      assert OpOk(ops[0]) && ops[0].path != p;
      ApplyRefines(s, m, ops[0]);
      OtherPagesKept(Apply(s, ops[0]), FlatApply(s, m, ops[0]), ops[1..], p);
    }
  }

  lemma ApplyKeepsKernel(s: Space, op: Op)
    requires Tree(s, WHOLE) && OpOk(op)
    ensures Tree(Apply(s, op), WHOLE) && KernelKept(s, Apply(s, op))
  {
    var p := op.path;
    if op.OpMap? {
      MapChangesOnePage(WHOLE, s, p, op.entry, p);
      LowerMapKeepsKernel(s, p, op.entry);
    } else {
      UnmapChangesOnePage(WHOLE, s, p, p);
      LowerUnmapKeepsKernel(s, p);
    }
  }

  /** No run of maps and unmaps of the lower half changes the kernel's half of the root or a table below it. */
  lemma {:induction false} RunKeepsKernel(s: Space, m: map<Path, Entry>, ops: seq<Op>)
    requires Tree(s, WHOLE) && Tree(s, HALF) && Flat(s, m) && AllOk(ops)
    ensures Tree(FlatRun(s, m, ops).0, WHOLE) && KernelKept(s, FlatRun(s, m, ops).0)
    decreases |ops|
  {
    if ops == [] {
      KernelKeptSame(s);
    } else {
      assert OpOk(ops[0]);
      ApplyRefines(s, m, ops[0]);
      ApplyKeepsKernel(s, ops[0]);
      RunKeepsKernel(Apply(s, ops[0]), FlatApply(s, m, ops[0]), ops[1..]);
      KernelKeptTrans(s, Apply(s, ops[0]), FlatRun(s, m, ops).0);
    }
  }
}
