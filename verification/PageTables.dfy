/** Four-level page tables of a process, as values, against a flat map from pages to frames. */
module PageTables {
  import opened Wrappers
  import LittleEndian
  import Bits

  type Frame = nat

  /** A table entry: the frame it points to, and its flags. */
  datatype Entry = Entry(present: bool, frame: Frame, flags: nat)

  const EMPTY: Entry := Entry(false, 0, 0)
  const KERNEL_START: nat := 0xFFFF_8000_0000_0000
  /** Present, writable and accessible to user code. */
  const TABLE_FLAGS: nat := 7

  datatype Error = AllocationFailed | KernelAddressViolation | AlreadyMapped | NotMapped

  type Table = seq<Entry>

  /** The memory that holds tables, the root of one address space, the frames the allocator will hand out, and the page
      counter. */
  datatype Space = Space(mem: map<Frame, Table>, root: Frame, pool: seq<Frame>, count: nat)

  function Blank(): Table { seq(512, _ => EMPTY) }

  /** Indices from the root: up to three name a table, four name an entry of a last-level table. */
  type Path = seq<nat>

  predicate Inside(p: Path)
  {
    forall k {:trigger p[k]} :: 0 <= k < |p| ==> p[k] < 512
  }

  /** A path through the first `top` entries of the root table: the lower half of it when top is HALF, any path when it
      is WHOLE. */
  predicate Within(p: Path, top: nat)
  {
    Inside(p) && (p == [] || p[0] < top)
  }

  const HALF: nat := 256
  const WHOLE: nat := 512

  // ----- addresses

  function Pml4Index(v: nat): nat { v / 0x80_0000_0000 % 512 }
  function PdptIndex(v: nat): nat { v / 0x4000_0000 % 512 }
  function PdIndex(v: nat): nat { v / 0x20_0000 % 512 }
  function PtIndex(v: nat): nat { v / 0x1000 % 512 }

  function PathOf(v: nat): Path { [Pml4Index(v), PdptIndex(v), PdIndex(v), PtIndex(v)] }

  /** The address of the page that the hardware reaches through a path: the upper half of the root table is the top of
      the address space. */
  function PageAt(p: Path): nat
    requires |p| == 4
  {
    (((p[0] * 512 + p[1]) * 512 + p[2]) * 512 + p[3]) * 0x1000 + if p[0] < HALF then 0 else 0xFFFF_0000_0000_0000
  }

  /** Only the low 48 bits of an address choose its path. */
  lemma PathPage(v: nat)
    ensures |PathOf(v)| == 4 && Within(PathOf(v), WHOLE)
    ensures ((Pml4Index(v) * 512 + PdptIndex(v)) * 512 + PdIndex(v)) * 512 + PtIndex(v) == v / 0x1000 % 0x10_0000_0000
  {
    LittleEndian.SplitBy(v, 0x1000, 512);
    LittleEndian.SplitBy(v, 0x20_0000, 512);
    LittleEndian.SplitBy(v, 0x4000_0000, 512);
    Digits(v / 0x1000);
  }

  lemma Digits(n: nat)
    ensures ((n / 512 / 512 / 512 % 512 * 512 + n / 512 / 512 % 512) * 512 + n / 512 % 512) * 512 + n % 512
         == n % 0x10_0000_0000
  {
    var a := n / 512;
    var b := a / 512;
    var c := b / 512;
    Recombined(n, a, b, c, c / 512, n % 512, a % 512, b % 512, c % 512);
  }

  lemma Recombined(n: nat, a: nat, b: nat, c: nat, d: nat, n0: nat, a0: nat, b0: nat, c0: nat)
    requires n == 512 * a + n0 && a == 512 * b + a0 && b == 512 * c + b0 && c == 512 * d + c0
    requires n0 < 512 && a0 < 512 && b0 < 512 && c0 < 512
    ensures ((c0 * 512 + b0) * 512 + a0) * 512 + n0 == n % 0x10_0000_0000
  {
    Bits.DivUnique(n, 0x10_0000_0000, d, ((c0 * 512 + b0) * 512 + a0) * 512 + n0);
  }

  /** Two addresses have the same path exactly when their page numbers agree modulo 2^36. */
  lemma SamePath(v: nat, w: nat)
    ensures PathOf(v) == PathOf(w) <==> v / 0x1000 % 0x10_0000_0000 == w / 0x1000 % 0x10_0000_0000
  {
    PathPage(v);
    PathPage(w);
    if PathOf(v) == PathOf(w) {
      assert PathOf(v)[0] == PathOf(w)[0] && PathOf(v)[1] == PathOf(w)[1];
      assert PathOf(v)[2] == PathOf(w)[2] && PathOf(v)[3] == PathOf(w)[3];
    }
  }

  // ----- walking

  /** The table at the end of a path, if every entry on the way is present. */
  function TableAt(s: Space, p: Path): Option<Frame>
    decreases |p|
  {
    if p == [] then Some(s.root)
    else
      match TableAt(s, p[..|p| - 1])
      case None => None
      case Some(f) => Follow(s, f, p[|p| - 1])
  }

  function Follow(s: Space, f: Frame, i: nat): Option<Frame>
  {
    if f in s.mem && i < |s.mem[f]| && s.mem[f][i].present then Some(s.mem[f][i].frame) else None
  }

  /** The entry of a page, if all its tables exist and the entry is present. */
  function Lookup(s: Space, p: Path): Option<Entry>
    requires |p| == 4
  {
    match TableAt(s, p[..3])
    case None => None
    case Some(f) => if f in s.mem && p[3] < |s.mem[f]| && s.mem[f][p[3]].present then Some(s.mem[f][p[3]]) else None
  }

  /** A path that can name a table. */
  predicate Short(p: Path, top: nat) { |p| <= 3 && Within(p, top) }

  /** The tables under the first `top` entries of the root, and the root, are whole, no two of them share a frame, and
      the allocator does not hand them out. */
  ghost predicate Tree(s: Space, top: nat)
  {
    && (forall p {:trigger TableAt(s, p)} :: Short(p, top) && TableAt(s, p).Some? ==>
          var f := TableAt(s, p).value; f in s.mem && |s.mem[f]| == 512 && f !in s.pool)
    && (forall p, q {:trigger TableAt(s, p), TableAt(s, q)} ::
          Short(p, top) && Short(q, top) && TableAt(s, p).Some? && TableAt(s, p) == TableAt(s, q) ==> p == q)
    && (forall i, j {:trigger s.pool[i], s.pool[j]} :: 0 <= i < j < |s.pool| ==> s.pool[i] != s.pool[j])
  }

  /** The flat map of the lower half: pages, by path, with the entry each has. */
  ghost predicate Flat(s: Space, m: map<Path, Entry>)
  {
    && (forall p {:trigger Lookup(s, p)} :: |p| == 4 && Within(p, HALF) ==>
          Lookup(s, p) == if p in m then Some(m[p]) else None)
    && (forall p {:trigger m[p]} :: p in m ==> |p| == 4 && Within(p, HALF))
    && s.count == |m|
  }

  // ----- changing one entry

  function SetEntry(s: Space, f: Frame, i: nat, e: Entry): Space
    requires f in s.mem && i < |s.mem[f]|
  {
    s.(mem := s.mem[f := s.mem[f][i := e]])
  }

  /** A new, blank table takes the place of an absent entry. */
  function Grow(s: Space, f: Frame, i: nat): Space
    requires f in s.mem && i < |s.mem[f]| && s.pool != [] && s.pool[0] != f
  {
    var g := s.pool[0];
    var zeroed := s.(mem := s.mem[g := Blank()], pool := s.pool[1..]);
    SetEntry(zeroed, f, i, Entry(true, g, TABLE_FLAGS))
  }

  /** The new entry is present, writable and open to user code, and leads to a table of absent entries. */
  lemma GrowEntry(s: Space, f: Frame, i: nat, k: nat)
    requires f in s.mem && i < |s.mem[f]| && s.pool != [] && s.pool[0] != f && k < 512
    ensures var r := Grow(s, f, i);
      && r.mem[f] == s.mem[f][i := Entry(true, s.pool[0], 7)] && r.pool == s.pool[1..] && r.count == s.count
      && s.pool[0] in r.mem && |r.mem[s.pool[0]]| == 512 && !r.mem[s.pool[0]][k].present
      && forall x :: x in s.mem && x != f && x != s.pool[0] ==> r.mem[x] == s.mem[x]
  {
  }

  ghost predicate Prefix(p: Path, q: Path) { |p| <= |q| && q[..|p|] == p }

  lemma ShortInit(top: nat, p: Path)
    requires Short(p, top) && p != []
    ensures Short(p[..|p| - 1], top) && p[|p| - 1] < 512
  {
  }

  lemma FollowAfterGrow(s: Space, f: Frame, i: nat, h: Frame, j: nat)
    requires f in s.mem && i < |s.mem[f]| && s.pool != [] && s.pool[0] != f
    ensures Follow(Grow(s, f, i), h, j)
         == if h == s.pool[0] then None else if h == f && j == i then Some(s.pool[0]) else Follow(s, h, j)
  {
  }

  lemma PrefixStep(p: Path, q: Path)
    requires q != []
    ensures Prefix(p, q) <==> q == p || Prefix(p, q[..|q| - 1])
  {
    if |p| < |q| {
      assert q[..|q| - 1][..|p|] == q[..|p|];
    }
  }

  /** Where tables are after a new one has been hung under path p at index i. */
  lemma {:induction false} TableAfterGrow(top: nat, s: Space, p: Path, f: Frame, i: nat, q: Path)
    requires Tree(s, top) && Short(p, top) && Short(p + [i], top) && Short(q, top) && TableAt(s, p) == Some(f)
    requires f in s.mem && i < |s.mem[f]| && !s.mem[f][i].present && s.pool != [] && s.pool[0] != f
    ensures TableAt(Grow(s, f, i), q)
         == if q == p + [i] then Some(s.pool[0]) else if Prefix(p + [i], q) then None else TableAt(s, q)
    decreases |q|
  {
    if q != [] {
      var init, j := q[..|q| - 1], q[|q| - 1];
      assert q == init + [j];
      ShortInit(top, q);
      PrefixStep(p + [i], q);
      TableAfterGrow(top, s, p, f, i, init);
      FollowAfterGrow(s, f, i, s.pool[0], j);
      if TableAt(s, init).Some? {
        FollowAfterGrow(s, f, i, TableAt(s, init).value, j);
      }
    }
  }

  /** A new table keeps the tree and changes no page. */
  lemma GrowKeepsTree(top: nat, s: Space, p: Path, f: Frame, i: nat)
    requires Tree(s, top) && Short(p, top) && Short(p + [i], top) && TableAt(s, p) == Some(f)
    requires f in s.mem && i < |s.mem[f]| && !s.mem[f][i].present && s.pool != [] && s.pool[0] != f
    ensures Tree(Grow(s, f, i), top)
  {
    var r, g := Grow(s, f, i), s.pool[0];
    assert forall k {:trigger r.pool[k]} :: 0 <= k < |r.pool| ==> r.pool[k] == s.pool[k + 1];
    forall q | Short(q, top)
      ensures TableAt(r, q) == if q == p + [i] then Some(g) else if Prefix(p + [i], q) then None else TableAt(s, q)
    {
      TableAfterGrow(top, s, p, f, i, q);
    }
  }

  lemma LookupAfterGrow(top: nat, s: Space, p: Path, f: Frame, i: nat, q: Path)
    requires Tree(s, top) && Short(p, top) && Short(p + [i], top) && TableAt(s, p) == Some(f)
    requires f in s.mem && i < |s.mem[f]| && !s.mem[f][i].present && s.pool != [] && s.pool[0] != f
    requires |q| == 4 && Within(q, top)
    ensures Lookup(Grow(s, f, i), q) == Lookup(s, q)
  {
    var t := q[..3];
    TableAfterGrow(top, s, p, f, i, t);
    if Prefix(p + [i], t) {
      AbsentBelow(s, p, f, i, t);
    }
  }

  /** Nothing hangs below an absent entry. */
  lemma {:induction false} AbsentBelow(s: Space, p: Path, f: Frame, i: nat, q: Path)
    requires TableAt(s, p) == Some(f) && f in s.mem && i < |s.mem[f]| && !s.mem[f][i].present && Prefix(p + [i], q)
    ensures TableAt(s, q) == None
    decreases |q|
  {
    PrefixStep(p + [i], q);
    if q == p + [i] {
      assert q[..|q| - 1] == p;
    } else {
      AbsentBelow(s, p, f, i, q[..|q| - 1]);
    }
  }

  /** Changing an entry of a last-level table moves no table. */
  lemma {:induction false} TableAfterLeaf(top: nat, s: Space, p: Path, f: Frame, i: nat, e: Entry, q: Path)
    requires Tree(s, top) && Short(p, top) && |p| == 3 && TableAt(s, p) == Some(f) && f in s.mem && i < |s.mem[f]|
    requires Short(q, top)
    ensures TableAt(SetEntry(s, f, i, e), q) == TableAt(s, q)
    decreases |q|
  {
    if q != [] {
      ShortInit(top, q);
      TableAfterLeaf(top, s, p, f, i, e, q[..|q| - 1]);
    }
  }

  lemma LeafKeepsTree(top: nat, s: Space, p: Path, f: Frame, i: nat, e: Entry)
    requires Tree(s, top) && Short(p, top) && |p| == 3 && TableAt(s, p) == Some(f) && f in s.mem && i < |s.mem[f]|
    ensures Tree(SetEntry(s, f, i, e), top)
  {
    var r := SetEntry(s, f, i, e);
    forall q | Short(q, top)
      ensures TableAt(r, q) == TableAt(s, q)
    {
      TableAfterLeaf(top, s, p, f, i, e, q);
    }
  }

  /** Changing an entry of a last-level table changes that page and no other. */
  lemma LookupAfterLeaf(top: nat, s: Space, p: Path, f: Frame, e: Entry, q: Path)
    requires Tree(s, top) && |p| == 4 && Within(p, top) && TableAt(s, p[..3]) == Some(f) && |q| == 4 && Within(q, top)
    requires f in s.mem && p[3] < |s.mem[f]|
    ensures Lookup(SetEntry(s, f, p[3], e), q)
         == if q == p then (if e.present then Some(e) else None) else Lookup(s, q)
  {
    assert Short(p[..3], top) && Short(q[..3], top);
    TableAfterLeaf(top, s, p[..3], f, p[3], e, q[..3]);
    assert q == q[..3] + [q[3]] && p == p[..3] + [p[3]];
  }

  // ----- the operations

  /** Follows an entry, or hangs a new table there. (A walk in a tree meets no entry that is not in memory.) */
  function NextOrCreate(s: Space, f: Frame, i: nat): (Space, Option<Frame>)
  {
    if f !in s.mem || i >= |s.mem[f]| || (s.pool != [] && s.pool[0] == f) then (s, None)
    else if s.mem[f][i].present then (s, Some(s.mem[f][i].frame))
    else if s.pool == [] then (s, None)
    else (Grow(s, f, i), Some(s.pool[0]))
  }

  /** The walk down n levels of a path, creating what is missing. */
  function Descend(s: Space, p: Path, n: nat): (Space, Option<Frame>)
    requires n <= |p|
  {
    if n == 0 then (s, Some(s.root))
    else
      var (r, f) := Descend(s, p, n - 1);
      if f == None then (r, None) else NextOrCreate(r, f.value, p[n - 1])
  }

  lemma NextKeeps(top: nat, s: Space, p: Path, f: Frame, i: nat)
    requires Tree(s, top) && Short(p, top) && Short(p + [i], top) && TableAt(s, p) == Some(f)
    ensures f in s.mem && i < |s.mem[f]| && (s.pool != [] ==> s.pool[0] != f)
    ensures var (r, g) := NextOrCreate(s, f, i);
      && Tree(r, top) && r.root == s.root && r.count == s.count && (g.Some? ==> TableAt(r, p + [i]) == g)
      && (g == None ==> r == s && s.pool == [])
  {
    assert i == (p + [i])[|p|];
    assert s.pool != [] ==> s.pool[0] in s.pool;
    assert (p + [i])[..|p|] == p;
    if !s.mem[f][i].present && s.pool != [] {
      GrowKeepsTree(top, s, p, f, i);
      TableAfterGrow(top, s, p, f, i, p + [i]);
    }
  }

  /** The walk keeps the tree and ends at the table of its path, or it has used up the frames. */
  lemma {:induction false} DescendKeeps(top: nat, s: Space, p: Path, n: nat)
    requires Tree(s, top) && n <= |p| && n <= 3 && Within(p, top)
    ensures var (r, f) := Descend(s, p, n);
      && Tree(r, top) && r.root == s.root && r.count == s.count
      && (f.Some? ==> TableAt(r, p[..n]) == f) && (f == None ==> r.pool == [])
    decreases n
  {
    if n > 0 {
      DescendKeeps(top, s, p, n - 1);
      var (r, f) := Descend(s, p, n - 1);
      if f.Some? {
        PathStep(top, p, n - 1);
        NextKeeps(top, r, p[..n - 1], f.value, p[n - 1]);
      }
    }
  }

  lemma PathStep(top: nat, p: Path, n: nat)
    requires n < |p| && n < 3 && Within(p, top)
    ensures Short(p[..n], top) && Short(p[..n + 1], top) && p[..n + 1] == p[..n] + [p[n]]
  {
  }

  lemma NextChangesNoPage(top: nat, s: Space, p: Path, f: Frame, i: nat, q: Path)
    requires Tree(s, top) && Short(p, top) && Short(p + [i], top) && TableAt(s, p) == Some(f)
    requires |q| == 4 && Within(q, top)
    ensures Lookup(NextOrCreate(s, f, i).0, q) == Lookup(s, q)
  {
    NextKeeps(top, s, p, f, i);
    if !s.mem[f][i].present && s.pool != [] {
      LookupAfterGrow(top, s, p, f, i, q);
    }
  }

  /** Walking down changes no page, whether it reaches the end or runs out of frames. */
  lemma {:induction false} DescendChangesNoPage(top: nat, s: Space, p: Path, n: nat, q: Path)
    requires Tree(s, top) && n <= |p| && n <= 3 && Within(p, top) && |q| == 4 && Within(q, top)
    ensures Lookup(Descend(s, p, n).0, q) == Lookup(s, q)
    decreases n
  {
    if n > 0 {
      DescendChangesNoPage(top, s, p, n - 1, q);
      DescendKeeps(top, s, p, n - 1);
      var (r, f) := Descend(s, p, n - 1);
      if f.Some? {
        PathStep(top, p, n - 1);
        NextChangesNoPage(top, r, p[..n - 1], f.value, p[n - 1], q);
      }
    }
  }

  lemma {:induction false} DescendExisting(top: nat, s: Space, p: Path, n: nat)
    requires Tree(s, top) && n <= |p| && n <= 3 && Within(p, top) && TableAt(s, p[..n]).Some?
    ensures Descend(s, p, n) == (s, TableAt(s, p[..n]))
    decreases n
  {
    if n > 0 {
      PathStep(top, p, n - 1);
      assert p[..n][..n - 1] == p[..n - 1];
      DescendExisting(top, s, p, n - 1);
      NextKeeps(top, s, p[..n - 1], TableAt(s, p[..n - 1]).value, p[n - 1]);
    }
  }

  /** The end of a map, once the walk has reached a last-level table or run out of frames. */
  function FinishMap(s: Space, f: Option<Frame>, p: Path, e: Entry): (Space, Result<(), Error>)
    requires |p| == 4
  {
    if f == None || f.value !in s.mem || p[3] >= |s.mem[f.value]| then (s, Err(AllocationFailed))
    else if s.mem[f.value][p[3]].present then (s, Err(AlreadyMapped))
    else (SetEntry(s, f.value, p[3], e).(count := s.count + 1), Ok(()))
  }

  function MapPath(s: Space, p: Path, e: Entry): (Space, Result<(), Error>)
    requires |p| == 4
  {
    FinishMap(Descend(s, p, 3).0, Descend(s, p, 3).1, p, e)
  }

  function UnmapPath(s: Space, p: Path): (Space, Result<Frame, Error>)
    requires |p| == 4
  {
    if Lookup(s, p) == None then (s, Err(NotMapped))
    else
      var f := TableAt(s, p[..3]).value;
      (SetEntry(s, f, p[3], EMPTY).(count := if s.count == 0 then 0 else s.count - 1), Ok(Lookup(s, p).value.frame))
  }

  lemma LeafIsWhole(top: nat, s: Space, f: Option<Frame>, p: Path)
    requires Tree(s, top) && |p| == 4 && Within(p, top) && (f.Some? ==> TableAt(s, p[..3]) == f)
    ensures f.Some? ==> f.value in s.mem && |s.mem[f.value]| == 512 && p[3] < 512
  {
    assert Short(p[..3], top);
  }

  // ----- what a map and an unmap do to the pages

  /** The counter is not part of the tables. */
  lemma {:induction false} SameTable(s: Space, r: Space, q: Path)
    requires r.mem == s.mem && r.root == s.root
    ensures TableAt(r, q) == TableAt(s, q)
    decreases |q|
  {
    if q != [] {
      SameTable(s, r, q[..|q| - 1]);
    }
  }

  lemma SameTables(top: nat, s: Space, r: Space)
    requires Tree(s, top) && r.mem == s.mem && r.root == s.root && r.pool == s.pool
    ensures Tree(r, top)
  {
    forall q: Path | Short(q, top)
      ensures TableAt(r, q) == TableAt(s, q)
    {
      SameTable(s, r, q);
    }
  }

  /** A write to a last-level entry, with the counter: the tree stays and that page alone changes. */
  lemma LeafWrite(top: nat, s: Space, p: Path, f: Frame, e: Entry, count: nat, q: Path)
    requires Tree(s, top) && |p| == 4 && Within(p, top) && TableAt(s, p[..3]) == Some(f) && |q| == 4 && Within(q, top)
    requires f in s.mem && p[3] < |s.mem[f]|
    ensures var r := SetEntry(s, f, p[3], e).(count := count);
      && Tree(r, top)
      && Lookup(r, q) == if q == p then (if e.present then Some(e) else None) else Lookup(s, q)
  {
    assert Short(p[..3], top);
    var w := SetEntry(s, f, p[3], e);
    LeafKeepsTree(top, s, p[..3], f, p[3], e);
    LookupAfterLeaf(top, s, p, f, e, q);
    SameTables(top, w, w.(count := count));
    SameTable(w, w.(count := count), q[..3]);
  }

  /** A map answers by what the page and the frames were, adds that page when it succeeds, and changes no other page. */
  lemma MapChangesOnePage(top: nat, s: Space, p: Path, e: Entry, q: Path)
    requires Tree(s, top) && |p| == 4 && Within(p, top) && e.present && |q| == 4 && Within(q, top)
    ensures var (r, result) := MapPath(s, p, e);
      && Tree(r, top) && r.root == s.root && r.count == s.count + (if result.Ok? then 1 else 0)
      && (Lookup(s, p).Some? <==> result == Err(AlreadyMapped))
      && (Lookup(s, p).Some? ==> r == s)
      && (result.Ok? || result == Err(AlreadyMapped) || (result == Err(AllocationFailed) && r.pool == []))
      && Lookup(r, q) == if result.Ok? && q == p then Some(e) else Lookup(s, q)
  {
    DescendKeeps(top, s, p, 3);
    DescendChangesNoPage(top, s, p, 3, q);
    DescendChangesNoPage(top, s, p, 3, p);
    var (d, f) := Descend(s, p, 3);
    LeafIsWhole(top, d, f, p);
    if Lookup(s, p).Some? {
      DescendExisting(top, s, p, 3);
    } else if f.Some? {
      LeafWrite(top, d, p, f.value, e, d.count + 1, q);
    }
  }

  /** An unmap answers by what the page was, returns its frame, and changes no other page. */
  lemma UnmapChangesOnePage(top: nat, s: Space, p: Path, q: Path)
    requires Tree(s, top) && |p| == 4 && Within(p, top) && |q| == 4 && Within(q, top)
    ensures var (r, result) := UnmapPath(s, p);
      && Tree(r, top) && r.root == s.root && r.pool == s.pool
      && (Lookup(s, p) == None ==> r == s && result == Err(NotMapped))
      && (Lookup(s, p).Some? ==> result == Ok(Lookup(s, p).value.frame))
      && (Lookup(s, p).Some? ==> r.count == if s.count == 0 then 0 else s.count - 1)
      && Lookup(r, q) == if q == p then None else Lookup(s, q)
  {
    if Lookup(s, p).Some? {
      var f := TableAt(s, p[..3]);
      LeafIsWhole(top, s, f, p);
      LeafWrite(top, s, p, f.value, EMPTY, if s.count == 0 then 0 else s.count - 1, q);
    }
  }
}
