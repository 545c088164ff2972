/** The address space of a process as the kernel keeps it: page tables changed in place. */
module UserSpace {
  import opened AddressSpaces
  import opened PageTables
  import opened Wrappers
  import Bits

  /** The part of the root table that an operation at an address walks through. */
  ghost function Reach(v: nat): nat { if v < KERNEL_START && Pml4Index(v) >= HALF then WHOLE else HALF }

  lemma ChildStep(s: Space, p: Path, f: Frame, i: nat)
    requires Tree(s, HALF) && Short(p, HALF) && |p| < 3 && TableAt(s, p) == Some(f) && i < Width(p)
    ensures f in s.mem && |s.mem[f]| == 512 && Short(p + [i], HALF)
    ensures TableAt(s, p + [i]) == if s.mem[f][i].present then Some(s.mem[f][i].frame) else None
    ensures Below(s, p, i + 1) == Below(s, p, i) + From(s, p + [i])
    ensures |p| == 2 && s.mem[f][i].present ==> From(s, p + [i]) == [s.mem[f][i].frame]
    ensures !s.mem[f][i].present ==> From(s, p + [i]) == []
  {
    assert (p + [i])[..|p|] == p;
  }

  lemma FreshSpace(s: Space)
    requires s.root in s.mem && |s.mem[s.root]| == 512 && s.root !in s.pool && NoDup(s.pool) && s.count == 0
    requires forall i {:trigger s.mem[s.root][i]} :: 0 <= i < 256 ==> !s.mem[s.root][i].present
    ensures Tree(s, HALF) && Flat(s, map[])
  {
    forall p: Path | Short(p, HALF) && p != []
      ensures TableAt(s, p) == None
    {
      NothingBelow(s, p);
    }
  }

  /** The kernel's own address space, seen through the upper half of its root only. */
  ghost function KernelSpace(mem: map<Frame, Table>, kernelRoot: Frame, kernel: Table, pool: seq<Frame>): Space
    requires |kernel| == 512
  {
    Space(mem[kernelRoot := Blank()[..256] + kernel[256..]], kernelRoot, pool, 0)
  }

  /** The tables under the upper half of the kernel's root are page tables, different and not free, and the new root is
      none of them. */
  ghost predicate KernelSound(mem: map<Frame, Table>, kernelRoot: Frame, kernel: Table, pool: seq<Frame>, root: Frame)
    requires |kernel| == 512
  {
    var k := KernelSpace(mem, kernelRoot, kernel, pool);
    Tree(k, WHOLE) && !IsTable(k, WHOLE, root)
  }

  /** A new address space reaches the kernel's tables at the kernel's own paths. */
  lemma {:induction false} SameKernelTable(mem: map<Frame, Table>, kernelRoot: Frame, kernel: Table, pool: seq<Frame>,
                                           root: Frame, s: Space, q: Path)
    requires |kernel| == 512 && KernelSound(mem, kernelRoot, kernel, pool, root) && Short(q, WHOLE)
    requires s.mem == mem[root := Blank()[..256] + kernel[256..]] && s.root == root
    ensures TableAt(s, q) == if q == [] then Some(root) else TableAt(KernelSpace(mem, kernelRoot, kernel, pool), q)
    decreases |q|
  {
    var k := KernelSpace(mem, kernelRoot, kernel, pool);
    if q != [] {
      var init := q[..|q| - 1];
      ShortInit(WHOLE, q);
      SameKernelTable(mem, kernelRoot, kernel, pool, root, s, init);
      assert TableAt(k, []) == Some(kernelRoot) && Short([], WHOLE);
      if init != [] && TableAt(k, init).Some? {
        IsTableAt(WHOLE, k, init, TableAt(k, init).value);
      }
    }
  }

  lemma SharesKernel(mem: map<Frame, Table>, kernelRoot: Frame, kernel: Table, pool: seq<Frame>, root: Frame)
    requires |kernel| == 512 && KernelSound(mem, kernelRoot, kernel, pool, root) && root !in pool
    ensures Tree(Space(mem[root := Blank()[..256] + kernel[256..]], root, pool, 0), WHOLE)
  {
    var k := KernelSpace(mem, kernelRoot, kernel, pool);
    var s := Space(mem[root := Blank()[..256] + kernel[256..]], root, pool, 0);
    forall q: Path | Short(q, WHOLE)
      ensures TableAt(s, q) == if q == [] then Some(root) else TableAt(k, q)
      ensures TableAt(k, q) != Some(root) && (q != [] ==> TableAt(k, q) != Some(kernelRoot))
    {
      SameKernelTable(mem, kernelRoot, kernel, pool, root, s, q);
      NeitherRoot(k, root, q);
    }
  }

  lemma NeitherRoot(k: Space, root: Frame, q: Path)
    requires Tree(k, WHOLE) && !IsTable(k, WHOLE, root) && Short(q, WHOLE)
    ensures TableAt(k, q) != Some(root) && (q != [] ==> TableAt(k, q) != Some(k.root))
  {
    assert TableAt(k, []) == Some(k.root) && Short([], WHOLE);
  }

  lemma {:induction false} NothingBelow(s: Space, p: Path)
    requires s.root in s.mem && |s.mem[s.root]| == 512 && Short(p, HALF) && p != []
    requires forall i {:trigger s.mem[s.root][i]} :: 0 <= i < 256 ==> !s.mem[s.root][i].present
    ensures TableAt(s, p) == None
    decreases |p|
  {
    if |p| > 1 {
      ShortInit(HALF, p);
      NothingBelow(s, p[..|p| - 1]);
    }
  }

  ghost predicate SecondStep(s: Space, p: Path, g: Frame)
    requires |p| == 4
  {
    && g in s.mem && |s.mem[g]| == 512 && p[2] < 512
    && TableAt(s, p[..3]) == if s.mem[g][p[2]].present then Some(s.mem[g][p[2]].frame) else None
  }

  lemma WalkSteps(top: nat, s: Space, p: Path)
    requires Tree(s, top) && |p| == 4 && Within(p, top)
    ensures s.root in s.mem && |s.mem[s.root]| == 512
    ensures s.mem[s.root][p[0]].present ==> (
      var f := s.mem[s.root][p[0]].frame;
      && f in s.mem && |s.mem[f]| == 512
      && (s.mem[f][p[1]].present ==> SecondStep(s, p, s.mem[f][p[1]].frame))
      && (!s.mem[f][p[1]].present ==> TableAt(s, p[..3]) == None))
    ensures !s.mem[s.root][p[0]].present ==> TableAt(s, p[..3]) == None
  {
    assert Short(p[..0], top) && Short(p[..1], top) && Short(p[..2], top) && Short(p[..3], top);
    assert p[..1][..0] == p[..0] && p[..2][..1] == p[..1] && p[..3][..2] == p[..2];
    assert TableAt(s, p[..0]) == Some(s.root);
    assert TableAt(s, p[..1]) == Follow(s, s.root, p[0]);
    if s.mem[s.root][p[0]].present {
      var f := s.mem[s.root][p[0]].frame;
      assert TableAt(s, p[..2]) == Follow(s, f, p[1]);
    }
  }

  lemma WalkNext(top: nat, s: Space, p: Path, n: nat)
    requires Tree(s, top) && n < |p| && n < 3 && Within(p, top) && Descend(s, p, n).1.Some?
    ensures var (r, f) := Descend(s, p, n);
      && f.value in r.mem && p[n] < |r.mem[f.value]| && (r.pool != [] ==> r.pool[0] != f.value)
      && Descend(s, p, n + 1) == NextOrCreate(r, f.value, p[n])
  {
    var (r, f) := Descend(s, p, n);
    DescendKeeps(top, s, p, n);
    PathStep(top, p, n);
    NextKeeps(top, r, p[..n], f.value, p[n]);
  }

  class AddressSpace {
    var mem: map<Frame, Table>
    const root: Frame
    var pool: seq<Frame>
    var count: nat
    var active: bool
    /** The frames given back so far. */
    var freed: seq<Frame>

    ghost function Abs(): Space
      reads this
    {
      Space(mem, root, pool, count)
    }

    /** A blank lower half below the kernel's upper half. */
    constructor (mem: map<Frame, Table>, root: Frame, pool: seq<Frame>, kernel: Table, ghost kernelRoot: Frame)
      requires |kernel| == 512 && root !in pool && NoDup(pool)
      ensures Tree(Abs(), HALF) && Flat(Abs(), map[]) && active && freed == []
      ensures KernelSound(mem, kernelRoot, kernel, pool, root) ==> Tree(Abs(), WHOLE)
      ensures this.root == root && this.mem == mem[root := Blank()[..256] + kernel[256..]]
    {
      this.mem := mem[root := Blank()[..256] + kernel[256..]];
      this.root, this.pool, count, active, freed := root, pool, 0, true, [];
      new;
      FreshSpace(Abs());
      if KernelSound(mem, kernelRoot, kernel, pool, root) {
        SharesKernel(mem, kernelRoot, kernel, pool, root);
      }
    }

    method Next(f: Frame, i: nat) returns (r: Option<Frame>)
      requires f in mem && i < |mem[f]| && (pool != [] ==> pool[0] != f)
      modifies this`mem, this`pool
      ensures (Abs(), r) == NextOrCreate(old(Abs()), f, i)
    {
      if mem[f][i].present {
        return Some(mem[f][i].frame);
      }
      if pool == [] {
        return None;
      }
      var g := pool[0];
      pool := pool[1..];
      mem := mem[g := Blank()];
      mem := mem[f := mem[f][i := Entry(true, g, TABLE_FLAGS)]];
      return Some(g);
    }

    /** Walks to the last-level table, creating tables on the way. */
    method WalkOrCreate(p: Path, ghost top: nat) returns (r: Option<Frame>)
      requires Tree(Abs(), top) && |p| == 4 && Within(p, top)
      modifies this`mem, this`pool
      ensures (Abs(), r) == Descend(old(Abs()), p, 3)
    {
      ghost var s := Abs();
      WalkNext(top, s, p, 0);
      r := Next(root, p[0]);
      if r == None {
        return;
      }
      WalkNext(top, s, p, 1);
      r := Next(r.value, p[1]);
      if r == None {
        return;
      }
      WalkNext(top, s, p, 2);
      r := Next(r.value, p[2]);
    }

    /** Maps a page at any address that passes the check; the walk goes where the address leads. */
    method MapUserPage(virt: nat, frame: Frame, flags: nat) returns (r: Result<(), Error>)
      requires Tree(Abs(), Reach(virt))
      modifies this`mem, this`pool, this`count
      ensures |PathOf(virt)| == 4 && Tree(Abs(), Reach(virt))
      ensures virt >= 0xFFFF_8000_0000_0000 ==> r == Err(KernelAddressViolation) && Abs() == old(Abs())
      ensures virt < 0xFFFF_8000_0000_0000 ==>
        (Abs(), r) == MapPath(old(Abs()), PathOf(virt), Entry(true, frame, Bits.Or(7, flags)))
    {
      PathPage(virt);
      if virt >= KERNEL_START {
        return Err(KernelAddressViolation);
      }
      var p, e := PathOf(virt), Entry(true, frame, Bits.Or(TABLE_FLAGS, flags));
      ghost var top := Reach(virt);
      MapChangesOnePage(top, Abs(), p, e, p);
      DescendKeeps(top, Abs(), p, 3);
      var f := WalkOrCreate(p, top);
      LeafIsWhole(top, Abs(), f, p);
      r := SetLast(f, p, e);
    }

    method SetLast(f: Option<Frame>, p: Path, e: Entry) returns (r: Result<(), Error>)
      requires |p| == 4 && (f.Some? ==> f.value in mem && p[3] < |mem[f.value]|)
      modifies this`mem, this`count
      ensures (Abs(), r) == FinishMap(old(Abs()), f, p, e)
    {
      if f == None {
        return Err(AllocationFailed);
      }
      if mem[f.value][p[3]].present {
        return Err(AlreadyMapped);
      }
      mem := mem[f.value := mem[f.value][p[3] := e]];
      count := count + 1;
      return Ok(());
    }

    /** Walks to the last-level table, if it exists. */
    method Walk(p: Path, ghost top: nat) returns (r: Option<Frame>)
      requires Tree(Abs(), top) && |p| == 4 && Within(p, top)
      ensures r == TableAt(Abs(), p[..3])
    {
      WalkSteps(top, Abs(), p);
      if !mem[root][p[0]].present {
        return None;
      }
      var f := mem[root][p[0]].frame;
      if !mem[f][p[1]].present {
        return None;
      }
      var g := mem[f][p[1]].frame;
      if !mem[g][p[2]].present {
        return None;
      }
      return Some(mem[g][p[2]].frame);
    }

    method UnmapUserPage(virt: nat) returns (r: Result<Frame, Error>)
      requires Tree(Abs(), Reach(virt))
      modifies this`mem, this`count
      ensures |PathOf(virt)| == 4 && Tree(Abs(), Reach(virt))
      ensures virt >= 0xFFFF_8000_0000_0000 ==> r == Err(KernelAddressViolation) && Abs() == old(Abs())
      ensures virt < 0xFFFF_8000_0000_0000 ==> (Abs(), r) == UnmapPath(old(Abs()), PathOf(virt))
    {
      PathPage(virt);
      if virt >= KERNEL_START {
        return Err(KernelAddressViolation);
      }
      var p := PathOf(virt);
      ghost var top := Reach(virt);
      UnmapChangesOnePage(top, Abs(), p, p);
      var t := Walk(p, top);
      LeafIsWhole(top, Abs(), t, p);
      if t == None {
        return Err(NotMapped);
      }
      var f := t.value;
      if !mem[f][p[3]].present {
        return Err(NotMapped);
      }
      var frame := mem[f][p[3]].frame;
      mem := mem[f := mem[f][p[3] := EMPTY]];
      count := if count == 0 then 0 else count - 1;
      return Ok(frame);
    }

    /** A second-level table and the last-level tables it points to, in the order they are given back. */
    method FreePd(p: Path, pd: Frame) returns (fs: seq<Frame>)
      requires Tree(Abs(), HALF) && |p| == 2 && Short(p, HALF) && TableAt(Abs(), p) == Some(pd)
      ensures fs == From(Abs(), p)
    {
      fs := [];
      for k := 0 to Width(p)
        invariant fs == Below(Abs(), p, k)
      {
        ChildStep(Abs(), p, pd, k);
        if mem[pd][k].present {
          fs := fs + [mem[pd][k].frame];
        }
      }
      fs := fs + [pd];
    }

    method FreePdptEntry(p: Path, pdpt: Frame, j: nat) returns (fs: seq<Frame>)
      requires Tree(Abs(), HALF) && |p| == 1 && Short(p, HALF) && TableAt(Abs(), p) == Some(pdpt) && j < Width(p)
      ensures fs == From(Abs(), p + [j])
    {
      ChildStep(Abs(), p, pdpt, j);
      if mem[pdpt][j].present {
        var q: Path := p + [j];
        fs := FreePd(q, mem[pdpt][j].frame);
      } else {
        fs := [];
      }
    }

    method FreePdpt(p: Path, pdpt: Frame) returns (fs: seq<Frame>)
      requires Tree(Abs(), HALF) && |p| == 1 && Short(p, HALF) && TableAt(Abs(), p) == Some(pdpt)
      ensures fs == From(Abs(), p)
    {
      fs := [];
      for j := 0 to Width(p)
        invariant fs == Below(Abs(), p, j)
      {
        var more := FreePdptEntry(p, pdpt, j);
        fs := fs + more;
      }
      fs := fs + [pdpt];
    }

    method FreeRoot(p: Path) returns (fs: seq<Frame>)
      requires Tree(Abs(), HALF) && p == []
      ensures fs == From(Abs(), p)
    {
      fs := [];
      for i := 0 to Width(p)
        invariant fs == Below(Abs(), p, i)
      {
        ChildStep(Abs(), p, root, i);
        if mem[root][i].present {
          var more := FreePdpt(p + [i], mem[root][i].frame);
          fs := fs + more;
        }
      }
      fs := fs + [root];
    }

    /** Gives back every user table; the frames of the pages themselves stay with the caller. */
    method Destroy()
      requires Tree(Abs(), HALF)
      modifies this`freed, this`active
      ensures !active && freed == old(freed) + if old(active) then From(Abs(), []) else []
    {
      if active {
        var fs := FreeRoot([]);
        freed := freed + fs;
        active := false;
      }
    }
  }
}
