/** Boot: the kernel's own page table and the first processes. */
module Boot {
  import opened Arithmetic
  import opened Paging
  import opened Physical
  import opened Walks
  import opened Growth
  import opened VmIter
  import opened Spaces
  import opened KernelSpec
  import opened Forking
  import opened Steps
  import opened Runs
  import opened Isolation
  import opened Effects
  import opened Kernel
  import opened Sets

  // ----- The kernel page table

  /** The five pages as `init_kernel_memory` links them: three gigabyte pages besides. */
  ghost predicate StaticTables(mem: seq<Frame>) {
    && |mem| == NPAGES
    && mem[KERNEL_PT] == Filled(ZERO)[0 := Word(KERNEL_PT + 1, PWU, 0)]
    && mem[KERNEL_PT + 1] ==
       Filled(ZERO)[0 := Word(KERNEL_PT + 2, PWU, 0)][1 := Gigabyte(1)][2 := Gigabyte(2)][3 := Gigabyte(3)]
    && mem[KERNEL_PT + 2] == Filled(ZERO)[0 := Word(KERNEL_PT + 3, PWU, 0)][1 := Word(KERNEL_PT + 4, PWU, 0)]
    && mem[KERNEL_PT + 4] == Filled(ZERO)
    && PhysicalOnly(mem[KERNEL_PT + 3])
  }

  predicate PhysicalOnly(f: Frame) {
    forall i: nat :: i < 512 ==> f[i].pfn < NPAGES
  }

  function Gigabyte(n: nat): Word {
    Word(n * 0x4_0000, Perm(true, true, false, true), 0)
  }

  /** Which page is which table. */
  function StaticTable(l: nat, q: nat): Option<nat> {
    if l <= 3 && q == 0 then Some(KERNEL_PT + 3 - l)
    else if l == 0 && q == 1 then Some(KERNEL_PT + 4)
    else None
  }

  lemma {:induction false} StaticTableAt(mem: seq<Frame>, l: nat, q: nat)
    requires StaticTables(mem) && l <= 3
    ensures Table(mem, KERNEL_PT, l, q) == StaticTable(l, q)
    decreases 3 - l
  {
    if l < 3 {
      StaticTableAt(mem, l + 1, q / 512);
    }
  }

  lemma StaticTablesLink(mem: seq<Frame>)
    requires StaticTables(mem)
    ensures KernelLinks(mem) && TreeShaped(mem, KERNEL_PT)
  {
    forall l: nat, q: nat, f: nat ensures IsTable(mem, KERNEL_PT, l, q, f) <==> StaticTable(l, q) == Some(f) {
      if l <= 3 { StaticTableAt(mem, l, q); }
    }
    forall l: nat, q: nat, f: nat, i: nat | IsTable(mem, KERNEL_PT, l, q, f) && i < 512
      ensures mem[f][i].pfn < 0x10_0000 && (l > 0 && IsLink(mem[f][i]) ==> mem[f][i].pfn < |mem|)
    {
      assert f == KERNEL_PT || f == KERNEL_PT + 1 || f == KERNEL_PT + 2 || f == KERNEL_PT + 3 || f == KERNEL_PT + 4;
    }
  }

  /** The entries of the bottom table page for the first `n` pages are set by `kernel()`. */
  ghost predicate MappedBelow(mem: seq<Frame>, n: nat)
    requires |mem| == NPAGES
  {
    forall v: nat :: v < n && v < NPAGES ==>
      mem[KERNEL_PT + 3][v] == if v < PROC_START then KernelEntry(v) else Word(v, PWU, 0)
  }

  /** The page-table part of `init_kernel_memory`: the table pages, then a first map of physical memory, open to
      user code except for page 0. */
  method InitKernelMemory(m: Machine)
    requires m.Sized()
    modifies m
    ensures m.Sized() && StaticTables(m.mem) && m.refcount == old(m.refcount)
    ensures FirstMap(m.mem[KERNEL_PT + 3], NPAGES)
    ensures forall va: nat :: va < ADDRESS_SPACE ==>
              Translate(m.mem, KERNEL_PT, va) ==
                if 0x1000 <= va < 0x20_0000 then Some(Access(va, true, true))
                else if 0x4000_0000 <= va < 0x1_0000_0000 then Some(Access(va, true, false)) else None
  {
    hide FirstMap, StaticTables, Closed, TreeShaped, TablesHeld, KernelLinks, Walk, Leaf, Grown, PlainLinks, Translate;
    LinkKernelTables(m);
    StaticTablesLink(m.mem);
    LinksClosed(m.mem);
    var it := new Vmiter(m, KERNEL_PT);
    ghost var v: nat := 0;
    while it.va < NPAGES * PAGESIZE
      invariant it.m == m && it.pt == KERNEL_PT && it.va == v * PAGESIZE && v <= NPAGES && it.Fresh() && m.Sized()
      invariant StaticTables(m.mem) && KernelLinks(m.mem) && TreeShaped(m.mem, KERNEL_PT)
      invariant m.refcount == old(m.refcount) && FirstMap(m.mem[KERNEL_PT + 3], v)
      decreases NPAGES - v
    {
      KernelWalk(m.mem, it.va);
      StaticHeld(m.mem, m.refcount);
      PageAddress(v);
      FirstMapGrows(m.mem[KERNEL_PT + 3], v);
      if it.va != 0 {
        ghost var before := m.mem;
        var ok, g := it.TryMap(Some(it.va / PAGESIZE), PWU);
        EntryWritten(before, m.mem, v, Word(v, PWU, 0));
      }
      it.Advance(PAGESIZE);
      v := v + 1;
    }
    assert v == NPAGES;
    forall va: nat | va < ADDRESS_SPACE
      ensures Translate(m.mem, KERNEL_PT, va) ==
                if 0x1000 <= va < 0x20_0000 then Some(Access(va, true, true))
                else if 0x4000_0000 <= va < 0x1_0000_0000 then Some(Access(va, true, false)) else None
    {
      if va < 0x20_0000 {
        FirstTranslate(m.mem, va);
      } else {
        HighTranslate(m.mem, va);
      }
    }
  }

  /** Physical memory after `init_kernel_memory`: each address but those of page 0 to itself. */
  lemma FirstTranslate(mem: seq<Frame>, va: nat)
    requires StaticTables(mem) && FirstMap(mem[KERNEL_PT + 3], NPAGES) && va < 0x20_0000
    ensures Translate(mem, KERNEL_PT, va) == if va < 0x1000 then None else Some(Access(va, true, true))
  {
    hide FirstMap;
    assert va / 0x80_0000_0000 % 512 == 0 && va / 0x4000_0000 % 512 == 0 && va / 0x20_0000 % 512 == 0;
    FirstEntry(mem[KERNEL_PT + 3], va / 0x1000);
    assert va / 0x1000 % 512 == va / 0x1000 && va == va / 0x1000 * 0x1000 + va % 0x1000;
  }

  lemma FirstEntry(t: Frame, v: nat)
    requires FirstMap(t, NPAGES) && v < NPAGES
    ensures t[v] == if v == 0 then ZERO else Word(v, PWU, 0)
  {
  }

  /** Beyond physical memory: from 1 to 4 GBytes each address to itself, for the kernel only, and nothing else. */
  lemma HighTranslate(mem: seq<Frame>, va: nat)
    requires StaticTables(mem) && 0x20_0000 <= va < ADDRESS_SPACE
    ensures Translate(mem, KERNEL_PT, va) ==
              if 0x4000_0000 <= va < 0x1_0000_0000 then Some(Access(va, true, false)) else None
  {
    var a, b, c := va / 0x80_0000_0000 % 512, va / 0x4000_0000 % 512, va / 0x20_0000 % 512;
    if va < 0x80_0000_0000 {
      LowIndices(va);
      if 1 <= b <= 3 {
        assert mem[KERNEL_PT + 1][b] == Gigabyte(b);
        assert Gigabyte(b).pfn % 0x4_0000 == 0 && Gigabyte(b).pfn / 0x4_0000 == b;
      } else if b == 0 {
        assert mem[KERNEL_PT + 2][c] == if c == 1 then Word(KERNEL_PT + 4, PWU, 0) else ZERO;
      }
    } else if Canonical(va) {
      HighIndex(va);
    }
  }

  lemma LowIndices(va: nat)
    requires 0x20_0000 <= va < 0x80_0000_0000
    ensures va / 0x80_0000_0000 % 512 == 0
    ensures var b := va / 0x4000_0000 % 512;
            && va == b * 0x4000_0000 + va % 0x4000_0000
            && (1 <= b <= 3 <==> 0x4000_0000 <= va < 0x1_0000_0000)
            && (b == 0 ==> va / 0x20_0000 % 512 > 0)
  {
    Parts(va, 0x4000_0000);
  }

  lemma HighIndex(va: nat)
    requires 0x80_0000_0000 <= va < ADDRESS_SPACE && Canonical(va)
    ensures va / 0x80_0000_0000 % 512 > 0
  {
    if va >= VA_HIGHMIN {
      assert va / 0x80_0000_0000 >= 0x1FF_FF00;
    }
  }

  /** The first `n` pages of physical memory, except page 0, are mapped to themselves by this bottom table page. */
  ghost predicate FirstMap(t: Frame, n: nat) {
    forall w: nat :: w < NPAGES ==> t[w] == if w == 0 || w >= n then ZERO else Word(w, PWU, 0)
  }

  lemma FirstMapGrows(t: Frame, v: nat)
    requires FirstMap(t, v) && v < NPAGES
    ensures if v == 0 then FirstMap(t, 1) else FirstMap(t[v := Word(v, PWU, 0)], v + 1)
  {
  }

  /** The table writes of `init_kernel_memory`. */
  method LinkKernelTables(m: Machine)
    requires m.Sized()
    modifies m`mem
    ensures m.Sized() && StaticTables(m.mem) && FirstMap(m.mem[KERNEL_PT + 3], 0)
  {
    var i := 0;
    while i < 5
      invariant i <= 5 && m.Sized() && forall k: nat :: KERNEL_PT <= k < KERNEL_PT + i ==> m.mem[k] == Filled(ZERO)
    {
      m.mem := m.mem[KERNEL_PT + i := Filled(ZERO)];
      i := i + 1;
    }
    m.mem := m.mem[KERNEL_PT := m.mem[KERNEL_PT][0 := Word(KERNEL_PT + 1, PWU, 0)]];
    m.mem := m.mem[KERNEL_PT + 1 := m.mem[KERNEL_PT + 1][0 := Word(KERNEL_PT + 2, PWU, 0)]];
    m.mem := m.mem[KERNEL_PT + 2 := m.mem[KERNEL_PT + 2][0 := Word(KERNEL_PT + 3, PWU, 0)]];
    m.mem := m.mem[KERNEL_PT + 2 := m.mem[KERNEL_PT + 2][1 := Word(KERNEL_PT + 4, PWU, 0)]];
    m.mem := m.mem[KERNEL_PT + 1 := m.mem[KERNEL_PT + 1][1 := Gigabyte(1)]];
    m.mem := m.mem[KERNEL_PT + 1 := m.mem[KERNEL_PT + 1][2 := Gigabyte(2)]];
    m.mem := m.mem[KERNEL_PT + 1 := m.mem[KERNEL_PT + 1][3 := Gigabyte(3)]];
  }

  lemma StaticHeld(mem: seq<Frame>, r: seq<nat>)
    requires KernelLinks(mem) && |r| == NPAGES
    ensures TablesHeld(mem, r, KERNEL_PT)
  {
  }

  /** The loop of `kernel()` that initialises the kernel page table. */
  method InitKernelTable(m: Machine)
    requires m.Sized() && StaticTables(m.mem)
    modifies m
    ensures m.Sized() && KernelTableOk(m.mem) && m.refcount == old(m.refcount)
    ensures forall va: nat :: va < ADDRESS_SPACE ==>
              Translate(m.mem, KERNEL_PT, va) ==
                if va < 0x20_0000 then Some(Access(va, true, va / 0x1000 == 0xB8 || va >= 0x10_0000))
                else if 0x4000_0000 <= va < 0x1_0000_0000 then Some(Access(va, true, false)) else None
  {
    hide StaticTables, Closed, TreeShaped, TablesHeld, KernelLinks, Walk, Leaf, Grown, PlainLinks, Translate;
    StaticTablesLink(m.mem);
    LinksClosed(m.mem);
    var it := new Vmiter(m, KERNEL_PT);
    ghost var v := 0;
    while it.va < NPAGES * PAGESIZE
      invariant it.m == m && it.pt == KERNEL_PT && it.va == v * PAGESIZE && v <= NPAGES && it.Fresh() && m.Sized()
      invariant StaticTables(m.mem) && KernelLinks(m.mem) && TreeShaped(m.mem, KERNEL_PT) && MappedBelow(m.mem, v)
      invariant m.refcount == old(m.refcount)
      decreases NPAGES - v
    {
      KernelWalk(m.mem, it.va);
      StaticHeld(m.mem, m.refcount);
      PageAddress(v);
      ghost var before := m.mem;
      var p := if it.va < PROC_START * PAGESIZE && it.va != CONSOLE_PFN * PAGESIZE then PW else PWU;
      var ok, g := it.TryMap(Some(it.va / PAGESIZE), p);
      IdentityWritten(before, m.mem, v, p);
      it.Advance(PAGESIZE);
      v := v + 1;
    }
    AllMapped(m.mem);
    forall va: nat | va < ADDRESS_SPACE
      ensures Translate(m.mem, KERNEL_PT, va) ==
                if va < 0x20_0000 then Some(Access(va, true, va / 0x1000 == 0xB8 || va >= 0x10_0000))
                else if 0x4000_0000 <= va < 0x1_0000_0000 then Some(Access(va, true, false)) else None
    {
      if va < 0x20_0000 {
        KernelTranslate(m.mem, va);
      } else {
        HighTranslate(m.mem, va);
      }
    }
  }

  lemma AllMapped(mem: seq<Frame>)
    requires KernelLinks(mem) && MappedBelow(mem, NPAGES)
    ensures KernelTableOk(mem)
  {
  }

  lemma LinksClosed(mem: seq<Frame>)
    requires KernelLinks(mem)
    ensures |mem| == NPAGES && Closed(mem, KERNEL_PT)
  {
  }

  /** Writing an entry of the bottom table page for physical memory keeps the shape of the kernel's tables. */
  lemma EntryWritten(m0: seq<Frame>, m1: seq<Frame>, v: nat, e: Word)
    requires StaticTables(m0) && v < NPAGES && e.pfn < NPAGES
    requires m1 == m0[KERNEL_PT + 3 := m0[KERNEL_PT + 3][v := e]]
    ensures StaticTables(m1) && KernelLinks(m1) && TreeShaped(m1, KERNEL_PT)
  {
    StaticTablesLink(m1) by {
      assert StaticTables(m1);
    }
  }

  lemma IdentityWritten(m0: seq<Frame>, m1: seq<Frame>, v: nat, p: Perm)
    requires StaticTables(m0) && v < NPAGES && MappedBelow(m0, v)
    requires p == if v < PROC_START && v != CONSOLE_PFN then PW else PWU
    requires m1 == m0[KERNEL_PT + 3 := m0[KERNEL_PT + 3][v := Word(v, p, 0)]]
    ensures StaticTables(m1) && KernelLinks(m1) && TreeShaped(m1, KERNEL_PT) && MappedBelow(m1, v + 1)
  {
    hide StaticTables;
    StaticSizes(m0);
    EntryWritten(m0, m1, v, Word(v, p, 0));
  }

  lemma StaticSizes(mem: seq<Frame>)
    requires StaticTables(mem)
    ensures |mem| == NPAGES
  {
  }

  /** With the kernel page table set up and no process, the invariant holds and counts are exact. */
  lemma NoProcesses(s: State)
    requires KernelTableOk(s.mem) && s.refcount == seq(NPAGES, _ => 0) && s.current == 1 && s.viewer == None
    requires s.procs == seq(NPROC, (i: nat) => Proc(0, i, PFree, Regs(0, 0, 0, [])))
    ensures Inv(s) && Exact(s)
  {
    forall f: nat ensures Users(s, f, NPROC) == 0 { NoUsers(s, f, NPROC); }
  }

  lemma {:induction false} NoUsers(s: State, f: nat, n: nat)
    requires forall i: nat :: !Live(s, i)
    ensures Users(s, f, n) == 0
  {
    if n > 0 { NoUsers(s, f, n - 1); }
  }

  // ----- Loading a process

  /** A page table under construction from free frames only, with `n` user pages so far. */
  ghost predicate Loading(m0: seq<Frame>, r0: seq<nat>, m: seq<Frame>, r: seq<nat>, root: nat, n: nat) {
    && |m0| == |r0| == |m| == |r| == NPAGES
    && Space(m, root)
    && (forall f: nat :: f < NPAGES && !Free(r0, f) ==> m[f] == m0[f])
    && (forall f: nat :: f < NPAGES ==> r[f] == r0[f] + if Holds(m, root, f) then 1 else 0)
    && (forall f: nat :: Holds(m, root, f) ==> f < NPAGES && Free(r0, f))
    && FreeCount(r) + Tables(m, root) + n == FreeCount(r0)
  }

  lemma LoadingStarts(m0: seq<Frame>, r0: seq<nat>, root: nat)
    requires |m0| == |r0| == NPAGES && root < NPAGES && Free(r0, root)
    ensures var m := m0[root := Filled(ZERO)];
            Loading(m0, r0, m, r0[root := 1], root, 0) && forall v: nat :: Leaf(m, root, v) == ZERO
  {
    var m := m0[root := Filled(ZERO)];
    CopyingStarts(m0, r0, root, root);
    EmptySpace(m, root);
  }

  lemma LoadingAllHeld(m0: seq<Frame>, r0: seq<nat>, m: seq<Frame>, r: seq<nat>, root: nat, n: nat)
    requires Loading(m0, r0, m, r, root, n)
    ensures |m0| == |r0| == |m| == |r| == NPAGES && Space(m, root) && AllHeld(m, r, root)
  {
  }

  /** What an entry may be: the kernel's, or the frame just taken. */
  predicate LoadEntry(v: nat, x: Option<nat>, e: Word) {
    match x
    case None => v < PROC_START && e == KernelEntry(v)
    case Some(f) => PROC_START <= v < VIRTUAL_END && (e == Word(f, PWU, 0) || e == Word(f, PU, 0))
  }

  lemma PageLoaded(m0: seq<Frame>, r0: seq<nat>, m: seq<Frame>, r: seq<nat>, root: nat, n: nat, v: nat,
                   x: Option<nat>, m1: seq<Frame>, r1: seq<nat>, m2: seq<Frame>, r2: seq<nat>, g: map<nat, nat>,
                       e: Word)
    requires Loading(m0, r0, m, r, root, n) && v < VIRTUAL_END && Leaf(m, root, v) == ZERO
    requires FrameTaken(m, r, Filled(INT3), x, m1, r1) && LoadEntry(v, x, e)
    requires Grown(m1, r1, m2, r2, root, v * PAGESIZE, g) && Closed(m2, root) && PlainLinks(m2, root)
    requires MappedTo(m1, m2, root, v * PAGESIZE, g, e)
    ensures Loading(m0, r0, m2, r2, root, n + if x.Some? then 1 else 0)
  {
    hide Closed, PlainLinks, TablesOk, LeavesOk, HeldOnce, Table;
    LoadingAllHeld(m0, r0, m, r, root, n);
    FrameTakenKeeps(m, r, Filled(INT3), x, m1, r1, root);
    PageAddress(v);
    FreshTables(m1, r1, root, r2, g);
    assert UserEntry(e) ==> e.pfn !in g.Values && !Holds(m1, root, e.pfn);
    SpaceMap(m1, m2, root, v * PAGESIZE, g, e);
    TablesGrow(m1, m2, root, v * PAGESIZE, g);
    assert Tables(m1, root) == Tables(m, root);
    if x.Some? { TakeFree(r, x.value, 1); }
    forall f: nat
      ensures Holds(m2, root, f) <==> Holds(m1, root, f) || f in g.Values || x == Some(f)
    {
      assert HeldOnce(m1, root);
      HoldsAfter(m1, m2, root, v * PAGESIZE, g, e, f);
      assert !Refers(m1, root, PageUse(v), f);
    }
    LoadedCounts(m0, r0, m, r, root, n, x, m1, r1, m2, r2, g);
  }

  lemma LoadedCounts(m0: seq<Frame>, r0: seq<nat>, m: seq<Frame>, r: seq<nat>, root: nat, n: nat,
                     x: Option<nat>, m1: seq<Frame>, r1: seq<nat>, m2: seq<Frame>, r2: seq<nat>, g: map<nat, nat>)
    requires Loading(m0, r0, m, r, root, n) && FrameTaken(m, r, Filled(INT3), x, m1, r1)
    requires GrownCounts(r1, r2, g) && OthersKept(m1, r1, m2, root)
    requires forall f: nat :: Holds(m1, root, f) <==> Holds(m, root, f)
    requires x.Some? ==> !Holds(m, root, x.value)
    requires forall f: nat :: Holds(m2, root, f) <==> Holds(m1, root, f) || f in g.Values || x == Some(f)
    ensures forall f: nat :: f < NPAGES && !Free(r0, f) ==> m2[f] == m0[f]
    ensures forall f: nat :: f < NPAGES ==> r2[f] == r0[f] + if Holds(m2, root, f) then 1 else 0
    ensures forall f: nat :: Holds(m2, root, f) ==> f < NPAGES && Free(r0, f)
  {
    hide Space;
    forall f: nat | f < NPAGES && !Free(r0, f) ensures m2[f] == m0[f] {
      assert !Free(r1, f);
      assert !Owns(m1, root, f) by { UnheldIsNoTable(m1, root, f); }
    }
    forall f: nat | f in g.Values ensures f < NPAGES && Free(r1, f) && r2[f] == 1 {
      var l: nat :| l in g && g[l] == f;
    }
    hide Holds;
  }

  /** With frames for five table pages besides the user pages, mapping a page never fails. */
  lemma NeverOut(m0: seq<Frame>, r0: seq<nat>, m: seq<Frame>, r: seq<nat>, root: nat, n: nat, v: nat,
                 x: Option<nat>, m1: seq<Frame>, r1: seq<nat>, m2: seq<Frame>, r2: seq<nat>, g: map<nat, nat>)
    requires Loading(m0, r0, m, r, root, n) && v < VIRTUAL_END && FrameTaken(m, r, Filled(INT3), x, m1, r1)
    requires Grown(m1, r1, m2, r2, root, v * PAGESIZE, g)
    requires FreeCount(r0) >= 5 + n + if x.Some? then 1 else 0
    requires Table(m2, root, 0, v / 512) == None
    ensures FreeCount(r2) > 0
  {
    hide Space, Holds, OthersKept, Leaf;
    LoadingAllHeld(m0, r0, m, r, root, n);
    FrameTakenKeeps(m, r, Filled(INT3), x, m1, r1, root);
    PageAddress(v);
    TablesGrow(m1, m2, root, v * PAGESIZE, g);
    if x.Some? { TakeFree(r, x.value, 1); }
    assert v / 512 == 0 || v / 512 == 1;
    assert Tables(m2, root) < 5;
  }

  /** `process_iterator.map(...)` at page `v`, after the frame `x` has been taken; its assertion holds. */
  method LoadAt(k: Machine, it: Vmiter, v: nat, x: Option<nat>, e: Word,
                ghost m0: seq<Frame>, ghost r0: seq<nat>, ghost m: seq<Frame>, ghost r: seq<nat>, ghost n: nat)
    requires k.Sized() && it.m == k && it.Fresh() && v < VIRTUAL_END && it.va == v * PAGESIZE
    requires Loading(m0, r0, m, r, it.pt, n) && FrameTaken(m, r, Filled(INT3), x, k.mem, k.refcount)
    requires Leaf(m, it.pt, v) == ZERO && LoadEntry(v, x, e) && FreeCount(r0) >= 5 + n + if x.Some? then 1 else 0
    modifies it, k
    ensures k.Sized() && it.Fresh() && it.va == v * PAGESIZE
    ensures Loading(m0, r0, k.mem, k.refcount, it.pt, n + if x.Some? then 1 else 0)
    ensures forall w: nat :: Leaf(k.mem, it.pt, w) == if w == v then e else Leaf(m, it.pt, w)
  {
    hide AllHeld, Space, TreeShaped, TablesHeld, PlainLinks, Leaf, GrownTables, GrownCounts, OthersKept, Table, Walk,
         Loading, FrameTaken, Closed;
    LoadingAllHeld(m0, r0, m, r, it.pt, n);
    FrameTakenKeeps(m, r, Filled(INT3), x, k.mem, k.refcount, it.pt);
    MapReady(k.mem, k.refcount, it.pt, v);
    ghost var m1, r1 := k.mem, k.refcount;
    LoadEntryFits(v, x, e);
    var ok, g := it.TryMap(Some(e.pfn), e.perm);
    WalkToLeaf(k.mem, it.pt, v * PAGESIZE);
    if Table(k.mem, it.pt, 0, v / 512) == None {
      NeverOut(m0, r0, m, r, it.pt, n, v, x, m1, r1, k.mem, k.refcount, g);
    }
    assert ok;
    assert MappedTo(m1, k.mem, it.pt, v * PAGESIZE, g, e);
    PageLoaded(m0, r0, m, r, it.pt, n, v, x, m1, r1, k.mem, k.refcount, g, e);
  }

  lemma LoadEntryFits(v: nat, x: Option<nat>, e: Word)
    requires LoadEntry(v, x, e) && (x.Some? ==> x.value < NPAGES) && v < VIRTUAL_END
    ensures e.perm.p && e.pfn < 0x10_0000 && e == Word(e.pfn, e.perm, 0) && e.perm != NO_PERM
            && PWU.Covers(e.perm.And(PWU))
  {
  }

  // ----- process_setup

  /** A loadable segment: the pages from the one containing `va` up to `va + size`. */
  datatype Segment = Segment(va: nat, size: nat, writable: bool) {
    function First(): nat {
      va / PAGESIZE
    }

    /** One past the last page the loading loop visits. */
    function Last(): nat {
      if va + size > First() * PAGESIZE then (va + size - 1) / PAGESIZE + 1 else First()
    }
  }

  /** The pages of a segment below `end`, in loading order, with their writability. */
  function SegmentPages(g: Segment, end: nat): seq<(nat, bool)>
    requires g.First() <= end
  {
    seq(end - g.First(), (k: nat) => (g.First() + k, g.writable))
  }

  /** The pages of all segments, in loading order. */
  function ProgramPages(segs: seq<Segment>): seq<(nat, bool)> {
    if segs == [] then []
    else ProgramPages(segs[..|segs| - 1]) + SegmentPages(segs[|segs| - 1], segs[|segs| - 1].Last())
  }

  /** User pages, all different. */
  ghost predicate DistinctPages(pages: seq<(nat, bool)>) {
    && (forall i: nat :: i < |pages| ==> PROC_START <= pages[i].0 < VIRTUAL_END)
    && (forall i: nat, j: nat :: i < j < |pages| ==> pages[i].0 != pages[j].0)
  }

  function PagePerm(writable: bool): Perm {
    if writable then PWU else PU
  }

  /** Exactly these user pages are mapped, with these permissions. */
  ghost predicate PagesLoaded(mem: seq<Frame>, root: nat, pages: seq<(nat, bool)>) {
    && (forall i: nat :: i < |pages| ==> Leaf(mem, root, pages[i].0).perm == PagePerm(pages[i].1))
    && (forall v: nat :: v >= PROC_START && Leaf(mem, root, v) != ZERO ==>
       exists i: nat :: i < |pages| && pages[i].0 == v)
  }

  ghost predicate KernelLoaded(mem: seq<Frame>, root: nat, n: nat) {
    && (forall v: nat :: v < n && v < PROC_START ==> Leaf(mem, root, v) == KernelEntry(v))
    && (forall v: nat :: n <= v < PROC_START ==> Leaf(mem, root, v) == ZERO)
  }

  /** The loading loops run through a prefix of the program's pages. */
  lemma {:induction false} PagesPrefix(segs: seq<Segment>, i: nat, end: nat)
    requires i < |segs| && segs[i].First() <= end <= segs[i].Last()
    ensures ProgramPages(segs[..i]) + SegmentPages(segs[i], end) <= ProgramPages(segs)
    decreases |segs|
  {
    var n := |segs| - 1;
    if i == n {
      assert SegmentPages(segs[n], end) <= SegmentPages(segs[n], segs[n].Last());
    } else {
      assert segs[..n][..i] == segs[..i] && segs[..n][i] == segs[i];
      PagesPrefix(segs[..n], i, end);
    }
  }

  lemma PrefixDistinct(p: seq<(nat, bool)>, q: seq<(nat, bool)>)
    requires p <= q && DistinctPages(q)
    ensures DistinctPages(p)
  {
    assert forall i: nat :: i < |p| ==> p[i] == q[i];
  }

  /** One more page. */
  lemma PageAppended(m0: seq<Frame>, m1: seq<Frame>, root: nat, pages: seq<(nat, bool)>, v: nat, writable: bool,
                     e: Word)
    requires PagesLoaded(m0, root, pages) && KernelLoaded(m0, root, PROC_START)
             && DistinctPages(pages + [(v, writable)])
    requires e.perm == PagePerm(writable)
    requires forall w: nat :: Leaf(m1, root, w) == if w == v then e else Leaf(m0, root, w)
    ensures PagesLoaded(m1, root, pages + [(v, writable)]) && KernelLoaded(m1, root, PROC_START)
  {
    var all := pages + [(v, writable)];
    assert all[|pages|] == (v, writable);
    assert forall i: nat :: i < |pages| ==> all[i] == pages[i] && all[i].0 != all[|pages|].0;
    forall w: nat | w >= PROC_START && Leaf(m1, root, w) != ZERO ensures exists i: nat :: i < |all| && all[i].0 == w {
      if w == v {
        assert all[|pages|].0 == w;
      } else {
        var i: nat :| i < |pages| && pages[i].0 == w;
        assert all[i].0 == w;
      }
    }
  }

  lemma NotMappedYet(mem: seq<Frame>, root: nat, pages: seq<(nat, bool)>, v: nat, writable: bool)
    requires PagesLoaded(mem, root, pages) && DistinctPages(pages + [(v, writable)])
    ensures PROC_START <= v < VIRTUAL_END && Leaf(mem, root, v) == ZERO
  {
    var all := pages + [(v, writable)];
    assert all[|pages|] == (v, writable);
    assert forall i: nat :: i < |pages| ==> all[i] == pages[i] && all[i].0 != all[|pages|].0;
  }

  /** Allocate a page and map it at page `v`: the body of the segment loop, and the stack. */
  method LoadUserPage(k: Machine, it: Vmiter, v: nat, writable: bool,
                      ghost m0: seq<Frame>, ghost r0: seq<nat>, ghost pages: seq<(nat, bool)>)
    requires k.Sized() && it.m == k && it.Fresh()
    requires Loading(m0, r0, k.mem, k.refcount, it.pt, |pages|) && FreeCount(r0) >= 6 + |pages|
    requires PagesLoaded(k.mem, it.pt, pages) && KernelLoaded(k.mem, it.pt, PROC_START)
             && DistinctPages(pages + [(v, writable)])
    modifies it, k
    ensures k.Sized() && it.Fresh() && it.va == v * PAGESIZE
    ensures Loading(m0, r0, k.mem, k.refcount, it.pt, |pages| + 1)
    ensures PagesLoaded(k.mem, it.pt, pages + [(v, writable)]) && KernelLoaded(k.mem, it.pt, PROC_START)
  {
    hide Loading, PagesLoaded, KernelLoaded, DistinctPages, Leaf, Walk, Closed, AllHeld, Space, Table, FrameTaken;
    NotMappedYet(k.mem, it.pt, pages, v, writable);
    LoadingFree(m0, r0, k.mem, k.refcount, it.pt, |pages|);
    ghost var m, r := k.mem, k.refcount;
    LoadingAllHeld(m0, r0, m, r, it.pt, |pages|);
    PageAddress(v);
    var pa := k.Kalloc(PAGESIZE);
    assert FrameTaken(m, r, Filled(INT3), pa, k.mem, k.refcount) by { TakenHere(m, r, pa, k.mem, k.refcount); }
    FrameTakenKeeps(m, r, Filled(INT3), pa, k.mem, k.refcount, it.pt);
    SpaceClosed(k.mem, it.pt);
    it.RealFind(v * PAGESIZE);
    LoadAt(k, it, v, pa, Word(pa.value, PagePerm(writable), 0), m0, r0, m, r, |pages|);
    PageAppended(m, k.mem, it.pt, pages, v, writable, Word(pa.value, PagePerm(writable), 0));
  }

  lemma TakenHere(m: seq<Frame>, r: seq<nat>, x: Option<nat>, m1: seq<Frame>, r1: seq<nat>)
    requires |m| == |r| == NPAGES && x.Some? && x.value < NPAGES && Free(r, x.value)
    requires m1 == m[x.value := Filled(INT3)] && r1 == r[x.value := 1]
    ensures FrameTaken(m, r, Filled(INT3), x, m1, r1)
  {
  }

  lemma LoadingFree(m0: seq<Frame>, r0: seq<nat>, m: seq<Frame>, r: seq<nat>, root: nat, n: nat)
    requires Loading(m0, r0, m, r, root, n) && FreeCount(r0) >= 6 + n
    ensures FreeCount(r) > 0
  {
    hide Space, Holds;
  }

  /** The loop that copies the kernel mappings. */
  method LoadKernelPages(k: Machine, it: Vmiter, ghost m0: seq<Frame>, ghost r0: seq<nat>)
    requires k.Sized() && it.m == k && it.Fresh() && it.va == 0 && KernelTableOk(m0)
    requires |r0| == NPAGES && FreeCount(r0) >= 5
    requires Loading(m0, r0, k.mem, k.refcount, it.pt, 0) && forall v: nat :: Leaf(k.mem, it.pt, v) == ZERO
    modifies it, k
    ensures k.Sized() && it.Fresh()
    ensures Loading(m0, r0, k.mem, k.refcount, it.pt, 0)
    ensures KernelLoaded(k.mem, it.pt, PROC_START) && PagesLoaded(k.mem, it.pt, [])
  {
    hide Loading, PagesLoaded, KernelLoaded, Leaf, Walk, Closed, AllHeld, Space, Table, KernelTableOk, FrameTaken,
         KernelLinks;
    KernelInLoading(m0, r0, k.mem, k.refcount, it.pt, 0);
    NothingLoaded(k.mem, it.pt);
    var kit := new Vmiter(k, KERNEL_PT);
    ghost var v := 0;
    while kit.va < PROC_START * PAGESIZE
      invariant k.Sized() && it.m == k && it.Fresh() && kit != it && kit.m == k && kit.pt == KERNEL_PT && kit.Fresh()
      invariant v <= PROC_START && it.va == kit.va == v * PAGESIZE
      invariant Loading(m0, r0, k.mem, k.refcount, it.pt, 0)
      invariant KernelLoaded(k.mem, it.pt, v) && PagesLoaded(k.mem, it.pt, [])
      decreases PROC_START - v
    {
      ghost var m, r := k.mem, k.refcount;
      PageAddress(v);
      KernelInLoading(m0, r0, m, r, it.pt, v);
      KernelPageAt(m, v);
      NotLoadedYet(m, it.pt, v);
      TakenNothing(m0, r0, m, r, it.pt, 0);
      LoadAt(k, it, it.va / PAGESIZE, None, Word(kit.CurrentPa().value / PAGESIZE, kit.CurrentPerm(), 0), m0, r0, m,
          r, 0);
      KernelPageLoaded(m, k.mem, it.pt, v);
      KernelInLoading(m0, r0, k.mem, k.refcount, it.pt, v);
      KernelWalksSame(m, k.mem, kit.va);
      it.Advance(PAGESIZE);
      kit.Advance(PAGESIZE);
      v := v + 1;
    }
  }

  lemma TakenNothing(m0: seq<Frame>, r0: seq<nat>, m: seq<Frame>, r: seq<nat>, root: nat, n: nat)
    requires Loading(m0, r0, m, r, root, n)
    ensures |m| == |r| == NPAGES && FrameTaken(m, r, Filled(INT3), None, m, r)
  {
  }

  lemma NothingLoaded(mem: seq<Frame>, root: nat)
    requires forall v: nat :: Leaf(mem, root, v) == ZERO
    ensures KernelLoaded(mem, root, 0) && PagesLoaded(mem, root, [])
  {
  }

  lemma NotLoadedYet(mem: seq<Frame>, root: nat, v: nat)
    requires KernelLoaded(mem, root, v) && v < PROC_START
    ensures Leaf(mem, root, v) == ZERO && LoadEntry(v, None, KernelEntry(v))
  {
  }

  lemma KernelPageLoaded(m0: seq<Frame>, m1: seq<Frame>, root: nat, v: nat)
    requires KernelLoaded(m0, root, v) && PagesLoaded(m0, root, []) && v < PROC_START
    requires forall w: nat :: Leaf(m1, root, w) == if w == v then KernelEntry(v) else Leaf(m0, root, w)
    ensures KernelLoaded(m1, root, v + 1) && PagesLoaded(m1, root, [])
  {
    hide Leaf;
  }

  /** The kernel's page table is out of reach of the loading. */
  lemma KernelInLoading(m0: seq<Frame>, r0: seq<nat>, m: seq<Frame>, r: seq<nat>, root: nat, v: nat)
    requires Loading(m0, r0, m, r, root, 0) && KernelTableOk(m0)
    ensures KernelTableOk(m) && KernelLinks(m) && Closed(m, KERNEL_PT)
  {
    KernelTableKept(m0, m);
  }

  lemma KernelPageAt(mem: seq<Frame>, v: nat)
    requires KernelTableOk(mem) && v < PROC_START
    ensures var c := Walk(mem, KERNEL_PT, v * PAGESIZE);
            Pa(mem, c, v * PAGESIZE) == Some(v * PAGESIZE) && EffectivePerm(mem, c) == KernelEntry(v).perm
    ensures KernelEntry(v) == Word(v, KernelEntry(v).perm, 0) && v * PAGESIZE / PAGESIZE == v
  {
    KernelWalk(mem, v * PAGESIZE);
    assert mem[KERNEL_PT + 3][v] == KernelEntry(v);
  }

  lemma KernelWalksSame(m: seq<Frame>, m': seq<Frame>, va: nat)
    requires KernelLinks(m) && KernelLinks(m') && va < PROC_START * PAGESIZE
    ensures Walk(m', KERNEL_PT, va) == Walk(m, KERNEL_PT, va)
  {
    KernelWalk(m, va);
    KernelWalk(m', va);
  }

  /** The segment loops. */
  method LoadSegments(k: Machine, it: Vmiter, segs: seq<Segment>, ghost m0: seq<Frame>, ghost r0: seq<nat>)
    requires k.Sized() && it.m == k && it.Fresh() && |r0| == NPAGES && FreeCount(r0) >= 6 + |ProgramPages(segs)|
    requires Loading(m0, r0, k.mem, k.refcount, it.pt, 0)
    requires KernelLoaded(k.mem, it.pt, PROC_START) && PagesLoaded(k.mem, it.pt, [])
             && DistinctPages(ProgramPages(segs))
    modifies it, k
    ensures k.Sized() && it.Fresh()
    ensures Loading(m0, r0, k.mem, k.refcount, it.pt, |ProgramPages(segs)|)
    ensures KernelLoaded(k.mem, it.pt, PROC_START) && PagesLoaded(k.mem, it.pt, ProgramPages(segs))
  {
    hide Loading, PagesLoaded, KernelLoaded, DistinctPages;
    var i := 0;
    while i < |segs|
      invariant i <= |segs| && k.Sized() && it.Fresh()
      invariant Loading(m0, r0, k.mem, k.refcount, it.pt, |ProgramPages(segs[..i])|)
      invariant KernelLoaded(k.mem, it.pt, PROC_START) && PagesLoaded(k.mem, it.pt, ProgramPages(segs[..i]))
    {
      var g := segs[i];
      var a := g.va / PAGESIZE * PAGESIZE;
      ghost var before := ProgramPages(segs[..i]);
      assert before + SegmentPages(g, g.First()) == before;
      while a < g.va + g.size
        invariant k.Sized() && it.Fresh()
        invariant a % PAGESIZE == 0 && g.First() <= a / PAGESIZE <= g.Last()
        invariant Loading(m0, r0, k.mem, k.refcount, it.pt, |before + SegmentPages(g, a / PAGESIZE)|)
        invariant KernelLoaded(k.mem, it.pt, PROC_START)
        invariant PagesLoaded(k.mem, it.pt, before + SegmentPages(g, a / PAGESIZE))
        decreases g.va + g.size - a
      {
        InSegment(g, a);
        ghost var pages := before + SegmentPages(g, a / PAGESIZE);
        PagesPrefix(segs, i, a / PAGESIZE + 1);
        assert before + SegmentPages(g, a / PAGESIZE + 1) == pages + [(a / PAGESIZE, g.writable)];
        PrefixDistinct(pages + [(a / PAGESIZE, g.writable)], ProgramPages(segs));
        LoadUserPage(k, it, a / PAGESIZE, g.writable, m0, r0, pages);
        a := a + PAGESIZE;
      }
      SegmentDone(g, a);
      assert segs[..i + 1][..i] == segs[..i];
      i := i + 1;
    }
    assert segs[..|segs|] == segs;
  }

  lemma InSegment(g: Segment, a: nat)
    requires a % PAGESIZE == 0 && g.First() <= a / PAGESIZE && a < g.va + g.size
    ensures a / PAGESIZE < g.Last() && (a + PAGESIZE) / PAGESIZE == a / PAGESIZE + 1 && (a + PAGESIZE) % PAGESIZE == 0
  {
  }

  lemma SegmentDone(g: Segment, a: nat)
    requires a % PAGESIZE == 0 && g.First() <= a / PAGESIZE <= g.Last() && a >= g.va + g.size
    ensures a / PAGESIZE == g.Last()
  {
  }

  /** `process_setup(pid, program)`, without the byte copy of the segments' data. */
  method ProcessSetup(kern: Kernel, pid: nat, segs: seq<Segment>, entry: nat)
    requires Inv(kern.St()) && 1 <= pid < NPROC && kern.procs[pid].state == PFree
    requires DistinctPages(ProgramPages(segs) + [(VIRTUAL_END - 1, true)])
    requires FreeCount(kern.m.refcount) >= 6 + |ProgramPages(segs)|
    modifies kern, kern.m
    ensures Inv(kern.St()) && (Exact(old(kern.St())) ==> Exact(kern.St()))
    ensures var p := kern.procs[pid];
            && kern.procs == old(kern.procs)[pid := p] && kern.current == old(kern.current)
               && kern.viewer == old(kern.viewer)
            && p.state == PRunnable && p.regs.rip == entry && p.regs.rsp == VIRTUAL_END * PAGESIZE
            && PagesLoaded(kern.m.mem, p.pagetable, ProgramPages(segs) + [(VIRTUAL_END - 1, true)])
    ensures forall f: nat :: f < NPAGES && !Free(old(kern.m.refcount), f) ==> kern.m.mem[f] == old(kern.m.mem)[f]
    ensures FreeCount(kern.m.refcount) == FreeCount(old(kern.m.refcount)) - (6 + |ProgramPages(segs)|)
  {
    hide SpacesOk, Separate, CountsOk, ViewerOk, KernelTableOk, Loading, PagesLoaded, KernelLoaded, DistinctPages,
         Leaf, Walk, Closed, Space, Exact;
    ghost var s := kern.St();
    var m := kern.m;
    ghost var m0, r0 := m.mem, m.refcount;
    var root := m.Kalloc(PAGESIZE);
    m.mem := m.mem[root.value := Filled(ZERO)];
    assert m.mem == m0[root.value := Filled(ZERO)];
    LoadingStarts(m0, r0, root.value);
    LoadingAllHeld(m0, r0, m.mem, m.refcount, root.value, 0);
    SpaceClosed(m.mem, root.value);
    var it := new Vmiter(m, root.value);
    LoadKernelPages(m, it, m0, r0);
    ghost var pages := ProgramPages(segs);
    PrefixDistinct(pages, pages + [(VIRTUAL_END - 1, true)]);
    LoadSegments(m, it, segs, m0, r0);
    LoadUserPage(m, it, VIRTUAL_END - 1, true, m0, r0, pages);
    kern.procs := kern.procs[pid := Proc(root.value, pid, PRunnable,
      Regs(0, entry, VIRTUAL_END * PAGESIZE, [0x1B, 0x23, 0x23, 0x23, 0x200]))];
    ProcessLoaded(s, kern.St(), pid, pages);
  }

  lemma ProcessLoaded(s: State, s': State, pid: nat, pages: seq<(nat, bool)>)
    requires Inv(s) && 1 <= pid < NPROC && s.procs[pid].state == PFree && |s'.procs| == NPROC
    requires var p := s'.procs[pid];
             && Loading(s.mem, s.refcount, s'.mem, s'.refcount, p.pagetable, |pages| + 1)
             && KernelLoaded(s'.mem, p.pagetable, PROC_START)
                && PagesLoaded(s'.mem, p.pagetable, pages + [(VIRTUAL_END - 1, true)])
             && p.state == PRunnable && p.pid == pid
             && s' == s.(mem := s'.mem, refcount := s'.refcount, procs := s.procs[pid := p])
    ensures Inv(s') && (Exact(s) ==> Exact(s'))
    ensures forall f: nat :: f < NPAGES && !Free(s.refcount, f) ==> s'.mem[f] == s.mem[f]
    ensures FreeCount(s'.refcount) == FreeCount(s.refcount) - (6 + |pages|)
  {
    hide SpacesOk, Separate, CountsOk, ViewerOk, KernelTableOk, Joins, Users, KernelLoaded, PagesLoaded, Complete,
         Space, TablesUntouched, Leaf, Holds, SameView;
    var p := s'.procs[pid];
    var root := p.pagetable;
    LoadedComplete(s.mem, s.refcount, s'.mem, s'.refcount, root, pages);
    InUseKeepsTables(s, s'.mem);
    var s1 := s.(mem := s'.mem);
    MemoryStepKeepsInv(s, s1);
    LiveViewsKept(s, s1.mem);
    LoadedJoins(s, s1, s'.refcount, root, |pages| + 1);
    assert forall f: nat :: f < NPAGES ==> s'.refcount[f] == s1.refcount[f] + if Holds(s1.mem, root, f) then 1 else 0;
    ProcessAppears(s1, s', pid, p);
  }

  lemma LoadedComplete(m0: seq<Frame>, r0: seq<nat>, m: seq<Frame>, r: seq<nat>, root: nat, pages: seq<(nat, bool)>)
    requires Loading(m0, r0, m, r, root, |pages| + 1) && KernelLoaded(m, root, PROC_START)
    requires PagesLoaded(m, root, pages + [(VIRTUAL_END - 1, true)])
    ensures Space(m, root) && Complete(m, root) && FreeCount(r) == FreeCount(r0) - (6 + |pages|)
    ensures forall f: nat :: f < NPAGES && !Free(r0, f) ==> m[f] == m0[f]
  {
    var all := pages + [(VIRTUAL_END - 1, true)];
    assert all[|pages|] == (VIRTUAL_END - 1, true);
    assert Leaf(m, root, all[|pages|].0).perm == PWU;
    CompleteTables(m, root);
    assert Tables(m, root) == 5;
  }

  /** A process loaded from free frames shares nothing. */
  lemma LoadedJoins(s: State, s1: State, r: seq<nat>, root: nat, n: nat)
    requires Inv(s) && s1 == s.(mem := s1.mem) && Loading(s.mem, s.refcount, s1.mem, r, root, n)
             && Complete(s1.mem, root)
    requires forall i: nat :: Live(s, i) ==> SameView(s.mem, s1.mem, s.procs[i].pagetable)
    requires forall f: nat :: Users(s1, f, NPROC) == Users(s, f, NPROC)
    ensures Joins(s1, root)
  {
    hide Space, Complete, Refers, Holds, Users, Inv, SameView, Loading;
    forall i: nat, u: Use, f: nat | Live(s1, i) && Holds(s1.mem, root, f)
      ensures !Refers(s1.mem, s1.procs[i].pagetable, u, f)
    {
      LoadedUnshared(s, s1, r, root, n, i, u, f);
    }
    ReferredIsHeld(s1.mem, root);
    LoadedTakes(s, s1.mem, r, root, n);
  }

  lemma ReferredIsHeld(mem: seq<Frame>, root: nat)
    ensures forall w: Use, f: nat :: Refers(mem, root, w, f) ==> Holds(mem, root, f)
  {
  }

  lemma LoadedUnshared(s: State, s1: State, r: seq<nat>, root: nat, n: nat, i: nat, u: Use, f: nat)
    requires Inv(s) && s1 == s.(mem := s1.mem) && Loading(s.mem, s.refcount, s1.mem, r, root, n)
    requires Live(s, i) && SameView(s.mem, s1.mem, s.procs[i].pagetable) && Holds(s1.mem, root, f)
    ensures !Refers(s1.mem, s.procs[i].pagetable, u, f)
  {
    hide SpacesOk, Separate, CountsOk, ViewerOk, KernelTableOk, Space, Refers, Users, Leaf;
    var other := s.procs[i].pagetable;
    FreeIsUnheld(s, f);
    assert !LiveHolds(s, i, f);
    assert Refers(s.mem, other, u, f) ==> Holds(s.mem, other, f);
  }

  lemma LoadedTakes(s: State, mem: seq<Frame>, r: seq<nat>, root: nat, n: nat)
    requires Inv(s) && Loading(s.mem, s.refcount, mem, r, root, n)
    ensures Space(mem, root) && Sized(s)
    ensures forall f: nat :: Holds(mem, root, f) ==>
              f < NPAGES && s.refcount[f] < REFCOUNT_MAX && s.viewer != Some(f)
  {
    hide SpacesOk, Separate, KernelTableOk, Space, Refers, Leaf;
    forall f: nat | Holds(mem, root, f)
      ensures f < NPAGES && s.refcount[f] < REFCOUNT_MAX && s.viewer != Some(f)
    {
      FreeIsUnheld(s, f);
    }
  }

  /** A program: its segments and its entry point. */
  datatype Program = Program(segs: seq<Segment>, entry: nat)

  ghost predicate ProgramOk(p: Program) {
    DistinctPages(ProgramPages(p.segs) + [(VIRTUAL_END - 1, true)])
  }

  /** Frames the first `n` programs need. */
  function FramesFor(programs: seq<Program>, n: nat): nat
    requires n <= |programs|
  {
    if n == 0 then 0 else FramesFor(programs, n - 1) + 6 + |ProgramPages(programs[n - 1].segs)|
  }

  /** There are slots and frames for all the programs, and their pages do not clash. */
  ghost predicate Bootable(programs: seq<Program>) {
    && 1 <= |programs| < NPROC
    && (forall i: nat :: i < |programs| ==> ProgramOk(programs[i]))
    && FreeCount(seq(NPAGES, _ => 0)) >= FramesFor(programs, |programs|)
  }

  /** Memory above the first megabyte is enough for programs of up to 256 frames together. */
  lemma {:induction false} SmallProgramsBoot(programs: seq<Program>)
    requires 1 <= |programs| < NPROC && forall i: nat :: i < |programs| ==> ProgramOk(programs[i])
    requires FramesFor(programs, |programs|) <= 256
    ensures Bootable(programs)
  {
    hide ProgramOk, FreeCount, FramesFor;
    ManyFree(seq(NPAGES, _ => 0));
  }

  lemma ManyFree(r: seq<nat>)
    requires |r| == NPAGES && forall f: nat :: f < NPAGES ==> r[f] == 0
    ensures FreeCount(r) >= 256
  {
    FreeRun(r, EXTPHYS_PFN, 256);
  }

  lemma FreeRun(r: seq<nat>, low: nat, n: nat)
    requires |r| == NPAGES && forall f: nat :: low <= f < low + n ==> f < NPAGES && Free(r, f)
    ensures FreeCount(r) >= n
  {
    forall f: nat | f in Range(low, n) ensures f in FreeFrames(r) {
      assert Free(r, f);
    }
    SubsetSize(Range(low, n), FreeFrames(r));
  }

  lemma {:induction false} FramesForGrow(programs: seq<Program>, i: nat, n: nat)
    requires i <= n <= |programs|
    ensures FramesFor(programs, i) <= FramesFor(programs, n)
    decreases n
  {
    if i < n { FramesForGrow(programs, i, n - 1); }
  }

  /** Process `i` has exactly its program's pages and a stack page. */
  ghost predicate HasProgram(s: State, i: nat, p: Program) {
    && Sized(s) && i < NPROC
    && PagesLoaded(s.mem, s.procs[i].pagetable, ProgramPages(p.segs) + [(VIRTUAL_END - 1, true)])
  }

  /** It will begin at its program's entry point with its stack at MEMSIZE_VIRTUAL. */
  predicate Enters(procs: seq<Proc>, i: nat, p: Program) {
    i < |procs| && procs[i].regs.rip == p.entry && procs[i].regs.rsp == 0x30_0000
  }

  /** Setting up another process does not change what the earlier ones have. */
  lemma ProgramStays(s: State, s': State, i: nat, p: Program)
    requires Inv(s) && Sized(s') && Live(s, i) && HasProgram(s, i, p) && s'.procs[i] == s.procs[i]
    requires forall f: nat :: f < NPAGES && !Free(s.refcount, f) ==> s'.mem[f] == s.mem[f]
    ensures HasProgram(s', i, p)
  {
    hide SpacesOk, Separate, CountsOk, ViewerOk, KernelTableOk, Leaf, Space, Complete, TablesUntouched, ProgramPages,
         Refers, Holds, PagesLoaded;
    InUseKeepsTables(s, s'.mem);
    LiveViewsKept(s, s'.mem);
    assert SameView(s.mem, s'.mem, s.procs[i].pagetable);
    PagesStay(s.mem, s'.mem, s.procs[i].pagetable, ProgramPages(p.segs) + [(VIRTUAL_END - 1, true)]);
  }

  lemma PagesStay(m0: seq<Frame>, m1: seq<Frame>, root: nat, pages: seq<(nat, bool)>)
    requires PagesLoaded(m0, root, pages) && forall v: nat :: Leaf(m1, root, v) == Leaf(m0, root, v)
    ensures PagesLoaded(m1, root, pages)
  {
    hide Leaf;
  }

  /** The kernel with its page table and descriptors set up, before any process. */
  method PowerOn(contents: seq<Frame>) returns (kern: Kernel)
    requires |contents| == NPAGES
    ensures fresh(kern) && fresh(kern.m)
    ensures Sized(kern.St()) && Inv(kern.St()) && Exact(kern.St()) && kern.current == 1
    ensures kern.m.refcount == seq(NPAGES, _ => 0)
    ensures forall i: nat :: i < NPROC ==> kern.procs[i].state == PFree
  {
    hide Inv, Exact, KernelTableOk, StaticTables;
    var m := new Machine(contents);
    InitKernelMemory(m);
    InitKernelTable(m);
    kern := new Kernel(m);
    NoProcesses(kern.St());
    SizesOf(kern.St());
  }

  /** `kernel()`: page table, process descriptors, the programs as processes 1, 2, ..., and the first one run. */
  method Start(contents: seq<Frame>, programs: seq<Program>) returns (kern: Kernel)
    requires |contents| == NPAGES && Bootable(programs)
    ensures fresh(kern) && fresh(kern.m)
    ensures Inv(kern.St()) && Exact(kern.St()) && Running(kern.St()) && kern.current == 1
    ensures forall i: nat :: i < NPROC ==> kern.procs[i].state == if 1 <= i <= |programs| then PRunnable else PFree
    ensures forall i: nat :: i < |programs| ==> HasProgram(kern.St(), i + 1, programs[i])
    ensures forall i: nat :: i < |programs| ==> Enters(kern.procs, i + 1, programs[i])
    ensures FreeCount(kern.m.refcount) + FramesFor(programs, |programs|) == FreeCount(seq(NPAGES, _ => 0))
  {
    hide Inv, Exact, ProgramOk, KernelTableOk, StaticTables, HasProgram, PagesLoaded, FreeCount, FramesFor;
    kern := PowerOn(contents);
    NoFramesYet(programs);
    var i := 0;
    while i < |programs|
      invariant i <= |programs| && fresh(kern) && fresh(kern.m)
      invariant Sized(kern.St()) && kern.current == 1
      invariant Inv(kern.St()) && Exact(kern.St())
      invariant forall j: nat :: j < NPROC ==> kern.procs[j].state == if 1 <= j <= i then PRunnable else PFree
      invariant forall j: nat :: j < i ==> HasProgram(kern.St(), j + 1, programs[j])
      invariant forall j: nat :: j < i ==> Enters(kern.procs, j + 1, programs[j])
      invariant FreeCount(kern.m.refcount) + FramesFor(programs, i) == FreeCount(seq(NPAGES, _ => 0))
    {
      FramesForGrow(programs, i + 1, |programs|);
      OneMoreProgram(programs, i);
      ProgramOkHere(programs[i]);
      ghost var s := kern.St();
      ProcessSetup(kern, i + 1, programs[i].segs, programs[i].entry);
      SizesOf(kern.St());
      ProgramHere(kern.St(), i + 1, programs[i]);
      forall j: nat | j < i ensures HasProgram(kern.St(), j + 1, programs[j]) {
        ProgramStays(s, kern.St(), j + 1, programs[j]);
      }
      i := i + 1;
    }
    SizesOf(kern.St());
    var ok := kern.Run(1);
    assert ok;
  }

  /** The pages of segment `k` are among the program's. */
  lemma SegmentLoaded(segs: seq<Segment>, k: nat, v: nat)
    requires k < |segs| && segs[k].First() <= v < segs[k].Last()
    ensures (v, segs[k].writable) in ProgramPages(segs)
  {
    var g := segs[k];
    PagesPrefix(segs, k, g.Last());
    var before := ProgramPages(segs[..k]);
    var part := before + SegmentPages(g, g.Last());
    assert part[|before| + (v - g.First())] == (v, g.writable);
    assert part <= ProgramPages(segs);
  }

  /** Every page of a program comes from a segment. */
  lemma {:induction false} FromSegment(segs: seq<Segment>, p: (nat, bool)) returns (k: nat)
    requires p in ProgramPages(segs)
    ensures k < |segs| && segs[k].First() <= p.0 < segs[k].Last() && p.1 == segs[k].writable
  {
    k := |segs| - 1;
    if p in ProgramPages(segs[..k]) {
      var n := k;
      k := FromSegment(segs[..n], p);
    }
  }

  lemma PageReached(s: State, i: nat, pages: seq<(nat, bool)>, v: nat, writable: bool, a: nat)
    requires Inv(s) && Live(s, i) && PagesLoaded(s.mem, s.procs[i].pagetable, pages) && (v, writable) in pages
    requires a / PAGESIZE == v
    ensures UserFrame(s, i, a).Some? && (UserWritable(s, i, a) <==> writable)
  {
    hide SpacesOk, Separate, CountsOk, ViewerOk, KernelTableOk, Leaf, Translate, Vpn, Closed, PlainLinks, TablesOk,
         HeldOnce;
    var root := s.procs[i].pagetable;
    InvSpace(s, i);
    var j: nat :| j < |pages| && pages[j] == (v, writable);
    assert Leaf(s.mem, root, pages[j].0).perm == PagePerm(pages[j].1);
    assert LeafOk(v, Leaf(s.mem, root, v));
    LowVpn(a);
    SpaceTranslate(s.mem, root, a);
    RootInMemory(s.mem, root);
  }

  /** The user code of a process that has its program reaches every byte of every segment, writable as the segment
      says. */
  lemma SegmentReached(s: State, i: nat, p: Program, k: nat, a: nat)
    requires Inv(s) && Live(s, i) && HasProgram(s, i, p)
    requires k < |p.segs| && p.segs[k].va <= a < p.segs[k].va + p.segs[k].size
    ensures UserFrame(s, i, a).Some? && (UserWritable(s, i, a) <==> p.segs[k].writable)
  {
    hide Inv, PagesLoaded, ProgramPages, UserFrame, UserWritable;
    SegmentLoaded(p.segs, k, a / PAGESIZE);
    PageReached(s, i, ProgramPages(p.segs) + [(VIRTUAL_END - 1, true)], a / PAGESIZE, p.segs[k].writable, a);
  }

  /** It can write all of the page below MEMSIZE_VIRTUAL, its stack. */
  lemma StackReached(s: State, i: nat, p: Program, a: nat)
    requires Inv(s) && Live(s, i) && HasProgram(s, i, p) && 0x2F_F000 <= a < 0x30_0000
    ensures UserWritable(s, i, a)
  {
    hide Inv, PagesLoaded, ProgramPages, UserFrame;
    var pages := ProgramPages(p.segs) + [(VIRTUAL_END - 1, true)];
    assert pages[|pages| - 1] == (VIRTUAL_END - 1, true);
    PageReached(s, i, pages, VIRTUAL_END - 1, true, a);
  }

  /** It reaches nothing else: the console, the stack page and pages that hold bytes of a segment. */
  lemma OnlyProgramReached(s: State, i: nat, p: Program, a: nat)
    requires Inv(s) && Live(s, i) && HasProgram(s, i, p) && a < ADDRESS_SPACE && UserFrame(s, i, a).Some?
    ensures a / 4096 == 0xB8 || 0x2F_F000 <= a < 0x30_0000
            || exists k: nat :: k < |p.segs| && p.segs[k].va / 4096 <= a / 4096
                                && a / 4096 * 4096 < p.segs[k].va + p.segs[k].size
  {
    hide SpacesOk, Separate, CountsOk, ViewerOk, KernelTableOk, Translate, Leaf, Vpn, ProgramPages, Refers;
    UserFrameIs(s, i, a);
    ReachedIsLow(s, i, a);
    var root, v := s.procs[i].pagetable, a / PAGESIZE;
    if UserFrame(s, i, a) != Some(CONSOLE_PFN) {
      IsPageUse(s.mem, root, v, UserFrame(s, i, a).value);
      var pages := ProgramPages(p.segs) + [(VIRTUAL_END - 1, true)];
      var j: nat :| j < |pages| && pages[j].0 == v;
      if j < |pages| - 1 {
        var k := FromSegment(p.segs, pages[j]);
        LastPage(p.segs[k], v);
      }
    }
  }

  lemma IsPageUse(mem: seq<Frame>, root: nat, v: nat, f: nat)
    requires Refers(mem, root, PageUse(v), f)
    ensures v >= PROC_START && Leaf(mem, root, v) != ZERO
  {
  }

  lemma LastPage(g: Segment, v: nat)
    requires g.First() <= v < g.Last()
    ensures g.va / 4096 <= v && v * 4096 < g.va + g.size
  {
  }

  lemma ProgramHere(s: State, i: nat, p: Program)
    requires Sized(s) && i < NPROC
    requires PagesLoaded(s.mem, s.procs[i].pagetable, ProgramPages(p.segs) + [(VIRTUAL_END - 1, true)])
    ensures HasProgram(s, i, p)
  {
  }

  lemma NoFramesYet(programs: seq<Program>)
    ensures FramesFor(programs, 0) == 0
  {
  }

  lemma OneMoreProgram(programs: seq<Program>, i: nat)
    requires i < |programs|
    ensures FramesFor(programs, i + 1) == FramesFor(programs, i) + 6 + |ProgramPages(programs[i].segs)|
  {
  }

  lemma ProgramOkHere(p: Program)
    requires ProgramOk(p)
    ensures DistinctPages(ProgramPages(p.segs) + [(VIRTUAL_END - 1, true)])
  {
  }

  /** From power-on through any sequence of attempted events: the invariant holds in every state,
      and counts stay exact as long as no page is allocated over a mapped one. */
  method BootAndRun(contents: seq<Frame>, programs: seq<Program>, attempts: seq<Event>)
    returns (run: seq<State>, events: seq<Event>)
    requires |contents| == NPAGES && Bootable(programs)
    ensures IsRun(run, events) && forall k: nat :: k < |run| ==> Inv(run[k])
    ensures (forall j: nat :: j < |events| ==> AllocatesFresh(run[j], events[j])) ==>
              forall k: nat :: k < |run| ==> Sized(run[k]) && Exact(run[k])
  {
    var kern := Start(contents, programs);
    run, events := kern.Execute(attempts);
    hide Inv, Next, Exact, AllocatesFresh;
    forall k: nat | k < |run| ensures Inv(run[k]) {
      RunKeepsInv(run, events, k);
    }
    if forall j: nat :: j < |events| ==> AllocatesFresh(run[j], events[j]) {
      forall k: nat | k < |run| ensures Sized(run[k]) && Exact(run[k]) {
        SizesOf(run[k]);
        SizesOf(run[0]);
        RunStaysExact(run, events, k);
      }
    }
  }
}
