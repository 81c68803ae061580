/** The kernel: system calls and the scheduler, as operations on physical memory and the process table. */
module Kernel {
  import opened Paging
  import opened Physical
  import opened Walks
  import opened Growth
  import opened VmIter
  import opened Spaces
  import opened Freeing
  import opened KernelSpec
  import opened Forking
  import opened Steps
  import opened Runs
  import opened Isolation
  import opened Effects

  // ----- Mapping in a process page table

  /** A process page table is ready for `try_map` at page `v`. */
  lemma MapReady(mem: seq<Frame>, r: seq<nat>, root: nat, v: nat)
    requires |mem| == |r| == NPAGES && Space(mem, root) && AllHeld(mem, r, root) && v < VIRTUAL_END
    ensures Closed(mem, root) && TreeShaped(mem, root) && TablesHeld(mem, r, root) && PlainLinks(mem, root)
    ensures var c := Walk(mem, root, v * PAGESIZE);
            && Canonical(v * PAGESIZE) && v * PAGESIZE % PAGESIZE == 0 && Vpn(v * PAGESIZE) == v
            && c.perm.Covers(PWU) && (c.level > 0 ==> !Entry(mem, c.slot).perm.p)
            && (c.level == 0 <==> Table(mem, root, 0, v / 512).Some?)
            && (c.level == 0 ==> c.slot == At(Table(mem, root, 0, v / 512).value, v % 512))
  {
    PageAddress(v);
    SpaceTreeShaped(mem, root);
    TablesAreHeld(mem, r, root);
    SpaceWalk(mem, root, v * PAGESIZE);
    WalkToLeaf(mem, root, v * PAGESIZE);
  }

  class Kernel {
    const m: Machine
    var procs: seq<Proc>
    var current: nat
    var viewer: Option<nat>

    function St(): State
      reads this, m
    {
      State(m.mem, m.refcount, procs, current, viewer)
    }

    /** The process descriptors before any process is set up. */
    constructor (m: Machine)
      ensures this.m == m && viewer == None && current == 1
      ensures procs == seq(NPROC, (i: nat) => Proc(0, i, PFree, Regs(0, 0, 0, [])))
    {
      this.m := m;
      procs := seq(NPROC, (i: nat) => Proc(0, i, PFree, Regs(0, 0, 0, [])));
      current := 1;
      viewer := None;
    }

    /** `syscall_page_alloc(addr)`. */
    method PageAlloc(addr: nat) returns (r: int)
      requires Inv(St()) && Running(St())
      modifies m
      ensures PageAllocSpec(old(St()), addr, St(), r)
      ensures r == 0 <==> addr % 4096 == 0 && 0x10_0000 <= addr < 0x30_0000 && old(FreeCount(m.refcount)) > 0
      ensures r != 0 ==> r == -1 && St() == old(St())
      ensures r == 0 ==>
                forall va: nat :: va < ADDRESS_SPACE && va / 4096 == addr / 4096 ==>
                  UserWritable(St(), current, va) && Reads(St(), current, va) == Some(Word(0, NO_PERM, 0))
    {
      hide SpacesOk, Separate, CountsOk, ViewerOk, KernelTableOk, UserWritable, Reads;
      if addr % PAGESIZE != 0 || addr < PROC_START * PAGESIZE || addr >= VIRTUAL_END * PAGESIZE {
        return -1;
      }
      ghost var s := St();
      ghost var v := addr / PAGESIZE;
      var pa := m.Kalloc(PAGESIZE);
      if pa.None? {
        return -1;
      }
      m.mem := m.mem[pa.value := Filled(ZERO)];
      assert m.mem == s.mem[pa.value := Filled(ZERO)];
      ZeroedReady(s, v, pa.value);
      hide Inv, Space, Walk, PageAllocSpec;
      var ok := MapPage(procs[current].pagetable, addr, pa.value);
      assert PageAdded(s, v, pa.value, St());
      r := if ok then 0 else -1;
      PageNow(s, addr, pa.value, St());
    }

    /** The second half of `syscall_page_alloc`: map the page, or give it back if a table page is
        missing and cannot be had. */
    method MapPage(root: nat, addr: nat, pa: nat) returns (ok: bool)
      requires m.Sized() && Closed(m.mem, root) && TreeShaped(m.mem, root) && TablesHeld(m.mem, m.refcount, root)
      requires pa < NPAGES && m.refcount[pa] == 1 && addr % PAGESIZE == 0 && addr < VA_LOWEND
      requires var c := Walk(m.mem, root, addr); c.perm.Covers(PWU) && (c.level > 0 ==> !Entry(m.mem, c.slot).perm.p)
      modifies m
      ensures m.Sized()
      ensures var c := Walk(old(m.mem), root, addr);
              c.level == 0 ==>
                && ok && m.refcount == old(m.refcount) && c.slot.At?
                && m.mem == old(m.mem)[c.slot.frame := old(m.mem)[c.slot.frame][c.slot.index := Word(pa, PWU, 0)]]
      ensures ok ==> Leaf(m.mem, root, Vpn(addr)) == Word(pa, PWU, 0)
      ensures !ok ==> m.refcount[pa] == 0 && Leaf(m.mem, root, Vpn(addr)) == Leaf(old(m.mem), root, Vpn(addr))
      ensures forall v: nat :: v != Vpn(addr) ==> Leaf(m.mem, root, v) == Leaf(old(m.mem), root, v)
    {
      var it := new Vmiter(m, root, addr);
      ghost var g;
      ok, g := it.TryMap(Some(pa), PWU);
      hide Closed, TreeShaped, GrownTables, OthersKept, Leaf, Walk;
      PendingStays(old(m.refcount), m.refcount, g, pa);
      if !ok {
        m.Kfree(Some(pa));
      }
    }

    /** Map page `v` of a child under construction; the source's `vmiter(child_pt).find(va).try_map(...)`. */
    method MapInChild(child: nat, v: nat, target: Option<nat>, q: Perm) returns (ok: bool, ghost g: map<nat, nat>)
      requires m.Sized() && Space(m.mem, child) && AllHeld(m.mem, m.refcount, child) && v < VIRTUAL_END
      requires target.Some? ==> target.value < NPAGES
      requires if target.Some? then q.p && !q.ps else q == NO_PERM
      requires target.None? ==> Leaf(m.mem, child, v) == ZERO
      modifies m
      ensures m.Sized() && Closed(m.mem, child) && PlainLinks(m.mem, child)
      ensures Grown(old(m.mem), old(m.refcount), m.mem, m.refcount, child, v * PAGESIZE, g)
      ensures ok ==> MappedTo(old(m.mem), m.mem, child, v * PAGESIZE, g,
              if target.Some? then Word(target.value, q, 0) else ZERO)
      ensures !ok ==> FreeCount(m.refcount) == 0 && Table(m.mem, child, 0, v / 512) == None
                      && forall w: nat :: Leaf(m.mem, child, w) == Leaf(old(m.mem), child, w)
    {
      hide AllHeld, Space, TreeShaped, TablesHeld, PlainLinks, Leaf, GrownTables, GrownCounts, OthersKept, Table, Walk;
      MapReady(m.mem, m.refcount, child, v);
      var it := new Vmiter(m, child);
      it.RealFind(v * PAGESIZE);
      ok, g := it.TryMap(target, q);
      WalkToLeaf(m.mem, child, v * PAGESIZE);
    }

    /** The copying branch of the fork loop, with both of its failure exits. */
    method CopyPrivate(child: nat, v: nat, src: nat, q: Perm, ghost m0: seq<Frame>, ghost r0: seq<nat>,
                       ghost parent: nat)
      returns (ok: bool)
      requires m.Sized() && ParentOk(m0, r0, parent) && v < VIRTUAL_END
      requires Copying(m0, r0, parent, m.mem, m.refcount, child, v)
      requires Private(v, Leaf(m0, parent, v)) && src == Leaf(m0, parent, v).pfn && q == Leaf(m0, parent, v).perm
      modifies m
      ensures m.Sized()
      ensures ok ==> Copying(m0, r0, parent, m.mem, m.refcount, child, v + 1)
      ensures !ok ==> RolledBack(m0, r0, m.mem, m.refcount) && TooFew(m0, r0, parent, v)
    {
      hide ParentOk, Copying, Space, Leaf, Holds, AllHeld, Counted, Grown, MappedTo, Closed, PlainLinks, PrivatePages,
           Tables;
      ghost var m1, r1 := m.mem, m.refcount;
      PrivateSource(m0, r0, parent, m1, r1, child, v);
      var pa := m.Kalloc(PAGESIZE);
      if pa.None? {
        NoFrameForPage(m0, r0, parent, m1, r1, child, v);
        Pfree(m, child);
        RollBack(m0, r0, m.mem, r1, m.refcount, child, None);
        return false;
      }
      m.mem := m.mem[pa.value := m.mem[src]];
      ghost var m2, r2 := m.mem, m.refcount;
      assert m2 == m1[pa.value := m1[src]];
      assert PageTaken(m1, r1, src, pa, m2, r2);
      FrameTakenKeeps(m1, r1, Source(m1, src), pa, m2, r2, child);
      ghost var g;
      ok, g := MapInChild(child, v, pa, q);
      if !ok {
        FailedCounts(m0, r0, parent, m1, r1, child, v, pa, m2, r2, m.mem, m.refcount, g);
        ghost var r3 := m.refcount;
        Pfree(m, child);
        PendingLeft(r0, r3, m.refcount, m.mem, child, pa.value);
        m.Kfree(pa);
        RollBack(m0, r0, m.mem, r3, m.refcount, child, pa);
        return false;
      }
      CopiedCounts(m0, r0, parent, m1, r1, child, v, pa, m2, r2, m.mem, m.refcount, g);
    }

    /** The sharing branch of the fork loop. A count at its limit goes to 0. */
    method CopyShared(child: nat, v: nat, src: Option<nat>, q: Perm,
                      ghost m0: seq<Frame>, ghost r0: seq<nat>, ghost parent: nat)
      returns (ok: bool, wrapped: bool)
      requires m.Sized() && ParentOk(m0, r0, parent) && v < VIRTUAL_END
      requires Copying(m0, r0, parent, m.mem, m.refcount, child, v) && ByteCounts(r0) && Leaf(m0, parent, 0).perm.p
      requires var e := Leaf(m0, parent, v);
               && !Private(v, e) && q == e.perm
               && (if e.perm.p then src == Some(e.pfn) else src == None)
      modifies m
      ensures m.Sized()
      ensures ok && !wrapped ==>
                Copying(m0, r0, parent, m.mem, m.refcount, child, v + 1) && !FullPage(m0, r0, parent, v)
      ensures wrapped ==> ok && Wrapped(m0, r0, parent, v, m.mem, m.refcount)
      ensures !ok ==> RolledBack(m0, r0, m.mem, m.refcount) && TooFew(m0, r0, parent, v)
    {
      hide ParentOk, Copying, Space, Leaf, Holds, AllHeld, Counted, Grown, MappedTo, Closed, PlainLinks, PrivatePages,
           Tables, FullPage, Wrapped, TooFew;
      ghost var m1, r1 := m.mem, m.refcount;
      wrapped := false;
      SharedSource(m0, r0, parent, m1, r1, child, v);
      ghost var g;
      ok, g := MapInChild(child, v, src, q);
      if !ok {
        FailedCounts(m0, r0, parent, m1, r1, child, v, None, m1, r1, m.mem, m.refcount, g);
        ghost var r3 := m.refcount;
        Pfree(m, child);
        RollBack(m0, r0, m.mem, r3, m.refcount, child, None);
        return;
      }
      CopiedCounts(m0, r0, parent, m1, r1, child, v, None, m1, r1, m.mem, m.refcount, g);
      NotShared(m0, r0, parent, v);
      if src.Some? && q.Covers(PU) && !q.Covers(PW) {
        SharedCount(m0, r0, parent, child, v, m.mem, m.refcount);
        m.refcount := m.refcount[src.value := (m.refcount[src.value] + 1) % 256];
        wrapped := m.refcount[src.value] == 0;
      }
    }

    /** One pass of the fork loop, at the parent's iterator `it`. */
    method ForkPage(it: Vmiter, child: nat, ghost s: State) returns (ok: bool, wrapped: bool)
      requires Inv(s) && Live(s, s.current)
      requires it.m == m && it.pt == Root(s) && it.Fresh() && it.va % PAGESIZE == 0 && it.va < VIRTUAL_END * PAGESIZE
      requires m.Sized() && Copying(s.mem, s.refcount, Root(s), m.mem, m.refcount, child, it.va / PAGESIZE)
      modifies m
      ensures m.Sized()
      ensures ok && !wrapped ==>
                && it.Fresh() && Copying(s.mem, s.refcount, Root(s), m.mem, m.refcount, child, it.va / PAGESIZE + 1)
                && !FullPage(s.mem, s.refcount, Root(s), it.va / PAGESIZE)
      ensures wrapped ==> ok && Wrapped(s.mem, s.refcount, Root(s), it.va / PAGESIZE, m.mem, m.refcount)
      ensures !ok ==> RolledBack(s.mem, s.refcount, m.mem, m.refcount)
                      && TooFew(s.mem, s.refcount, Root(s), it.va / PAGESIZE)
    {
      hide SpacesOk, Separate, CountsOk, ViewerOk, KernelTableOk, Copying, Space, PrivatePages, ParentOk, Leaf, Walk,
           Closed, Allows, Pa, EffectivePerm, RolledBack, FullPage, Wrapped, TooFew;
      ParentKept(s, m.mem, m.refcount, child, it.va / PAGESIZE, it.va);
      SpaceWalk(m.mem, Root(s), it.va);
      var v := it.va / PAGESIZE;
      var pa := it.CurrentPa();
      var src := if pa.Some? then Some(pa.value / PAGESIZE) else None;
      if it.Has(PU) && it.va != CONSOLE_PFN * PAGESIZE && it.Has(PW) {
        ok := CopyPrivate(child, v, src.value, it.CurrentPerm(), s.mem, s.refcount, Root(s));
        wrapped := false;
        NotShared(s.mem, s.refcount, Root(s), v);
      } else {
        ok, wrapped := CopyShared(child, v, src, it.CurrentPerm(), s.mem, s.refcount, Root(s));
      }
      if ok && !wrapped {
        ParentKept(s, m.mem, m.refcount, child, v + 1, it.va);
      }
    }

    /** `syscall_fork()`. The result `wrapped` says that a count went from its limit to 0 while the frame is in use;
        the model stops there, because the source goes on with an allocator that may hand the frame out. */
    method Fork() returns (r: int, wrapped: bool)
      requires Inv(St()) && Running(St())
      modifies this, m
      ensures wrapped <==> Wraps(old(St()))
      ensures !wrapped ==> ForkSpec(old(St()), St(), r)
      ensures wrapped ==> HandsOutUsed(old(St()), St())
      ensures !wrapped && r > 0 ==>
                && r < NPROC && old(procs)[r].state == PFree && |procs| == NPROC
                && (forall j: nat :: 1 <= j < r ==> old(procs)[j].state != PFree)
                && procs[r].state == PRunnable && procs[r].pid == r
                && procs[r].regs == old(procs[current]).regs.(rax := 0)
    {
      hide SpacesOk, Separate, CountsOk, ViewerOk, KernelTableOk, Copying, Space, PrivatePages, ParentOk, Leaf, Walk,
           ForkDone, ForkUndone, Closed, Allows, Pa, EffectivePerm, FullPage, Wrapped, TooFew, Wraps, HandsOutUsed;
      ghost var s := St();
      wrapped := false;
      var child := 1;
      while child < NPROC && procs[child].state != PFree
        invariant 1 <= child <= NPROC
        invariant forall j: nat :: 1 <= j < child ==> procs[j].state != PFree
      {
        child := child + 1;
      }
      if child == NPROC {
        NothingForked(s);
        return -1, false;
      }
      var pt := m.Kalloc(PAGESIZE);
      if pt.None? {
        NothingForked(s);
        return -1, false;
      }
      procs := procs[child := procs[child].(pagetable := pt.value)];
      m.mem := m.mem[pt.value := Filled(ZERO)];
      assert m.mem == s.mem[pt.value := Filled(ZERO)];
      var root := procs[current].pagetable;
      ForkStarts(s, pt.value);
      ParentKept(s, m.mem, m.refcount, pt.value, 0, 0);
      var it := new Vmiter(m, root);
      while it.va < VIRTUAL_END * PAGESIZE
        invariant it.m == m && it.pt == root && it.va % PAGESIZE == 0 && it.va <= VIRTUAL_END * PAGESIZE && it.Fresh()
        invariant Copying(s.mem, s.refcount, root, m.mem, m.refcount, pt.value, it.va / PAGESIZE)
        invariant forall v: nat :: v < it.va / PAGESIZE ==> !FullPage(s.mem, s.refcount, root, v)
        invariant procs == s.procs[child := s.procs[child].(pagetable := pt.value)]
        invariant current == s.current && viewer == s.viewer
        decreases VIRTUAL_END * PAGESIZE - it.va
      {
        var ok;
        ok, wrapped := ForkPage(it, pt.value, s);
        if !ok {
          ForkFailed(s, St(), child);
          FailsFirst(s, it.va / PAGESIZE);
          return -1, false;
        }
        if wrapped {
          WrapsHere(s, St(), it.va / PAGESIZE, child);
          return -1, true;
        }
        it.Advance(PAGESIZE);
      }
      procs := procs[child := Proc(pt.value, child, procs[current].state, procs[current].regs.(rax := 0))];
      ForkSucceeded(s, St(), child);
      NeverFull(s);
      SlotTaken(s, St(), child);
      return child, false;
    }

    /** `syscall_exit()`. */
    method Exit()
      requires Inv(St()) && Running(St())
      modifies this, m
      ensures ExitSpec(old(St()), St())
    {
      hide SpacesOk, Separate, CountsOk, ViewerOk, KernelTableOk, Space, Holds;
      HoldingsCounted(St());
      Pfree(m, procs[current].pagetable);
      procs := procs[current := procs[current].(state := PFree)];
    }

    /** `schedule()`: run the first runnable process after the current one. When a whole turn finds none, the source
        turns again in the same state, for ever; here the answer is then false. */
    method Schedule() returns (found: bool)
      requires Inv(St())
      modifies this`current
      ensures found <==> exists i: nat :: i < NPROC && procs[i].state == PRunnable
      ensures found ==> ScheduleSpec(old(St()), St()) && Inv(St())
      ensures !found ==> St() == old(St())
    {
      hide SpacesOk, Separate, CountsOk, ViewerOk, KernelTableOk, StateAfter;
      ghost var s := St();
      var pid := current;
      CurrentSlot(s);
      var spins := 0;
      while spins < NPROC
        invariant spins <= NPROC && pid == (s.current + spins) % NPROC && St() == s
        invariant forall k: nat :: 1 <= k <= spins ==> StateAfter(s, k) != PRunnable
      {
        SlotAfter(s, spins);
        pid := (pid + 1) % NPROC;
        spins := spins + 1;
        if procs[pid].state == PRunnable {
          var ok := Run(pid);
          assert ok && Picks(s, spins);
          return true;
        }
      }
      WholeTurn(s);
      return false;
    }

    /** `check_pagetable(pt)`: important kernel addresses are mapped where they should be. */
    method CheckPagetable(pt: nat) returns (ok: bool)
      requires m.Sized() && pt < NPAGES && Closed(m.mem, pt) && Closed(m.mem, KERNEL_PT)
      ensures ok <==> && PaAt(m.mem, pt, EXCEPTION_ENTRY) == Some(EXCEPTION_ENTRY)
                      && PaAt(m.mem, KERNEL_PT, pt * PAGESIZE) == Some(pt * PAGESIZE)
                      && PaAt(m.mem, pt, KERNEL_PT * PAGESIZE) == Some(KERNEL_PT * PAGESIZE)
    {
      var a := new Vmiter(m, pt, EXCEPTION_ENTRY);
      if a.CurrentPa() != Some(EXCEPTION_ENTRY) {
        return false;
      }
      var b := new Vmiter(m, KERNEL_PT, pt * PAGESIZE);
      if b.CurrentPa() != Some(pt * PAGESIZE) {
        return false;
      }
      var c := new Vmiter(m, pt, KERNEL_PT * PAGESIZE);
      ok := c.CurrentPa() == Some(KERNEL_PT * PAGESIZE);
    }

    /** `run(p)`: the assertion and the page-table check never fail. */
    method Run(p: nat) returns (ok: bool)
      requires Inv(St()) && 1 <= p < NPROC && procs[p].state == PRunnable
      modifies this`current
      ensures ok && Inv(St()) && current == p && Running(St())
    {
      hide SpacesOk, Separate, CountsOk, ViewerOk, KernelTableOk, PaAt, Closed;
      CurrentIrrelevant(St(), p);
      current := p;
      CheckPasses(St(), p);
      ok := CheckPagetable(procs[p].pagetable);
    }

    /** The part of `memshow()` that touches memory: the viewer allocates its page once. */
    method Memshow(contents: Frame)
      requires Inv(St()) && (viewer.None? ==> FreeCount(m.refcount) > 0)
      modifies this, m
      ensures MemshowSpec(old(St()), contents, St())
      ensures viewer.Some? && m.Sized() && viewer.value < NPAGES && m.mem[viewer.value] == contents
      ensures old(viewer).Some? ==> viewer == old(viewer) && m.refcount == old(m.refcount)
    {
      ghost var s := St();
      if viewer.None? {
        viewer := m.Kalloc(PAGESIZE);
      }
      m.mem := m.mem[viewer.value := contents];
      assert m.mem == s.mem[viewer.value := contents];
    }

    /** A store instruction of the running process, carried out by the paging hardware. */
    method Store(va: nat, w: Word)
      requires Inv(St()) && Running(St()) && CanStore(St(), va)
      modifies m
      ensures StoreSpec(old(St()), va, w, St())
    {
      StoreTarget(St(), va);
      hide SpacesOk, Separate, CountsOk, ViewerOk, KernelTableOk, Translate;
      var pa := Translate(m.mem, procs[current].pagetable, va).value.pa;
      var f := pa / PAGESIZE;
      m.mem := m.mem[f := m.mem[f][pa % PAGESIZE / 8 := w]];
    }

    /** One event, as the system-call and exception handlers dispatch it. */
    method Handle(e: Event)
      requires Inv(St()) && Enabled(St(), e)
      modifies this, m
      ensures Next(old(St()), e, St()) && Inv(St())
    {
      hide SpacesOk, Separate, CountsOk, ViewerOk, KernelTableOk, PageAllocSpec, ForkSpec, ExitSpec, ScheduleSpec,
           StoreSpec, MemshowSpec, CanStore, Wraps, HandsOutUsed;
      match e {
        case PageAlloc(addr) => var r := PageAlloc(addr);
        case Fork => var r, wrapped := Fork();
        case Exit => Exit();
        case Schedule => var found := Schedule();
        case Store(va, w) => Store(va, w);
        case Fault => procs := procs[current := procs[current].(state := PBroken)];
        case Memshow(contents) => Memshow(contents);
      }
      EffectSized(old(St()), e, St());
      NextKeepsInv(old(St()), e, St());
    }

    /** Handle whatever of `attempts` is possible when its turn comes; the result is a run. */
    method Execute(attempts: seq<Event>) returns (run: seq<State>, events: seq<Event>)
      requires Inv(St())
      modifies this, m
      ensures IsRun(run, events) && run[0] == old(St()) && run[|events|] == St() && Inv(St())
    {
      hide Inv, Next;
      run, events := [St()], [];
      for i := 0 to |attempts|
        invariant IsRun(run, events) && run[0] == old(St()) && run[|events|] == St() && Inv(St())
      {
        if Enabled(St(), attempts[i]) {
          Handle(attempts[i]);
          run, events := run + [St()], events + [attempts[i]];
        }
      }
    }
  }

  lemma PageNow(s: State, addr: nat, f: nat, s': State)
    requires Inv(s) && Running(s) && PROC_START * PAGESIZE <= addr < VIRTUAL_END * PAGESIZE && addr % PAGESIZE == 0
    requires f < NPAGES && PageAdded(s, addr / PAGESIZE, f, s') && FreeCount(s.refcount) > 0
    ensures Sized(s') && PageAllocSpec(s, addr, s', 0)
    ensures forall va: nat :: va < ADDRESS_SPACE && va / 4096 == addr / 4096 ==>
              UserWritable(s', s.current, va) && Reads(s', s.current, va) == Some(Word(0, NO_PERM, 0))
  {
    hide Inv, UserWritable, Reads, PageAdded;
    assert PageAllocSpec(s, addr, s', 0);
    PageAllocMeans(s, addr, s', 0);
    forall va: nat | va < ADDRESS_SPACE && va / 4096 == addr / 4096
      ensures UserWritable(s', s.current, va) && Reads(s', s.current, va) == Some(Word(0, NO_PERM, 0))
    {
      PageAllocMeans(s, addr, s', va);
    }
  }

  /** The slot a successful fork takes, and what it puts there. */
  lemma SlotTaken(s: State, s': State, r: int)
    requires Sized(s) && Running(s) && ForkSpec(s, s', r)
    ensures |s'.procs| == NPROC && s'.current == s.current
    ensures r > 0 ==>
              && r < NPROC && s.procs[r].state == PFree
              && (forall j: nat :: 1 <= j < r ==> s.procs[j].state != PFree)
              && s'.procs[r].state == PRunnable && s'.procs[r].pid == r
              && s'.procs[r].regs == s.procs[s.current].regs.(rax := 0)
  {
    hide Copying, PrivatePages;
  }

  /** The hardware lets the running process store at `va`. */
  predicate CanStore(s: State, va: nat)
    requires Sized(s)
  {
    && Root(s) < NPAGES
    && var a := Translate(s.mem, Root(s), va); a.Some? && a.value.user && a.value.writable
  }

  /** When an event can happen. */
  predicate Enabled(s: State, e: Event) {
    && Sized(s)
    && match e
       case PageAlloc(addr) => Running(s)
       case Fork => Running(s) && !Wraps(s)
       case Exit => Running(s)
       case Schedule => exists i: nat :: i < NPROC && s.procs[i].state == PRunnable
       case Store(va, w) => Running(s) && CanStore(s, va)
       case Fault => Running(s)
       case Memshow(contents) => s.viewer.None? ==> FreeCount(s.refcount) > 0
  }

  /** `vmiter(pt, va).pa()`. */
  function PaAt(mem: seq<Frame>, pt: nat, va: nat): Option<nat>
    requires pt < |mem|
  {
    Pa(mem, Walk(mem, pt, va), va)
  }

  lemma HoldingsCounted(s: State)
    requires Inv(s) && Live(s, s.current)
    ensures Space(s.mem, Root(s)) && Counted(s.mem, s.refcount, Root(s))
  {
    LiveAllHeld(s, s.current);
    InvSpace(s, s.current);
  }

  lemma CurrentSlot(s: State)
    requires Sized(s)
    ensures s.current == (s.current + 0) % NPROC
  {
  }

  lemma SlotAfter(s: State, d: nat)
    requires Sized(s)
    ensures ((s.current + d) % NPROC + 1) % NPROC == (s.current + (d + 1)) % NPROC
    ensures StateAfter(s, d + 1) == s.procs[(s.current + (d + 1)) % NPROC].state
  {
  }

  /** A turn of NPROC slots meets every process. */
  lemma WholeTurn(s: State)
    requires Sized(s) && forall k: nat :: 1 <= k <= NPROC ==> StateAfter(s, k) != PRunnable
    ensures forall i: nat :: i < NPROC ==> s.procs[i].state != PRunnable
  {
    forall i: nat | i < NPROC ensures s.procs[i].state != PRunnable {
      var d := if i > s.current then i - s.current else i + NPROC - s.current;
      assert StateAfter(s, d) == s.procs[i].state;
    }
  }

  lemma KernelWalk(mem: seq<Frame>, va: nat)
    requires KernelLinks(mem) && va < NPAGES * PAGESIZE
    ensures Canonical(va) && Walk(mem, KERNEL_PT, va) == Cursor(0, At(KERNEL_PT + 3, va / PAGESIZE), PWU)
  {
    assert PageIndex(va, 3) == 0 && PageIndex(va, 2) == 0 && PageIndex(va, 1) == 0 && PageIndex(va, 0) == va / PAGESIZE;
    var p := ALL_PERM.And(PWU);
    calc {
      Walk(mem, KERNEL_PT, va);
      Descend(mem, 2, KERNEL_PT + 1, p, va);
      Descend(mem, 1, KERNEL_PT + 2, p.And(PWU), va);
      Descend(mem, 0, KERNEL_PT + 3, p.And(PWU).And(PWU), va);
    }
  }

  /** The iterator reports the physical address the hardware would use. */
  lemma PaMatchesHardware(mem: seq<Frame>, pt: nat, va: nat)
    requires Closed(mem, pt) && (Walk(mem, pt, va).level > 0 ==> !Entry(mem, Walk(mem, pt, va).slot).perm.p)
    ensures PaAt(mem, pt, va) == match Translate(mem, pt, va) case None => None case Some(a) => Some(a.pa)
  {
    WalkMatchesHardware(mem, pt, va);
    hide Walk, Translate, Closed;
  }

  lemma CheckPasses(s: State, i: nat)
    requires Inv(s) && Live(s, i)
    ensures var pt := s.procs[i].pagetable;
            && pt < NPAGES && Closed(s.mem, pt) && Closed(s.mem, KERNEL_PT)
            && PaAt(s.mem, pt, EXCEPTION_ENTRY) == Some(EXCEPTION_ENTRY)
            && PaAt(s.mem, KERNEL_PT, pt * PAGESIZE) == Some(pt * PAGESIZE)
            && PaAt(s.mem, pt, KERNEL_PT * PAGESIZE) == Some(KERNEL_PT * PAGESIZE)
  {
    var pt := s.procs[i].pagetable;
    InvSpace(s, i);
    assert KernelTableOk(s.mem);
    assert KERNEL_END_PFN <= STACK_PFN;
    hide SpacesOk, Separate, CountsOk, ViewerOk, Leaf, Translate, Walk, PaAt;
    KernelWalk(s.mem, pt * PAGESIZE);
    KernelTranslate(s.mem, pt * PAGESIZE);
    PaMatchesHardware(s.mem, KERNEL_PT, pt * PAGESIZE);
    WalkPlain(s.mem, pt, EXCEPTION_ENTRY);
    AgreesWithKernel(s, i, EXCEPTION_ENTRY);
    PaMatchesHardware(s.mem, pt, EXCEPTION_ENTRY);
    WalkPlain(s.mem, pt, KERNEL_PT * PAGESIZE);
    AgreesWithKernel(s, i, KERNEL_PT * PAGESIZE);
    PaMatchesHardware(s.mem, pt, KERNEL_PT * PAGESIZE);
  }

  /** What the parent's iterator sees does not change while the child is built. */
  lemma ParentKept(s: State, mem: seq<Frame>, r: seq<nat>, child: nat, v: nat, va: nat)
    requires Inv(s) && Live(s, s.current) && Copying(s.mem, s.refcount, Root(s), mem, r, child, v)
    ensures |mem| == NPAGES && Space(mem, Root(s)) && Closed(mem, Root(s))
    ensures ParentOk(s.mem, s.refcount, Root(s)) && ByteCounts(s.refcount) && Leaf(s.mem, Root(s), 0).perm.p
    ensures forall w: nat :: Leaf(mem, Root(s), w) == Leaf(s.mem, Root(s), w) && LeafOk(w, Leaf(s.mem, Root(s), w))
    ensures Walk(mem, Root(s), va) == Walk(s.mem, Root(s), va)
  {
    InUseKeepsTables(s, mem);
    LiveViewsKept(s, mem);
    LiveAllHeld(s, s.current);
    InvSpace(s, s.current);
    assert TablesUntouched(s, mem);
    WalkFrame(s.mem, mem, Root(s), va);
    forall f: nat | f < NPAGES ensures s.refcount[f] <= REFCOUNT_MAX { CountsStaySmall(s, f); }
    assert SameView(s.mem, mem, Root(s));
  }

  /** A call that fails before the first page changes nothing, and takes no count past its limit. */
  lemma NothingForked(s: State)
    requires Inv(s)
    requires (forall i: nat :: 1 <= i < NPROC ==> s.procs[i].state != PFree) || FreeCount(s.refcount) == 0
    ensures ForkUndone(s, s) && !Wraps(s)
  {
  }

  lemma ForkStarts(s: State, pt: nat)
    requires Inv(s) && Live(s, s.current) && pt < NPAGES && Free(s.refcount, pt)
    ensures Copying(s.mem, s.refcount, Root(s), s.mem[pt := Filled(ZERO)], s.refcount[pt := 1], pt, 0)
  {
    CopyingStarts(s.mem, s.refcount, Root(s), pt);
  }

  lemma ForkFailed(s: State, s': State, child: nat)
    requires Inv(s) && 1 <= child < NPROC && s.procs[child].state == PFree
    requires RolledBack(s.mem, s.refcount, s'.mem, s'.refcount) && s'.current == s.current && s'.viewer == s.viewer
    requires |s'.procs| == NPROC && s'.procs ==
             s.procs[child := s.procs[child].(pagetable := s'.procs[child].pagetable)]
    ensures ForkUndone(s, s')
  {
  }

  lemma ForkSucceeded(s: State, s': State, child: nat)
    requires Inv(s) && Live(s, s.current) && FirstFree(s, child) && |s'.procs| == NPROC
    requires var root := s'.procs[child].pagetable;
             && Copying(s.mem, s.refcount, Root(s), s'.mem, s'.refcount, root, VIRTUAL_END)
             && s'.procs == s.procs[child := Proc(root, child, s.procs[s.current].state,
                s.procs[s.current].regs.(rax := 0))]
    requires s'.current == s.current && s'.viewer == s.viewer
    ensures ForkDone(s, s', child)
    ensures FreeCount(s.refcount) >= 5 + PrivatePages(s.mem, Root(s), VIRTUAL_END)
  {
    hide SpacesOk, Separate, CountsOk, ViewerOk, KernelTableOk, Leaf, CopyOf, Holds;
    var root := s'.procs[child].pagetable;
    ChildComplete(s, s'.mem, s'.refcount, root);
    CompleteTables(s'.mem, root);
    assert Tables(s'.mem, root) == 5;
  }

  /** Counts as 8-bit fields hold them. */
  predicate ByteCounts(r: seq<nat>) {
    |r| == NPAGES && forall f: nat :: f < NPAGES ==> r[f] <= REFCOUNT_MAX
  }

  /** There were not enough frames for the child up to page `v`. */
  ghost predicate TooFew(m0: seq<Frame>, r0: seq<nat>, parent: nat, v: nat)
    requires |r0| == NPAGES
  {
    v < VIRTUAL_END && FreeCount(r0) < TablesTo(v) + PrivatePages(m0, parent, v + 1)
  }

  /** Page `v` was shared and its count went from the limit to 0. */
  ghost predicate Wrapped(m0: seq<Frame>, r0: seq<nat>, parent: nat, v: nat, m: seq<Frame>, r: seq<nat>)
    requires |r0| == NPAGES
  {
    && FullPage(m0, r0, parent, v) && |m| == |m0| == |r| == NPAGES && r[Leaf(m0, parent, v).pfn] == 0
    && FreeCount(r0) >= TablesTo(v) + PrivatePages(m0, parent, v)
    && (forall f: nat :: f < NPAGES && !Free(r0, f) ==> m[f] == m0[f])
    && (forall f: nat :: f < NPAGES && f != Leaf(m0, parent, v).pfn ==> r[f] >= r0[f])
  }

  /** The frame of page `v` of the current process, shared at the limit in `s`, is free for the allocator in `s'`; the
      process still holds it, and nothing else in use has changed or lost a reference. */
  ghost predicate HandsOut(s: State, s': State, v: nat) {
    && Sized(s) && Sized(s') && s'.current == s.current && s'.procs[s.current] == s.procs[s.current]
    && FullPage(s.mem, s.refcount, Root(s), v)
    && Free(s'.refcount, Leaf(s.mem, Root(s), v).pfn) && LiveHolds(s', s.current, Leaf(s.mem, Root(s), v).pfn)
    && (forall f: nat :: f < NPAGES && !Free(s.refcount, f) ==> s'.mem[f] == s.mem[f])
    && (forall f: nat :: f < NPAGES && f != Leaf(s.mem, Root(s), v).pfn ==> s'.refcount[f] >= s.refcount[f])
  }

  ghost predicate HandsOutUsed(s: State, s': State) {
    exists v: nat :: HandsOut(s, s', v)
  }

  /** Only a page that is shared and present can be at its limit. */
  lemma NotShared(m0: seq<Frame>, r0: seq<nat>, parent: nat, v: nat)
    requires |r0| == NPAGES
    ensures FullPage(m0, r0, parent, v) ==> SharedEntry(Leaf(m0, parent, v))
    ensures SharedEntry(Leaf(m0, parent, v)) ==> !Private(v, Leaf(m0, parent, v)) && Leaf(m0, parent, v).perm.p
  {
  }

  /** Before its count is raised, a shared page has as many references as before the fork. */
  lemma SharedCount(m0: seq<Frame>, r0: seq<nat>, parent: nat, child: nat, v: nat, m2: seq<Frame>, r2: seq<nat>)
    requires |r2| == NPAGES && v < VIRTUAL_END && ByteCounts(r0) && ParentOk(m0, r0, parent)
             && Leaf(m0, parent, 0).perm.p
    requires var e := Leaf(m0, parent, v);
             && SharedEntry(e) && e.pfn < NPAGES
             && Copying(m0, r0, parent, m2, r2[e.pfn := r2[e.pfn] + 1], child, v + 1)
    ensures var f := Leaf(m0, parent, v).pfn; var r := (r2[f] + 1) % 256;
            && (r == 0 <==> FullPage(m0, r0, parent, v))
            && (r != 0 ==> r == r2[f] + 1)
            && (r == 0 ==> Wrapped(m0, r0, parent, v, m2, r2[f := r]))
  {
    var e := Leaf(m0, parent, v);
    var f := e.pfn;
    ParentPage(m0, r0, parent, v);
    assert CopyOf(m0, r0, m2, v, e, Leaf(m2, child, v));
    assert Refers(m2, child, PageUse(v), f);
    assert Holds(m2, child, f);
    assert CopyOf(m0, r0, m2, 0, Leaf(m0, parent, 0), Leaf(m2, child, 0));
    SharedTables(m2, child, v);
    hide Space, Holds, Refers, Leaf, CopyOf, Tables, Table;
    assert r2[f] == r0[f];
  }

  /** A mapped page needs its table pages. */
  lemma SharedTables(mem: seq<Frame>, child: nat, v: nat)
    requires Space(mem, child) && PROC_START <= v < VIRTUAL_END && Leaf(mem, child, v).perm.p
    requires v >= 512 ==> Leaf(mem, child, 0).perm.p
    ensures Tables(mem, child) >= TablesTo(v)
  {
    assert v / 512 == if v < 512 then 0 else 1;
    TableInRange(mem, child, 0, v / 512);
    TableInRange(mem, child, 1, 0);
  }

  /** No page below `v` is at its limit and the frames do not suffice up to `v`: the fork cannot reach one. */
  lemma FailsFirst(s: State, v: nat)
    requires Inv(s) && TooFew(s.mem, s.refcount, Root(s), v)
    requires forall w: nat :: w < v ==> !FullPage(s.mem, s.refcount, Root(s), w)
    ensures !Wraps(s) && FreeCount(s.refcount) < 5 + PrivatePages(s.mem, Root(s), VIRTUAL_END)
  {
    hide SpacesOk, Separate, CountsOk, ViewerOk, KernelTableOk, Leaf;
    PrivatePagesGrow(s.mem, Root(s), v + 1, VIRTUAL_END);
    forall w: nat | FullPage(s.mem, s.refcount, Root(s), w)
      ensures FreeCount(s.refcount) < TablesTo(w) + PrivatePages(s.mem, Root(s), w)
    {
      if w > v {
        PrivatePagesGrow(s.mem, Root(s), v + 1, w);
      } else {
        NotShared(s.mem, s.refcount, Root(s), v);
      }
    }
  }

  lemma NeverFull(s: State)
    requires Sized(s) && forall v: nat :: v < VIRTUAL_END ==> !FullPage(s.mem, s.refcount, Root(s), v)
    ensures !Wraps(s)
  {
    assert forall v: nat :: FullPage(s.mem, s.refcount, Root(s), v) ==> v < VIRTUAL_END;
  }

  lemma WrapsHere(s: State, s': State, v: nat, child: nat)
    requires Inv(s) && Live(s, s.current) && FirstFree(s, child)
    requires Sized(s') && s'.current == s.current && s'.procs[s.current] == s.procs[s.current]
    requires Wrapped(s.mem, s.refcount, Root(s), v, s'.mem, s'.refcount)
    ensures Wraps(s) && HandsOutUsed(s, s')
  {
    var f := Leaf(s.mem, Root(s), v).pfn;
    InUseKeepsTables(s, s'.mem);
    LiveViewsKept(s, s'.mem);
    LiveAllHeld(s, s.current);
    InvSpace(s, s.current);
    hide SpacesOk, Separate, CountsOk, ViewerOk, KernelTableOk, PrivatePages, TablesUntouched;
    assert LeafOk(v, Leaf(s.mem, Root(s), v));
    assert Refers(s.mem, Root(s), PageUse(v), f);
    assert Holds(s.mem, Root(s), f);
    assert SameView(s.mem, s'.mem, Root(s));
    hide Space, Leaf, Refers, Holds, Complete;
    assert LiveHolds(s', s'.current, f);
    assert HandsOut(s, s', v);
  }

  /** The fork has been undone: counts and frames in use are as before. */
  ghost predicate RolledBack(m0: seq<Frame>, r0: seq<nat>, m: seq<Frame>, r: seq<nat>) {
    |m0| == |m| == |r0| == NPAGES && r == r0 && forall f: nat :: f < NPAGES && !Free(r0, f) ==> m[f] == m0[f]
  }

  lemma PrivateSource(m0: seq<Frame>, r0: seq<nat>, parent: nat, m: seq<Frame>, r: seq<nat>, child: nat, v: nat)
    requires ParentOk(m0, r0, parent) && Copying(m0, r0, parent, m, r, child, v) && Private(v, Leaf(m0, parent, v))
    ensures var e := Leaf(m0, parent, v);
            && e.pfn < NPAGES && !Free(r, e.pfn) && e.perm == PWU
            && Space(m, child) && AllHeld(m, r, child)
  {
    ParentPage(m0, r0, parent, v);
    CopyingAllHeld(m0, r0, parent, m, r, child, v);
  }

  lemma SharedSource(m0: seq<Frame>, r0: seq<nat>, parent: nat, m: seq<Frame>, r: seq<nat>, child: nat, v: nat)
    requires ParentOk(m0, r0, parent) && Copying(m0, r0, parent, m, r, child, v) && v < VIRTUAL_END
    ensures var e := Leaf(m0, parent, v);
            && e.pfn < NPAGES && e.rest == 0 && !e.perm.ps && (!e.perm.p ==> e == ZERO)
            && Space(m, child) && AllHeld(m, r, child) && Leaf(m, child, v) == ZERO
  {
    ParentPage(m0, r0, parent, v);
    CopyingAllHeld(m0, r0, parent, m, r, child, v);
  }

  /** Nothing was taken for the page, so the frames were used up before. */
  lemma NoFrameForPage(m0: seq<Frame>, r0: seq<nat>, parent: nat, m: seq<Frame>, r: seq<nat>, child: nat, v: nat)
    requires Copying(m0, r0, parent, m, r, child, v) && v < VIRTUAL_END && FreeCount(r) == 0
    requires Private(v, Leaf(m0, parent, v))
    ensures TooFew(m0, r0, parent, v)
    ensures Space(m, child) && Counted(m, r, child)
    ensures Undoable(m0, r0, m, r, child, None)
  {
    HeldAllocatable(m, child);
    hide Space, Leaf;
  }

  /** Once what `child` holds (and the pending frame `x`) is given back, everything is as before. */
  ghost predicate Undoable(m0: seq<Frame>, r0: seq<nat>, m: seq<Frame>, r: seq<nat>, child: nat, x: Option<nat>) {
    && |m0| == |m| == |r0| == |r| == NPAGES
    && (forall f: nat :: f < NPAGES ==>
       r[f] == r0[f] + (if Holds(m, child, f) then 1 else 0) + (if x == Some(f) then 1 else 0))
    && (forall f: nat :: f < NPAGES && !Free(r0, f) ==> m[f] == m0[f])
  }

  lemma FailedCounts(m0: seq<Frame>, r0: seq<nat>, parent: nat, m: seq<Frame>, r: seq<nat>, child: nat, v: nat,
                     x: Option<nat>, m1: seq<Frame>, r1: seq<nat>, m2: seq<Frame>, r2: seq<nat>, g: map<nat, nat>)
    requires ParentOk(m0, r0, parent) && Copying(m0, r0, parent, m, r, child, v) && v < VIRTUAL_END
    requires PageTaken(m, r, Leaf(m0, parent, v).pfn, x, m1, r1) && (x.Some? ==> Private(v, Leaf(m0, parent, v)))
    requires Grown(m1, r1, m2, r2, child, v * PAGESIZE, g) && Closed(m2, child) && PlainLinks(m2, child)
    requires (forall w: nat :: Leaf(m2, child, w) == Leaf(m1, child, w)) && FreeCount(r2) == 0
    requires Table(m2, child, 0, v / 512) == None
    ensures TooFew(m0, r0, parent, v)
    ensures Space(m2, child) && Counted(m2, r2, child)
    ensures Undoable(m0, r0, m2, r2, child, x)
  {
    hide ParentOk, Closed, PlainLinks, Leaf, GrownTables, PageTaken, Space, Holds;
    assert |m2| == |r2| == NPAGES;
    PageFailed(m0, r0, parent, m, r, child, v, x, m1, r1, m2, r2, g);
    HeldAllocatable(m2, child);
    assert v / 512 == if v < 512 then 0 else 1;
    assert Tables(m2, child) < TablesTo(v);
    assert PrivatePages(m0, parent, v + 1) >= PrivatePages(m0, parent, v) + if x.Some? then 1 else 0;
  }

  lemma PendingLeft(r0: seq<nat>, r3: seq<nat>, r4: seq<nat>, mem: seq<Frame>, child: nat, x: nat)
    requires |r0| == |r3| == |r4| == NPAGES && x < NPAGES
    requires r3[x] == r0[x] + (if Holds(mem, child, x) then 1 else 0) + 1
    requires r4[x] + (if Holds(mem, child, x) then 1 else 0) == r3[x]
    ensures r4[x] == r0[x] + 1
  {
  }

  lemma RollBack(m0: seq<Frame>, r0: seq<nat>, mem: seq<Frame>, r: seq<nat>, r': seq<nat>, child: nat, x: Option<nat>)
    requires Undoable(m0, r0, mem, r, child, x) && |r'| == NPAGES
    requires forall f: nat :: f < NPAGES ==>
               r'[f] + (if Holds(mem, child, f) then 1 else 0) + (if x == Some(f) then 1 else 0) == r[f]
    ensures RolledBack(m0, r0, mem, r')
  {
  }

  lemma CopiedCounts(m0: seq<Frame>, r0: seq<nat>, parent: nat, m: seq<Frame>, r: seq<nat>, child: nat, v: nat,
                     x: Option<nat>, m1: seq<Frame>, r1: seq<nat>, m2: seq<Frame>, r2: seq<nat>, g: map<nat, nat>)
    requires ParentOk(m0, r0, parent) && Copying(m0, r0, parent, m, r, child, v) && v < VIRTUAL_END
    requires var e := Leaf(m0, parent, v);
             && (x.Some? <==> Private(v, e)) && PageTaken(m, r, e.pfn, x, m1, r1)
             && MappedTo(m1, m2, child, v * PAGESIZE, g, ChildEntry(v, e, x))
    requires Grown(m1, r1, m2, r2, child, v * PAGESIZE, g) && Closed(m2, child) && PlainLinks(m2, child)
    ensures var e := Leaf(m0, parent, v);
            if SharedEntry(e)
            then e.pfn < NPAGES && Copying(m0, r0, parent, m2, r2[e.pfn := r2[e.pfn] + 1], child, v + 1)
            else Copying(m0, r0, parent, m2, r2, child, v + 1)
  {
    hide ParentOk, Copying, Closed, PlainLinks, Leaf, Grown, PageTaken, MappedTo;
    PageCopied(m0, r0, parent, m, r, child, v, x, m1, r1, m2, r2, g);
  }

  /** A frame that is taken but not yet mapped is not taken again. */
  lemma PendingStays(r0: seq<nat>, r1: seq<nat>, g: map<nat, nat>, pa: nat)
    requires GrownCounts(r0, r1, g) && pa < NPAGES && r0[pa] == 1
    ensures r1[pa] == 1
  {
    assert pa !in g.Values;
  }

  /** After a free frame has been taken and zeroed, the current process can map any page without
      needing another frame. */
  lemma ZeroedReady(s: State, v: nat, f: nat)
    requires Inv(s) && Live(s, s.current) && v < VIRTUAL_END && f < NPAGES && Free(s.refcount, f)
    ensures var mem, r := s.mem[f := Filled(ZERO)], s.refcount[f := 1];
            && Closed(mem, Root(s)) && TreeShaped(mem, Root(s)) && TablesHeld(mem, r, Root(s))
            && var c, t := Walk(mem, Root(s), v * PAGESIZE), Table(s.mem, Root(s), 0, v / 512);
            && Canonical(v * PAGESIZE) && c.perm.Covers(PWU) && c.level == 0
            && t.Some? && t.value != f && c.slot == At(t.value, v % 512)
  {
    var mem, r, root := s.mem[f := Filled(ZERO)], s.refcount[f := 1], Root(s);
    CompleteTables(s.mem, root);
    var t := Table(s.mem, root, 0, v / 512).value;
    FrameCleared(s, v, f, t);
    LiveAllHeld(s, s.current);
    hide SpacesOk, Separate, CountsOk, ViewerOk, KernelTableOk, Leaf, Users;
    assert !Free(s.refcount, t);
    var s1 := s.(mem := mem);
    LiveAllHeld(s1, s.current);
    assert AllHeld(mem, r, root);
    InvSpace(s1, s.current);
    MapReady(mem, r, root, v);
  }
}
