/** The kernel as a state machine: one step per system call, exception or user instruction, and
    the proof that every step keeps the invariant. */
module Steps {
  import opened Paging
  import opened Physical
  import opened Walks
  import opened Growth
  import opened Spaces
  import opened KernelSpec
  import opened Forking

  function Root(s: State): nat
    requires Sized(s)
  {
    s.procs[s.current].pagetable
  }

  predicate Running(s: State) {
    Sized(s) && s.procs[s.current].state == PRunnable
  }

  // ----- The steps

  /** `sys_page_alloc(addr)`: needs exactly one free frame, which comes back zeroed and mapped. */
  ghost predicate PageAllocSpec(s: State, addr: nat, s': State, r: int)
    requires Sized(s)
  {
    if addr % PAGESIZE != 0 || addr < PROC_START * PAGESIZE || addr >= VIRTUAL_END * PAGESIZE
        || FreeCount(s.refcount) == 0
    then r == -1 && s' == s
    else r == 0 && exists f: nat :: f < NPAGES && PageAdded(s, addr / PAGESIZE, f, s')
  }

  /** Frame `f` was free; it is now zeroed and mapped at `v`, and nothing else has changed. */
  ghost predicate PageAdded(s: State, v: nat, f: nat, s': State)
    requires Sized(s)
  {
    var t := Table(s.mem, Root(s), 0, v / 512);
    && t.Some? && f < NPAGES && Free(s.refcount, f) && f != t.value
    && s' == s.(refcount := s.refcount[f := 1],
                mem := s.mem[f := Filled(ZERO)][t.value := s.mem[t.value][v % 512 := Word(f, PWU, 0)]])
  }

  /** The first free slot, from 1. */
  predicate FirstFree(s: State, child: nat) {
    && |s.procs| == NPROC && 1 <= child < NPROC && s.procs[child].state == PFree
    && forall j: nat :: 1 <= j < child ==> s.procs[j].state != PFree
  }

  ghost predicate ForkDone(s: State, s': State, child: nat)
    requires Sized(s)
  {
    && FirstFree(s, child) && |s'.procs| == NPROC
    && var root := s'.procs[child].pagetable;
    && s'.procs == s.procs[child := Proc(root, child, s.procs[s.current].state, s.procs[s.current].regs.(rax := 0))]
    && Copying(s.mem, s.refcount, Root(s), s'.mem, s'.refcount, root, VIRTUAL_END)
    && s'.current == s.current && s'.viewer == s.viewer
  }

  /** Nothing observable is left of a failed fork: every count, every frame in use and every slot
      are as before, except the page-table pointer of a free slot. */
  ghost predicate ForkUndone(s: State, s': State)
    requires Sized(s)
  {
    && s'.refcount == s.refcount && s'.current == s.current && s'.viewer == s.viewer
    && |s'.mem| == NPAGES && (forall f: nat :: f < NPAGES && !Free(s.refcount, f) ==> s'.mem[f] == s.mem[f])
    && |s'.procs| == NPROC
    && forall i: nat :: i < NPROC ==>
         s'.procs[i] == if s.procs[i].state == PFree then s.procs[i].(pagetable := s'.procs[i].pagetable)
             else s.procs[i]
  }

  /** `sys_fork()` succeeds exactly when a slot is free and there are frames for five table pages
      and every private page. */
  ghost predicate ForkSpec(s: State, s': State, r: int)
    requires Sized(s)
  {
    if (exists i: nat :: 1 <= i < NPROC && s.procs[i].state == PFree)
       && FreeCount(s.refcount) >= 5 + PrivatePages(s.mem, Root(s), VIRTUAL_END)
    then r > 0 && ForkDone(s, s', r)
    else r == -1 && ForkUndone(s, s')
  }

  /** `sys_exit()`: everything the process holds loses one reference. */
  ghost predicate ExitSpec(s: State, s': State)
    requires Sized(s)
  {
    && |s'.refcount| == NPAGES
    && (forall f: nat :: f < NPAGES ==>
          s'.refcount[f] + (if Holds(s.mem, Root(s), f) then 1 else 0) == s.refcount[f])
    && s' == s.(refcount := s'.refcount, procs := s.procs[s.current := s.procs[s.current].(state := PFree)])
  }

  /** `schedule()`: the first runnable process after the current one, cyclically. */
  ghost predicate ScheduleSpec(s: State, s': State)
    requires Sized(s)
  {
    exists d: nat :: 1 <= d <= NPROC && Picks(s, d) && s' == s.(current := (s.current + d) % NPROC)
  }

  predicate Picks(s: State, d: nat)
    requires Sized(s)
  {
    StateAfter(s, d) == PRunnable && forall k: nat :: 1 <= k < d ==> StateAfter(s, k) != PRunnable
  }

  /** The state of the slot `k` places after the current one. */
  function StateAfter(s: State, k: nat): ProcState
    requires Sized(s)
  {
    s.procs[(s.current + k) % NPROC].state
  }

  /** A user store that the paging hardware allows. */
  ghost predicate StoreSpec(s: State, va: nat, w: Word, s': State)
    requires Sized(s)
  {
    && Root(s) < NPAGES
    && var a := Translate(s.mem, Root(s), va);
    && a.Some? && a.value.user && a.value.writable && a.value.pa / PAGESIZE < NPAGES
    && var f, i := a.value.pa / PAGESIZE, a.value.pa % PAGESIZE / 8;
    && s' == s.(mem := s.mem[f := s.mem[f][i := w]])
  }

  /** A page fault breaks the current process. */
  predicate FaultSpec(s: State, s': State)
    requires Sized(s)
  {
    s' == s.(procs := s.procs[s.current := s.procs[s.current].(state := PBroken)])
  }

  /** `memshow()`: the viewer takes a page of its own once and then only writes to it. */
  ghost predicate MemshowSpec(s: State, contents: Frame, s': State)
    requires Sized(s)
  {
    match s.viewer
    case Some(f) => f < NPAGES && s' == s.(mem := s.mem[f := contents])
    case None =>
      exists f: nat :: f < NPAGES && Free(s.refcount, f)
        && s' == s.(mem := s.mem[f := contents], refcount := s.refcount[f := 1], viewer := Some(f))
  }

  datatype Event =
    | PageAlloc(addr: nat)
    | Fork
    | Exit
    | Schedule
    | Store(va: nat, w: Word)
    | Fault
    | Memshow(contents: Frame)

  /** `sys_fork()` would take an 8-bit count past its limit: a slot is free, and the frames suffice up to a page
      that fork shares and whose count is at the limit. */
  predicate Wraps(s: State)
    requires Sized(s)
  {
    && (exists i: nat :: 1 <= i < NPROC && s.procs[i].state == PFree)
    && exists v: nat :: v < VIRTUAL_END && FullPage(s.mem, s.refcount, Root(s), v)
                        && FreeCount(s.refcount) >= TablesTo(v) + PrivatePages(s.mem, Root(s), v)
  }

  /** No page that fork would share has a count at the limit. */
  ghost predicate NoneFull(s: State)
    requires Sized(s)
  {
    forall v: nat :: !FullPage(s.mem, s.refcount, Root(s), v)
  }

  /** What an event does. User events happen while the current process runs; a fork does not take a count past
      its limit. */
  ghost predicate Effect(s: State, e: Event, s': State)
    requires Sized(s)
  {
    match e
    case PageAlloc(addr) => Running(s) && exists r: int :: PageAllocSpec(s, addr, s', r)
    case Fork => Running(s) && !Wraps(s) && exists r: int :: ForkSpec(s, s', r)
    case Exit => Running(s) && ExitSpec(s, s')
    case Schedule => ScheduleSpec(s, s')
    case Store(va, w) => Running(s) && StoreSpec(s, va, w, s')
    case Fault => Running(s) && FaultSpec(s, s')
    case Memshow(contents) => MemshowSpec(s, contents, s')
  }

  /** One step. */
  ghost predicate Next(s: State, e: Event, s': State) {
    Sized(s) && Sized(s') && Effect(s, e, s')
  }

  lemma EffectSized(s: State, e: Event, s': State)
    requires Sized(s) && Effect(s, e, s')
    ensures Sized(s')
  {
    hide Space, Leaf, Holds, Translate, PrivatePages, IsUserPage;
  }

  // ----- Steps that only change memory outside the page tables

  /** All page tables are untouched. */
  ghost predicate TablesUntouched(s: State, mem: seq<Frame>)
    requires Sized(s)
  {
    && |mem| == NPAGES
    && (forall f: nat :: f < NPAGES && !Allocatable(f) && f != CONSOLE_PFN ==> mem[f] == s.mem[f])
    && forall i: nat, l: nat, q: nat, f: nat :: Live(s, i) && IsTable(s.mem, s.procs[i].pagetable, l, q, f) ==>
       mem[f] == s.mem[f]
  }

  lemma KernelTableKept(mem: seq<Frame>, mem': seq<Frame>)
    requires KernelTableOk(mem) && |mem'| == NPAGES
    requires forall f: nat :: KERNEL_PT <= f < KERNEL_PT + 5 ==> mem'[f] == mem[f]
    ensures KernelTableOk(mem')
  {
    TreeFrame(mem, mem', KERNEL_PT);
  }

  /** A page table means the same in two memories. */
  ghost predicate SameView(m0: seq<Frame>, m1: seq<Frame>, root: nat) {
    && (forall v: nat :: Leaf(m1, root, v) == Leaf(m0, root, v))
    && (forall u: Use, f: nat :: Refers(m1, root, u, f) <==> Refers(m0, root, u, f))
    && (forall f: nat :: Holds(m1, root, f) <==> Holds(m0, root, f))
  }

  lemma ViewKept(m0: seq<Frame>, m1: seq<Frame>, root: nat)
    requires |m0| == |m1| && Space(m0, root) && Complete(m0, root)
    requires forall l: nat, q: nat, f: nat :: IsTable(m0, root, l, q, f) ==> m1[f] == m0[f]
    ensures Space(m1, root) && Complete(m1, root) && SameView(m0, m1, root)
  {
    SpaceFrame(m0, m1, root);
    HoldsSame(m0, m1, root);
  }

  /** Processes that are live in both states with unchanged page tables stay separate. */
  ghost predicate SameSpaces(s: State, s': State) {
    && |s.procs| == |s'.procs|
    && forall i: nat :: Live(s', i) ==>
         Live(s, i) && s'.procs[i].pagetable == s.procs[i].pagetable && SameView(s.mem, s'.mem, s.procs[i].pagetable)
  }

  lemma SeparateKept(s: State, s': State)
    requires Separate(s) && SameSpaces(s, s')
    ensures Separate(s')
  {
    hide Leaf, Refers, Holds;
    forall i: nat, j: nat, u: Use, w: Use, f: nat |
      Live(s', i) && Live(s', j) && i != j
      && Refers(s'.mem, s'.procs[i].pagetable, u, f) && Refers(s'.mem, s'.procs[j].pagetable, w, f)
      ensures u == w && SharedUse(s'.mem, s'.procs[i].pagetable, u) && SharedUse(s'.mem, s'.procs[j].pagetable, w)
    {
      assert Refers(s.mem, s.procs[i].pagetable, u, f) && Refers(s.mem, s.procs[j].pagetable, w, f);
    }
  }

  lemma UsersKept(s: State, s': State, f: nat)
    requires SameSpaces(s, s') && (forall i: nat :: Live(s, i) ==> Live(s', i))
    ensures Users(s', f, NPROC) == Users(s, f, NPROC)
  {
    hide Holds, Leaf, Refers;
    UsersSame(s, s', f, NPROC);
  }

  lemma LiveViewsKept(s: State, mem: seq<Frame>)
    requires Inv(s) && TablesUntouched(s, mem)
    ensures forall i: nat :: Live(s, i) ==>
              && Space(mem, s.procs[i].pagetable) && Complete(mem, s.procs[i].pagetable)
              && SameView(s.mem, mem, s.procs[i].pagetable)
    ensures KernelTableOk(mem)
  {
    forall i: nat | Live(s, i)
      ensures && Space(mem, s.procs[i].pagetable) && Complete(mem, s.procs[i].pagetable)
              && SameView(s.mem, mem, s.procs[i].pagetable)
    {
      ViewKept(s.mem, mem, s.procs[i].pagetable);
    }
    KernelTableKept(s.mem, mem);
  }

  lemma MemoryStepKeepsInv(s: State, s': State)
    requires Inv(s) && TablesUntouched(s, s'.mem) && s' == s.(mem := s'.mem)
    ensures Inv(s')
    ensures forall f: nat :: Users(s', f, NPROC) == Users(s, f, NPROC)
  {
    hide Space, Complete, SameView, Separate, KernelTableOk, Users;
    LiveViewsKept(s, s'.mem);
    assert SameSpaces(s, s');
    SeparateKept(s, s');
    forall f: nat ensures Users(s', f, NPROC) == Users(s, f, NPROC) {
      UsersKept(s, s', f);
    }
  }

  // ----- Stores

  /** In a process page table the hardware translates by the leaf entry. */
  lemma SpaceTranslate(mem: seq<Frame>, root: nat, va: nat)
    requires Space(mem, root)
    ensures var e := Leaf(mem, root, Vpn(va));
            Translate(mem, root, va) ==
              if Canonical(va) && e.perm.p then Some(Access(e.pfn * PAGESIZE + va % PAGESIZE, e.perm.w, e.perm.u))
                  else None
  {
    if Canonical(va) {
      WalkMatchesHardware(mem, root, va);
      WalkToLeaf(mem, root, va);
      WalkPlain(mem, root, va);
      var c, e := Walk(mem, root, va), Leaf(mem, root, Vpn(va));
      assert LeafOk(Vpn(va), e);
      hide Walk, Leaf, Translate, Table;
      assert e.perm == NO_PERM || e.perm == PW || e.perm == PU || e.perm == PWU;
    }
  }

  /** A store goes to the console or to a page that the current process alone holds. */
  lemma StoreTarget(s: State, va: nat)
    requires Inv(s) && Live(s, s.current)
    requires var a := Translate(s.mem, Root(s), va); a.Some? && a.value.user && a.value.writable
    ensures var f := Translate(s.mem, Root(s), va).value.pa / PAGESIZE;
            && f == Leaf(s.mem, Root(s), Vpn(va)).pfn < NPAGES
            && (f == CONSOLE_PFN
                || (Refers(s.mem, Root(s), PageUse(Vpn(va)), f) && Leaf(s.mem, Root(s), Vpn(va)).perm == PWU
                   && Allocatable(f)))
  {
    SpaceTranslate(s.mem, Root(s), va);
    assert LeafOk(Vpn(va), Leaf(s.mem, Root(s), Vpn(va)));
  }

  /** A writable user page is no table page of anybody. */
  lemma PrivateIsNoTable(s: State, v: nat, f: nat, i: nat, l: nat, q: nat)
    requires Inv(s) && Live(s, s.current) && Live(s, i)
    requires Refers(s.mem, Root(s), PageUse(v), f)
    ensures !IsTable(s.mem, s.procs[i].pagetable, l, q, f)
  {
    var root := s.procs[i].pagetable;
    assert IsTable(s.mem, root, l, q, f) ==> Refers(s.mem, root, TableUse(l, q), f);
    hide Refers, IsTable, HeldOnce, Separate;
    if IsTable(s.mem, root, l, q, f) {
      if i == s.current {
        HeldOnceAt(s.mem, root, PageUse(v), TableUse(l, q), f);
      } else {
        SeparateAt(s, s.current, i, PageUse(v), TableUse(l, q), f);
      }
    }
  }

  lemma HeldOnceAt(mem: seq<Frame>, root: nat, u: Use, w: Use, f: nat)
    requires HeldOnce(mem, root) && Refers(mem, root, u, f) && Refers(mem, root, w, f)
    ensures u == w
  {
    hide Refers;
  }

  lemma SeparateAt(s: State, i: nat, j: nat, u: Use, w: Use, f: nat)
    requires Separate(s) && Live(s, i) && Live(s, j) && i != j
    requires Refers(s.mem, s.procs[i].pagetable, u, f) && Refers(s.mem, s.procs[j].pagetable, w, f)
    ensures u == w && SharedUse(s.mem, s.procs[i].pagetable, u) && SharedUse(s.mem, s.procs[j].pagetable, w)
  {
    hide Refers, SharedUse;
  }

  lemma StoreKeepsInv(s: State, va: nat, w: Word, s': State)
    requires Inv(s) && Live(s, s.current) && StoreSpec(s, va, w, s')
    ensures Inv(s')
    ensures forall f: nat :: Users(s', f, NPROC) == Users(s, f, NPROC)
  {
    StoreTarget(s, va);
    var f := Translate(s.mem, Root(s), va).value.pa / PAGESIZE;
    forall i: nat, l: nat, q: nat, x: nat | Live(s, i) && IsTable(s.mem, s.procs[i].pagetable, l, q, x)
      ensures s'.mem[x] == s.mem[x]
    {
      if x == f {
        assert Allocatable(x);
        PrivateIsNoTable(s, Vpn(va), f, i, l, q);
      }
    }
    MemoryStepKeepsInv(s, s');
  }

  // ----- A process appears

  /** The page table at `root` can join the live ones: whatever it shares is read-only and at the
      same address, and it takes nothing that was put aside. */
  ghost predicate Joins(s: State, root: nat)
    requires Sized(s)
  {
    && Space(s.mem, root) && Complete(s.mem, root)
    && (forall i: nat, u: Use, w: Use, f: nat ::
          Live(s, i) && Refers(s.mem, s.procs[i].pagetable, u, f) && Refers(s.mem, root, w, f) ==>
            u == w && SharedUse(s.mem, s.procs[i].pagetable, u) && SharedUse(s.mem, root, w))
    && (forall f: nat :: Holds(s.mem, root, f) ==> f < NPAGES && s.refcount[f] < REFCOUNT_MAX && s.viewer != Some(f))
  }

  /** A live process replaces a free slot and its frames gain one reference each. */
  lemma ProcessAppears(s: State, s': State, child: nat, p: Proc)
    requires Inv(s) && 1 <= child < NPROC && !Live(s, child) && Joins(s, p.pagetable)
    requires p.state != PFree && p.pid == child
    requires s' == s.(procs := s.procs[child := p], refcount := s'.refcount) && |s'.refcount| == NPAGES
    requires forall f: nat :: f < NPAGES ==>
             s'.refcount[f] == s.refcount[f] + if Holds(s.mem, p.pagetable, f) then 1 else 0
    ensures Inv(s')
    ensures forall f: nat :: Users(s', f, NPROC) == Users(s, f, NPROC) + if Holds(s.mem, p.pagetable, f) then 1 else 0
  {
    hide Space, Complete, Refers, Holds, Leaf, KernelTableOk;
    forall f: nat ensures Users(s', f, NPROC) == Users(s, f, NPROC) + if Holds(s.mem, p.pagetable, f) then 1 else 0 {
      UsersDelta(s, s', f, NPROC, child);
    }
    HeldAllocatable(s.mem, p.pagetable);
    SeparateJoined(s, s', child, p);
    hide Users, Separate;
  }

  lemma HeldAllocatable(mem: seq<Frame>, root: nat)
    requires Space(mem, root)
    ensures forall f: nat :: Holds(mem, root, f) ==> Allocatable(f)
  {
    forall f: nat | Holds(mem, root, f) ensures Allocatable(f) { HeldIsAllocatable(mem, root, f); }
  }

  lemma SeparateJoined(s: State, s': State, child: nat, p: Proc)
    requires Sized(s) && Separate(s) && Joins(s, p.pagetable) && child < NPROC && !Live(s, child)
    requires s'.mem == s.mem && s'.procs == s.procs[child := p]
    ensures Separate(s')
  {
    hide Space, Complete, Refers, Holds, Leaf;
    forall i: nat, j: nat, u: Use, w: Use, f: nat |
      Live(s', i) && Live(s', j) && i != j
      && Refers(s'.mem, s'.procs[i].pagetable, u, f) && Refers(s'.mem, s'.procs[j].pagetable, w, f)
      ensures u == w && SharedUse(s'.mem, s'.procs[i].pagetable, u) && SharedUse(s'.mem, s'.procs[j].pagetable, w)
    {
      if i != child && j != child {
        assert Live(s, i) && Live(s, j);
      } else if i == child {
        assert Live(s, j);
      } else {
        assert Live(s, i);
      }
    }
  }

  // ----- A process disappears

  lemma ExitKeepsInv(s: State, s': State)
    requires Inv(s) && Live(s, s.current) && ExitSpec(s, s')
    ensures Inv(s')
    ensures forall f: nat :: Users(s', f, NPROC) == Users(s, f, NPROC) - if Holds(s.mem, Root(s), f) then 1 else 0
  {
    hide Space, Complete, Refers, Holds, Leaf, KernelTableOk, AllHeld, TablesHeld, Separate, SameView;
    LiveAllHeld(s, s.current);
    ViewItself(s);
    forall f: nat ensures Users(s', f, NPROC) == Users(s, f, NPROC) - if Holds(s.mem, Root(s), f) then 1 else 0 {
      UsersDelta(s, s', f, NPROC, s.current);
    }
    SeparateKept(s, s');
  }

  lemma ViewItself(s: State)
    ensures forall i: nat :: Live(s, i) ==> SameView(s.mem, s.mem, s.procs[i].pagetable)
  {
  }

  // ----- Fork

  /** Memory that agrees on every frame in use agrees on every page table. */
  lemma InUseKeepsTables(s: State, mem: seq<Frame>)
    requires Inv(s) && |mem| == NPAGES
    requires forall f: nat :: f < NPAGES && !Free(s.refcount, f) ==> mem[f] == s.mem[f]
    ensures TablesUntouched(s, mem)
  {
    forall i: nat, l: nat, q: nat, f: nat | Live(s, i) && IsTable(s.mem, s.procs[i].pagetable, l, q, f)
      ensures mem[f] == s.mem[f]
    {
      LiveAllHeld(s, i);
    }
  }

  lemma ForkUndoneKeepsInv(s: State, s': State)
    requires Inv(s) && ForkUndone(s, s')
    ensures Inv(s')
    ensures forall f: nat :: Users(s', f, NPROC) == Users(s, f, NPROC)
  {
    InUseKeepsTables(s, s'.mem);
    var s1 := s.(mem := s'.mem);
    MemoryStepKeepsInv(s, s1);
    hide Space, Complete, Refers, Holds, Leaf, KernelTableOk, TablesUntouched, Separate;
    assert SameSpaces(s1, s') by { assert forall i: nat :: Live(s', i) ==> s'.procs[i] == s1.procs[i]; }
    SeparateKept(s1, s');
    forall f: nat ensures Users(s', f, NPROC) == Users(s, f, NPROC) {
      UsersSame(s1, s', f, NPROC);
    }
    hide Users;
  }

  /** What the child of a fork shares with its parent. */
  lemma ChildUse(s: State, mem: seq<Frame>, r: seq<nat>, child: nat, u: Use, f: nat)
    requires Inv(s) && Live(s, s.current) && Copying(s.mem, s.refcount, Root(s), mem, r, child, VIRTUAL_END)
    requires Refers(mem, child, u, f)
    ensures f < NPAGES
    ensures Free(s.refcount, f) || (Refers(s.mem, Root(s), u, f) && SharedUse(s.mem, Root(s), u)
            && SharedUse(mem, child, u))
  {
    match u
    case TableUse(l, q) =>
    case PageUse(v) =>
      assert LeafOk(v, Leaf(s.mem, Root(s), v));
      assert CopyOf(s.mem, s.refcount, mem, v, Leaf(s.mem, Root(s), v), Leaf(mem, child, v));
  }

  lemma ChildComplete(s: State, mem: seq<Frame>, r: seq<nat>, child: nat)
    requires Inv(s) && Live(s, s.current) && Copying(s.mem, s.refcount, Root(s), mem, r, child, VIRTUAL_END)
    ensures Space(mem, child) && Complete(mem, child)
  {
    forall v: nat | v < PROC_START ensures Leaf(mem, child, v) == KernelEntry(v) {
      assert CopyOf(s.mem, s.refcount, mem, v, Leaf(s.mem, Root(s), v), Leaf(mem, child, v));
    }
    var v := VIRTUAL_END - 1;
    assert CopyOf(s.mem, s.refcount, mem, v, Leaf(s.mem, Root(s), v), Leaf(mem, child, v));
  }

  lemma ChildJoins(s: State, s1: State, r: seq<nat>, child: nat)
    requires Inv(s) && Live(s, s.current) && NoneFull(s)
             && Copying(s.mem, s.refcount, Root(s), s1.mem, r, child, VIRTUAL_END)
    requires s1 == s.(mem := s1.mem) && (forall i: nat :: Live(s, i) ==> SameView(s.mem, s1.mem, s.procs[i].pagetable))
    requires forall f: nat :: Users(s1, f, NPROC) == Users(s, f, NPROC)
    ensures Joins(s1, child)
  {
    hide Space, Complete, Refers, Holds, Users, SharedUse, Inv, Copying, SameView;
    ChildComplete(s, s1.mem, r, child);
    ChildSharesOnly(s, s1, r, child);
    ChildTakes(s, s1.mem, r, child);
  }

  lemma ChildSharesOnly(s: State, s1: State, r: seq<nat>, child: nat)
    requires Inv(s) && Live(s, s.current) && Copying(s.mem, s.refcount, Root(s), s1.mem, r, child, VIRTUAL_END)
    requires s1 == s.(mem := s1.mem) && (forall i: nat :: Live(s, i) ==> SameView(s.mem, s1.mem, s.procs[i].pagetable))
    ensures forall i: nat, u: Use, w: Use, f: nat ::
              Live(s1, i) && Refers(s1.mem, s1.procs[i].pagetable, u, f) && Refers(s1.mem, child, w, f) ==>
                u == w && SharedUse(s1.mem, s1.procs[i].pagetable, u) && SharedUse(s1.mem, child, w)
  {
    hide Inv, Copying, SameView, Refers, SharedUse, Leaf;
    forall i: nat, u: Use, w: Use, f: nat |
      Live(s1, i) && Refers(s1.mem, s1.procs[i].pagetable, u, f) && Refers(s1.mem, child, w, f)
      ensures u == w && SharedUse(s1.mem, s1.procs[i].pagetable, u) && SharedUse(s1.mem, child, w)
    {
      ChildSeparate(s, s1, r, child, i, u, w, f);
    }
  }

  lemma ChildTakes(s: State, mem: seq<Frame>, r: seq<nat>, child: nat)
    requires Inv(s) && Live(s, s.current) && NoneFull(s)
             && Copying(s.mem, s.refcount, Root(s), mem, r, child, VIRTUAL_END)
    ensures forall f: nat :: Holds(mem, child, f) ==>
              f < NPAGES && s.refcount[f] < REFCOUNT_MAX && s.viewer != Some(f)
  {
    forall f: nat | Holds(mem, child, f)
      ensures f < NPAGES && s.refcount[f] < REFCOUNT_MAX && s.viewer != Some(f)
    {
      ChildHolds(s, mem, r, child, f);
    }
  }

  lemma ChildSeparate(s: State, s1: State, r: seq<nat>, child: nat, i: nat, u: Use, w: Use, f: nat)
    requires Inv(s) && Live(s, s.current) && Copying(s.mem, s.refcount, Root(s), s1.mem, r, child, VIRTUAL_END)
    requires s1 == s.(mem := s1.mem) && Live(s, i) && SameView(s.mem, s1.mem, s.procs[i].pagetable)
    requires Refers(s1.mem, s.procs[i].pagetable, u, f) && Refers(s1.mem, child, w, f)
    ensures u == w && SharedUse(s1.mem, s.procs[i].pagetable, u) && SharedUse(s1.mem, child, w)
  {
    hide Refers, Leaf, HeldOnce, Separate, Copying;
    ChildUse(s, s1.mem, r, child, w, f);
    assert Refers(s.mem, s.procs[i].pagetable, u, f);
    assert Holds(s.mem, s.procs[i].pagetable, f);
    LiveAllHeld(s, i);
    if i == s.current {
      HeldOnceAt(s.mem, Root(s), u, w, f);
    } else {
      SeparateAt(s, i, s.current, u, w, f);
    }
  }

  lemma ChildHolds(s: State, mem: seq<Frame>, r: seq<nat>, child: nat, f: nat)
    requires Inv(s) && Live(s, s.current) && NoneFull(s)
             && Copying(s.mem, s.refcount, Root(s), mem, r, child, VIRTUAL_END)
    requires Holds(mem, child, f)
    ensures f < NPAGES && s.refcount[f] < REFCOUNT_MAX && s.viewer != Some(f)
  {
    var u: Use :| Refers(mem, child, u, f);
    ChildUse(s, mem, r, child, u, f);
    if Free(s.refcount, f) {
      FreeIsUnheld(s, f);
    } else {
      assert Holds(s.mem, Root(s), f);
      LiveAllHeld(s, s.current);
      assert !FullPage(s.mem, s.refcount, Root(s), u.v);
    }
  }

  /** A fork that succeeds without taking a count past its limit met no page at the limit. */
  lemma NotWrapping(s: State, s': State, r: int)
    requires Sized(s) && !Wraps(s) && ForkSpec(s, s', r) && r > 0
    ensures NoneFull(s)
  {
    forall v: nat ensures !FullPage(s.mem, s.refcount, Root(s), v) {
      if FullPage(s.mem, s.refcount, Root(s), v) {
        PrivatePagesGrow(s.mem, Root(s), v, VIRTUAL_END);
      }
    }
  }

  lemma ForkDoneKeepsInv(s: State, s': State, child: nat)
    requires Inv(s) && Live(s, s.current) && NoneFull(s) && ForkDone(s, s', child)
    ensures Inv(s')
    ensures forall f: nat :: f < NPAGES ==> s'.refcount[f] - Users(s', f, NPROC) == s.refcount[f] - Users(s, f, NPROC)
  {
    var root := s'.procs[child].pagetable;
    assert Copying(s.mem, s.refcount, Root(s), s'.mem, s'.refcount, root, VIRTUAL_END);
    InUseKeepsTables(s, s'.mem);
    var s1 := s.(mem := s'.mem);
    MemoryStepKeepsInv(s, s1);
    LiveViewsKept(s, s1.mem);
    ChildJoins(s, s1, s'.refcount, root);
    hide Inv, Joins, Users;
    ProcessAppears(s1, s', child, s'.procs[child]);
  }

  // ----- Page allocation

  /** What one more page does to the page table it was mapped in. */
  ghost predicate PageView(m0: seq<Frame>, m1: seq<Frame>, root: nat, v: nat, f: nat) {
    && (forall w: nat :: Leaf(m1, root, w) == if w == v then Word(f, PWU, 0) else Leaf(m0, root, w))
    && (forall u: Use, x: nat :: Refers(m1, root, u, x) <==> if u == PageUse(v) then x == f else Refers(m0, root, u, x))
    && (forall x: nat :: Holds(m1, root, x) <==> (Holds(m0, root, x) && !Refers(m0, root, PageUse(v), x)) || x == f)
  }

  lemma PageWritten(m0: seq<Frame>, root: nat, v: nat, t: nat, f: nat)
    requires Space(m0, root) && Complete(m0, root) && PROC_START <= v < VIRTUAL_END
    requires IsTable(m0, root, 0, v / 512, t) && Allocatable(f) && !Holds(m0, root, f)
    ensures var m1 := m0[t := m0[t][v % 512 := Word(f, PWU, 0)]];
            Space(m1, root) && Complete(m1, root) && PageView(m0, m1, root, v, f)
  {
    var e := Word(f, PWU, 0);
    var m1 := m0[t := m0[t][v % 512 := e]];
    SpaceTreeShaped(m0, root);
    LeafWrite(m0, m1, root, v / 512, t, v % 512, e);
    WriteClosed(m0, root, v / 512, t, v % 512, e);
    PageAddress(v);
    assert MappedTo(m0, m1, root, v * PAGESIZE, map[], e);
    SpaceMap(m0, m1, root, v * PAGESIZE, map[], e);
    forall u: Use, x: nat ensures Refers(m1, root, u, x) <==>
        if u == PageUse(v) then x == f else Refers(m0, root, u, x) {
      RefersAfter(m0, m1, root, v * PAGESIZE, map[], e, u, x);
    }
    forall x: nat ensures Holds(m1, root, x) <==> (Holds(m0, root, x) && !Refers(m0, root, PageUse(v), x)) || x == f {
      HoldsAfter(m0, m1, root, v * PAGESIZE, map[], e, x);
    }
  }

  /** Every other process is untouched by a write to one of this process's table pages. */
  lemma OtherViewsKept(s: State, l: nat, q: nat, t: nat, contents: Frame)
    requires Inv(s) && Live(s, s.current) && IsTable(s.mem, Root(s), l, q, t)
    ensures forall i: nat :: Live(s, i) && i != s.current ==>
              var m1 := s.mem[t := contents];
              && Space(m1, s.procs[i].pagetable) && Complete(m1, s.procs[i].pagetable)
              && SameView(s.mem, m1, s.procs[i].pagetable)
    ensures KernelTableOk(s.mem[t := contents])
  {
    var m1 := s.mem[t := contents];
    forall i: nat | Live(s, i) && i != s.current
      ensures && Space(m1, s.procs[i].pagetable) && Complete(m1, s.procs[i].pagetable)
              && SameView(s.mem, m1, s.procs[i].pagetable)
    {
      OtherTable(s, l, q, t, i);
      ViewKept(s.mem, m1, s.procs[i].pagetable);
    }
    KernelTableKept(s.mem, m1);
  }

  lemma OtherTable(s: State, l: nat, q: nat, t: nat, i: nat)
    requires Inv(s) && Live(s, s.current) && IsTable(s.mem, Root(s), l, q, t) && Live(s, i) && i != s.current
    ensures forall k: nat, p: nat :: !IsTable(s.mem, s.procs[i].pagetable, k, p, t)
  {
    assert Refers(s.mem, Root(s), TableUse(l, q), t);
    var root := s.procs[i].pagetable;
    forall k: nat, p: nat ensures !IsTable(s.mem, root, k, p, t) {
      assert IsTable(s.mem, root, k, p, t) ==> Refers(s.mem, root, TableUse(k, p), t);
      hide IsTable, Refers;
      if IsTable(s.mem, root, k, p, t) {
        SeparateAt(s, s.current, i, TableUse(l, q), TableUse(k, p), t);
      }
    }
  }

  /** The state after a page was added, seen by everyone. */
  lemma PageAddedViews(s: State, v: nat, f: nat, s': State)
    requires Inv(s) && Live(s, s.current) && PROC_START <= v < VIRTUAL_END && f < NPAGES && PageAdded(s, v, f, s')
    ensures Space(s'.mem, Root(s)) && Complete(s'.mem, Root(s)) && PageView(s.mem, s'.mem, Root(s), v, f)
    ensures forall i: nat :: Live(s, i) && i != s.current ==>
              && Space(s'.mem, s.procs[i].pagetable) && Complete(s'.mem, s.procs[i].pagetable)
              && SameView(s.mem, s'.mem, s.procs[i].pagetable)
    ensures KernelTableOk(s'.mem)
  {
    hide SpacesOk, Separate, CountsOk, ViewerOk, Space, Complete, SameView, PageView, KernelTableOk;
    var t := Table(s.mem, Root(s), 0, v / 512).value;
    var s1 := s.(mem := s.mem[f := Filled(ZERO)]);
    FrameCleared(s, v, f, t);
    assert s'.mem == s1.mem[t := s1.mem[t][v % 512 := Word(f, PWU, 0)]];
    InvSpace(s1, s1.current);
    PageWritten(s1.mem, Root(s), v, t, f);
    OtherViewsKept(s1, 0, v / 512, t, s1.mem[t][v % 512 := Word(f, PWU, 0)]);
    ViewThenPage(s.mem, s1.mem, s'.mem, Root(s), v, f);
    forall i: nat | Live(s, i) && i != s.current ensures SameView(s.mem, s'.mem, s.procs[i].pagetable) {
      ViewThenView(s.mem, s1.mem, s'.mem, s.procs[i].pagetable);
    }
  }

  lemma InvSpace(s: State, i: nat)
    requires Inv(s) && Live(s, i)
    ensures Space(s.mem, s.procs[i].pagetable) && Complete(s.mem, s.procs[i].pagetable)
  {
  }

  /** Zeroing a free frame is seen by nobody. */
  lemma FrameCleared(s: State, v: nat, f: nat, t: nat)
    requires Inv(s) && Live(s, s.current) && f < NPAGES && Free(s.refcount, f) && IsTable(s.mem, Root(s), 0, v / 512, t)
    ensures var s1 := s.(mem := s.mem[f := Filled(ZERO)]);
            && Inv(s1)
            && (forall i: nat :: Live(s, i) ==> SameView(s.mem, s1.mem, s.procs[i].pagetable))
            && !Holds(s1.mem, Root(s), f) && IsTable(s1.mem, Root(s), 0, v / 512, t) && t < NPAGES
  {
    var s1 := s.(mem := s.mem[f := Filled(ZERO)]);
    FreeIsUnheld(s, f);
    InUseKeepsTables(s, s1.mem);
    LiveViewsKept(s, s1.mem);
    MemoryStepKeepsInv(s, s1);
    hide Inv, Leaf, TablesUntouched, Space, Complete;
    assert !LiveHolds(s, s.current, f);
    assert SameView(s.mem, s1.mem, Root(s));
    assert Refers(s.mem, Root(s), TableUse(0, v / 512), t);
    assert Refers(s1.mem, Root(s), TableUse(0, v / 512), t);
  }

  lemma ViewThenView(m0: seq<Frame>, m1: seq<Frame>, m2: seq<Frame>, root: nat)
    requires SameView(m0, m1, root) && SameView(m1, m2, root)
    ensures SameView(m0, m2, root)
  {
    hide Leaf, Refers, Holds;
  }

  lemma ViewThenPage(m0: seq<Frame>, m1: seq<Frame>, m2: seq<Frame>, root: nat, v: nat, f: nat)
    requires SameView(m0, m1, root) && PageView(m1, m2, root, v, f)
    ensures PageView(m0, m2, root, v, f)
  {
    hide Leaf, Refers, Holds;
  }

  /** The users of every frame after a page was added. */
  lemma PageAddedUsers(s: State, v: nat, f: nat, s': State, x: nat)
    requires Inv(s) && Live(s, s.current) && PROC_START <= v < VIRTUAL_END && f < NPAGES && PageAdded(s, v, f, s')
    ensures Users(s', x, NPROC) == Users(s, x, NPROC)
              - (if Refers(s.mem, Root(s), PageUse(v), x) then 1 else 0) + (if x == f then 1 else 0)
    ensures Users(s, f, NPROC) == 0
  {
    hide SpacesOk, Separate, CountsOk, ViewerOk, KernelTableOk, Space, Complete, Leaf, Refers, Holds, Users;
    PageAddedViews(s, v, f, s');
    FreeIsUnheld(s, f);
    assert !LiveHolds(s, s.current, f);
    if Refers(s.mem, Root(s), PageUse(v), x) { RefersHolds(s.mem, Root(s), PageUse(v), x); }
    UsersDelta(s, s', x, NPROC, s.current);
  }

  /** Where a use in the new state comes from. */
  lemma UseAfter(s: State, v: nat, f: nat, s': State, i: nat, u: Use, x: nat)
    requires Inv(s) && Live(s, s.current) && PROC_START <= v < VIRTUAL_END && f < NPAGES && PageAdded(s, v, f, s')
    requires Live(s, i) && Refers(s'.mem, s.procs[i].pagetable, u, x)
    ensures if x == f then i == s.current
            else Refers(s.mem, s.procs[i].pagetable, u, x)
                 && (SharedUse(s.mem, s.procs[i].pagetable, u) ==> SharedUse(s'.mem, s.procs[i].pagetable, u))
  {
    PageAddedViews(s, v, f, s');
    FreeIsUnheld(s, f);
    hide SpacesOk, Separate, CountsOk, ViewerOk, Space, Complete, Leaf, Refers, Holds, KernelTableOk, Users;
    assert !LiveHolds(s, i, f);
    RefersHolds(s'.mem, s.procs[i].pagetable, u, x);
  }

  lemma PairAfter(s: State, v: nat, f: nat, s': State, i: nat, j: nat, u: Use, w: Use, x: nat)
    requires Inv(s) && Live(s, s.current) && PROC_START <= v < VIRTUAL_END && f < NPAGES && PageAdded(s, v, f, s')
    requires Live(s', i) && Live(s', j) && i != j
    requires Refers(s'.mem, s'.procs[i].pagetable, u, x) && Refers(s'.mem, s'.procs[j].pagetable, w, x)
    ensures u == w && SharedUse(s'.mem, s'.procs[i].pagetable, u) && SharedUse(s'.mem, s'.procs[j].pagetable, w)
  {
    hide SpacesOk, Separate, CountsOk, ViewerOk, KernelTableOk, Leaf, Refers, SharedUse;
    UseAfter(s, v, f, s', i, u, x);
    UseAfter(s, v, f, s', j, w, x);
    SeparateAt(s, i, j, u, w, x);
  }

  lemma PageAddedSeparate(s: State, v: nat, f: nat, s': State)
    requires Inv(s) && Live(s, s.current) && PROC_START <= v < VIRTUAL_END && f < NPAGES && PageAdded(s, v, f, s')
    ensures Separate(s')
  {
    hide Inv, Refers, SharedUse, PageAdded;
    forall i: nat, j: nat, u: Use, w: Use, x: nat |
      Live(s', i) && Live(s', j) && i != j
      && Refers(s'.mem, s'.procs[i].pagetable, u, x) && Refers(s'.mem, s'.procs[j].pagetable, w, x)
      ensures u == w && SharedUse(s'.mem, s'.procs[i].pagetable, u) && SharedUse(s'.mem, s'.procs[j].pagetable, w)
    {
      PairAfter(s, v, f, s', i, j, u, w, x);
    }
  }

  lemma RefersHolds(mem: seq<Frame>, root: nat, u: Use, f: nat)
    requires Refers(mem, root, u, f)
    ensures Holds(mem, root, f)
  {
  }

  /** Allocating a page, over another or not, keeps the invariant. */
  lemma PageAddedKeepsInv(s: State, v: nat, f: nat, s': State)
    requires Inv(s) && Live(s, s.current) && PROC_START <= v < VIRTUAL_END && f < NPAGES && PageAdded(s, v, f, s')
    ensures Inv(s')
  {
    hide SpacesOk, Separate, KernelTableOk, Leaf, IsUserPage, Users, PageAdded, Refers;
    PageAddedRest(s, v, f, s');
    forall x: nat | x < NPAGES
      ensures if Allocatable(x) then Users(s', x, NPROC) <= s'.refcount[x] <= REFCOUNT_MAX else s'.refcount[x] == 0
      ensures s.viewer == Some(x) ==> Users(s', x, NPROC) == 0 && s'.refcount[x] == 1
    {
      PageAddedSlack(s, v, f, s', x);
    }
  }

  /** Everything in the invariant but the counts. */
  lemma PageAddedRest(s: State, v: nat, f: nat, s': State)
    requires Inv(s) && Live(s, s.current) && PROC_START <= v < VIRTUAL_END && f < NPAGES && PageAdded(s, v, f, s')
    ensures Sized(s') && ProcsOk(s') && SpacesOk(s') && Separate(s') && KernelTableOk(s'.mem)
    ensures s'.viewer == s.viewer
  {
    hide Space, Complete, Leaf, Refers, KernelTableOk, Separate, SameView, PageView, CountsOk, ViewerOk;
    PageAddedViews(s, v, f, s');
    PageAddedSeparate(s, v, f, s');
  }

  /** The page that was replaced has one reference more than users from now on; for every other frame the
      difference stays. */
  lemma PageAddedSlack(s: State, v: nat, f: nat, s': State, x: nat)
    requires Inv(s) && Live(s, s.current) && PROC_START <= v < VIRTUAL_END && f < NPAGES && PageAdded(s, v, f, s')
    requires x < NPAGES
    ensures |s'.refcount| == NPAGES && s'.refcount[x] - Users(s', x, NPROC) == s.refcount[x] - Users(s, x, NPROC)
              + if Refers(s.mem, Root(s), PageUse(v), x) then 1 else 0
    ensures s'.refcount[x] == if x == f then 1 else s.refcount[x]
    ensures Allocatable(f) && s.viewer != Some(f)
    ensures s.viewer == Some(x) ==> !Refers(s.mem, Root(s), PageUse(v), x)
  {
    hide SpacesOk, Leaf, Refers, KernelTableOk, Users, Separate, IsUserPage;
    PageAddedUsers(s, v, f, s', x);
    FreeIsUnheld(s, f);
    if Refers(s.mem, Root(s), PageUse(v), x) {
      UserPageCounted(s, v, x);
    }
  }

  lemma UserPageCounted(s: State, v: nat, x: nat)
    requires Inv(s) && Live(s, s.current) && Refers(s.mem, Root(s), PageUse(v), x)
    ensures x < NPAGES && Allocatable(x) && s.refcount[x] >= Users(s, x, NPROC) > 0 && s.viewer != Some(x)
  {
    LiveAllHeld(s, s.current);
    RefersHolds(s.mem, Root(s), PageUse(v), x);
  }

  lemma UserPageHere(mem: seq<Frame>, root: nat, v: nat, x: nat)
    ensures Refers(mem, root, PageUse(v), x) <==> IsUserPage(mem, root, v) && x == Leaf(mem, root, v).pfn
  {
  }
}
