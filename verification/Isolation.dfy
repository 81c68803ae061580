/** Process isolation: what the invariant means for the memory each process can reach. */
module Isolation {
  import opened Paging
  import opened Physical
  import opened Walks
  import opened Growth
  import opened Spaces
  import opened KernelSpec
  import opened Forking
  import opened Steps
  import opened Runs

  /** The frame that user code of process `i` reaches at `va`, if any. */
  function UserFrame(s: State, i: nat, va: nat): Option<nat>
    requires |s.mem| == NPAGES
  {
    if Live(s, i) && s.procs[i].pagetable < NPAGES then
      match Translate(s.mem, s.procs[i].pagetable, va)
      case None => None
      case Some(a) => if a.user then Some(a.pa / PAGESIZE) else None
    else None
  }

  predicate UserWritable(s: State, i: nat, va: nat)
    requires |s.mem| == NPAGES
  {
    && UserFrame(s, i, va).Some?
    && Translate(s.mem, s.procs[i].pagetable, va).value.writable
  }

  /** User code reaches the console or a page the process holds. */
  lemma UserFrameIs(s: State, i: nat, va: nat)
    requires Inv(s) && UserFrame(s, i, va).Some?
    ensures var f := UserFrame(s, i, va).value; var e := Leaf(s.mem, s.procs[i].pagetable, Vpn(va));
            && Canonical(va) && f == e.pfn < NPAGES
            && Translate(s.mem, s.procs[i].pagetable, va) ==
               Some(Access(e.pfn * PAGESIZE + va % PAGESIZE, e.perm.w, e.perm.u))
            && (if f == CONSOLE_PFN then Vpn(va) == CONSOLE_PFN
                else Allocatable(f) && Refers(s.mem, s.procs[i].pagetable, PageUse(Vpn(va)), f))
  {
    hide SpacesOk, Separate, CountsOk, ViewerOk, KernelTableOk, Translate, Leaf, Vpn, Closed, PlainLinks, TablesOk,
         HeldOnce;
    var root := s.procs[i].pagetable;
    InvSpace(s, i);
    SpaceTranslate(s.mem, root, va);
    var e := Leaf(s.mem, root, Vpn(va));
    assert LeafOk(Vpn(va), e);
    FrameOf(e.pfn, va);
  }

  lemma FrameOf(pfn: nat, va: nat)
    ensures (pfn * PAGESIZE + va % PAGESIZE) / PAGESIZE == pfn
  {
  }

  /** A frame one process can write, other than the console, is reachable by no other process. */
  lemma WritableIsPrivate(s: State, i: nat, va: nat, j: nat, vb: nat)
    requires Inv(s) && i != j
    requires UserWritable(s, i, va) && UserFrame(s, i, va) != Some(CONSOLE_PFN)
    ensures UserFrame(s, j, vb) != UserFrame(s, i, va)
  {
    UserFrameIs(s, i, va);
    if UserFrame(s, j, vb) == UserFrame(s, i, va) {
      UserFrameIs(s, j, vb);
      var f := UserFrame(s, i, va).value;
      hide SpacesOk, Separate, CountsOk, ViewerOk, KernelTableOk, Leaf, Refers, Translate;
      SeparateAt(s, i, j, PageUse(Vpn(va)), PageUse(Vpn(vb)), f);
    }
  }

  /** Frames shared between processes are read-only for all of them and at the same address. */
  lemma SharedIsReadOnly(s: State, i: nat, va: nat, j: nat, vb: nat)
    requires Inv(s) && i != j && UserFrame(s, i, va).Some? && UserFrame(s, j, vb) == UserFrame(s, i, va)
    requires UserFrame(s, i, va) != Some(CONSOLE_PFN)
    ensures Vpn(va) == Vpn(vb) && !UserWritable(s, i, va) && !UserWritable(s, j, vb)
  {
    UserFrameIs(s, i, va);
    UserFrameIs(s, j, vb);
    hide SpacesOk, Separate, CountsOk, ViewerOk, KernelTableOk, Leaf, Refers;
    SeparateAt(s, i, j, PageUse(Vpn(va)), PageUse(Vpn(vb)), UserFrame(s, i, va).value);
  }

  /** No page table, no page of the kernel image or stack, no I/O memory but the console, and no page of the viewer
      is reachable from user code. */
  lemma KernelIsHidden(s: State, i: nat, va: nat)
    requires Inv(s) && UserFrame(s, i, va).Some?
    ensures var f := UserFrame(s, i, va).value;
            && (f == 0xB8 || ((0 < f < 0xA0 || 0x100 <= f < 0x200) && !(0x40 <= f < KERNEL_END_PFN) && f != 0x7F))
            && (forall j: nat, l: nat, q: nat :: Live(s, j) ==> !IsTable(s.mem, s.procs[j].pagetable, l, q, f))
            && (forall l: nat, q: nat :: !IsTable(s.mem, KERNEL_PT, l, q, f))
            && s.viewer != Some(f)
  {
    AllocatableIff();
    UserFrameIs(s, i, va);
    var f := UserFrame(s, i, va).value;
    var v := Vpn(va);
    if f != CONSOLE_PFN {
      LiveAllHeld(s, i);
      RefersHolds(s.mem, s.procs[i].pagetable, PageUse(v), f);
    }
    forall j: nat, l: nat, q: nat | Live(s, j) ensures !IsTable(s.mem, s.procs[j].pagetable, l, q, f) {
      if f == CONSOLE_PFN {
        InvSpace(s, j);
      } else {
        PageNoTable(s, i, v, f, j, l, q);
      }
    }
  }

  lemma PageNoTable(s: State, i: nat, v: nat, f: nat, j: nat, l: nat, q: nat)
    requires Inv(s) && Live(s, i) && Live(s, j) && Refers(s.mem, s.procs[i].pagetable, PageUse(v), f)
    ensures !IsTable(s.mem, s.procs[j].pagetable, l, q, f)
  {
    PrivateIsNoTable(s.(current := i), v, f, j, l, q) by { CurrentIrrelevant(s, i); }
  }

  lemma CurrentIrrelevant(s: State, i: nat)
    requires Inv(s) && Live(s, i)
    ensures Inv(s.(current := i))
  {
    hide SpacesOk, Separate, CountsOk, ViewerOk, KernelTableOk, Users;
    SameLiveKeepsInv(s, s.(current := i));
  }

  // ----- The kernel part of every page table

  /** The kernel's own page table translates every physical address to itself. */
  lemma KernelTranslate(mem: seq<Frame>, va: nat)
    requires KernelTableOk(mem) && va < NPAGES * PAGESIZE
    ensures Translate(mem, KERNEL_PT, va) ==
            Some(Access(va, true, va / PAGESIZE == CONSOLE_PFN || va / PAGESIZE >= PROC_START))
  {
    assert va / 0x80_0000_0000 % 512 == 0 && va / 0x4000_0000 % 512 == 0 && va / 0x20_0000 % 512 == 0;
    var v := va / PAGESIZE;
    assert va / 0x1000 % 512 == v < 512;
    assert va == v * PAGESIZE + va % PAGESIZE;
    calc {
      Translate(mem, KERNEL_PT, va);
      TranslatePdpte(mem, KERNEL_PT + 1, va, true, true);
      TranslatePde(mem, KERNEL_PT + 2, va, true, true);
      TranslatePte(mem, KERNEL_PT + 3, va, true, true);
    }
    assert mem[KERNEL_PT + 3][v] == if v < PROC_START then KernelEntry(v) else Word(v, PWU, 0);
  }

  lemma LowVpn(va: nat)
    requires va < VA_LOWEND
    ensures Canonical(va) && Vpn(va) == va / PAGESIZE && va == va / PAGESIZE * PAGESIZE + va % PAGESIZE
  {
  }

  /** Every live page table agrees with the kernel's below PROC_START_ADDR. */
  lemma AgreesWithKernel(s: State, i: nat, va: nat)
    requires Inv(s) && Live(s, i) && va < PROC_START * PAGESIZE
    ensures Translate(s.mem, s.procs[i].pagetable, va) == Translate(s.mem, KERNEL_PT, va)
            == Some(Access(va, true, va / PAGESIZE == CONSOLE_PFN))
  {
    hide SpacesOk, Separate, CountsOk, ViewerOk, KernelTableOk, Space, Translate, Leaf, Vpn;
    var root := s.procs[i].pagetable;
    InvSpace(s, i);
    LowVpn(va);
    KernelTranslate(s.mem, va);
    SpaceTranslate(s.mem, root, va);
    assert Leaf(s.mem, root, Vpn(va)) == KernelEntry(Vpn(va));
  }

  // ----- Non-interference

  /** What user code of process `q` reads at `va` (nothing from the shared console). */
  function Reads(s: State, q: nat, va: nat): Option<Word>
    requires |s.mem| == NPAGES
  {
    match UserFrame(s, q, va)
    case None => None
    case Some(f) =>
      if f == CONSOLE_PFN || f >= NPAGES then None else Some(s.mem[f][va % PAGESIZE / 8])
  }

  /** Process `q` is as before: its slot, what it can reach, and what it reads there. */
  ghost predicate Untouched(s: State, s': State, q: nat) {
    && |s.mem| == |s'.mem| == NPAGES && |s.procs| == |s'.procs| == NPROC && q < NPROC
    && s'.procs[q] == s.procs[q]
    && forall va: nat ::
         && UserFrame(s', q, va) == UserFrame(s, q, va) && UserWritable(s', q, va) == UserWritable(s, q, va)
         && Reads(s', q, va) == Reads(s, q, va)
  }

  /** The pages process `q` holds keep their contents. */
  ghost predicate PagesKept(s: State, mem: seq<Frame>, q: nat)
    requires |s.mem| == |mem| == NPAGES && q < |s.procs|
  {
    forall v: nat, f: nat :: Refers(s.mem, s.procs[q].pagetable, PageUse(v), f) && f < NPAGES ==> mem[f] == s.mem[f]
  }

  lemma UntouchedBy(s: State, s': State, q: nat)
    requires Inv(s) && Inv(s') && Live(s, q) && s'.procs[q] == s.procs[q]
    requires SameView(s.mem, s'.mem, s.procs[q].pagetable) && PagesKept(s, s'.mem, q)
    ensures Untouched(s, s', q)
  {
    hide SpacesOk, Separate, CountsOk, ViewerOk, KernelTableOk, Refers, Space, Complete, Leaf, Translate, Vpn, Holds;
    var root := s.procs[q].pagetable;
    InvSpace(s, q);
    InvSpace(s', q);
    forall va: nat
      ensures UserFrame(s', q, va) == UserFrame(s, q, va) && UserWritable(s', q, va) == UserWritable(s, q, va)
      ensures Reads(s', q, va) == Reads(s, q, va)
    {
      SpaceTranslate(s.mem, root, va);
      SpaceTranslate(s'.mem, root, va);
      if UserFrame(s, q, va).Some? {
        UserFrameIs(s, q, va);
      }
    }
  }

  /** What another process holds is in use and not writable by the current process. */
  lemma OtherPages(s: State, q: nat, v: nat, f: nat)
    requires Inv(s) && Live(s, q) && Refers(s.mem, s.procs[q].pagetable, PageUse(v), f)
    ensures f < NPAGES && Allocatable(f) && s.refcount[f] > 0 && s.viewer != Some(f)
  {
    RefersHolds(s.mem, s.procs[q].pagetable, PageUse(v), f);
    LiveAllHeld(s, q);
  }

  lemma StoreLeavesOthers(s: State, va: nat, w: Word, s': State, q: nat)
    requires Inv(s) && Live(s, s.current) && StoreSpec(s, va, w, s') && Live(s, q) && q != s.current
    ensures PagesKept(s, s'.mem, q)
  {
    StoreTarget(s, va);
    var f := Leaf(s.mem, Root(s), Vpn(va)).pfn;
    forall v: nat, x: nat | Refers(s.mem, s.procs[q].pagetable, PageUse(v), x) && x < NPAGES
      ensures s'.mem[x] == s.mem[x] {
      hide SpacesOk, Separate, CountsOk, ViewerOk, KernelTableOk, Leaf, Refers, Translate;
      OtherPages(s, q, v, x);
      if x == f {
        SeparateAt(s, s.current, q, PageUse(Vpn(va)), PageUse(v), x);
      }
    }
  }

  lemma InUseKeepsPages(s: State, mem: seq<Frame>, q: nat)
    requires Inv(s) && Live(s, q) && |mem| == NPAGES
    requires forall f: nat :: f < NPAGES && s.refcount[f] > 0 && s.viewer != Some(f) ==> mem[f] == s.mem[f]
    ensures PagesKept(s, mem, q)
  {
    forall v: nat, f: nat | Refers(s.mem, s.procs[q].pagetable, PageUse(v), f) && f < NPAGES
      ensures mem[f] == s.mem[f] {
      OtherPages(s, q, v, f);
    }
  }

  lemma PageAddedLeavesOthers(s: State, v: nat, f: nat, s': State, q: nat)
    requires Inv(s) && Live(s, s.current) && PROC_START <= v < VIRTUAL_END && f < NPAGES && PageAdded(s, v, f, s')
    requires Live(s, q) && q != s.current
    ensures SameView(s.mem, s'.mem, s.procs[q].pagetable) && PagesKept(s, s'.mem, q)
  {
    PageAddedViews(s, v, f, s');
    var t := Table(s.mem, Root(s), 0, v / 512).value;
    assert Refers(s.mem, Root(s), TableUse(0, v / 512), t);
    forall w: nat, x: nat | Refers(s.mem, s.procs[q].pagetable, PageUse(w), x) && x < NPAGES
      ensures s'.mem[x] == s.mem[x] {
      hide SpacesOk, Separate, CountsOk, ViewerOk, KernelTableOk, Leaf, Refers, Table;
      OtherPages(s, q, w, x);
      if x == t {
        SeparateAt(s, s.current, q, TableUse(0, v / 512), PageUse(w), x);
      }
    }
  }

  lemma MemoryKeptLeavesOthers(s: State, s': State, q: nat)
    requires Inv(s) && Inv(s') && Live(s, q) && s'.mem == s.mem && s'.procs[q] == s.procs[q]
    ensures Untouched(s, s', q)
  {
    ViewItself(s);
    hide SpacesOk, Separate, CountsOk, ViewerOk, KernelTableOk, Leaf, Refers;
    UntouchedBy(s, s', q);
  }

  lemma InUseKeptLeavesOthers(s: State, s': State, q: nat)
    requires Inv(s) && Inv(s') && Live(s, q) && s'.procs[q] == s.procs[q]
    requires forall f: nat :: f < NPAGES && !Free(s.refcount, f) ==> s'.mem[f] == s.mem[f]
    ensures Untouched(s, s', q)
  {
    InUseKeepsTables(s, s'.mem);
    LiveViewsKept(s, s'.mem);
    InUseKeepsPages(s, s'.mem, q);
    hide SpacesOk, Separate, CountsOk, ViewerOk, KernelTableOk, Leaf, Refers, TablesUntouched;
    UntouchedBy(s, s', q);
  }

  lemma ForkLeavesOthers(s: State, s': State, r: int, q: nat)
    requires Inv(s) && Inv(s') && Running(s) && ForkSpec(s, s', r) && Live(s, q)
    ensures Untouched(s, s', q)
  {
    hide SpacesOk, Separate, CountsOk, ViewerOk, KernelTableOk, Leaf, Refers, Space;
    if r > 0 {
      assert Copying(s.mem, s.refcount, Root(s), s'.mem, s'.refcount, s'.procs[r].pagetable, VIRTUAL_END);
    }
    InUseKeptLeavesOthers(s, s', q);
  }

  /** No step of the running process changes what another process has, reaches or reads. */
  lemma StepLeavesOthers(s: State, e: Event, s': State, q: nat)
    requires Inv(s) && Next(s, e, s') && Live(s, q) && q != s.current
    ensures Untouched(s, s', q)
  {
    hide SpacesOk, Separate, CountsOk, ViewerOk, KernelTableOk, Leaf, Refers, Users, ForkSpec, Untouched;
    NextKeepsInv(s, e, s');
    match e
    case PageAlloc(addr) =>
      if s' == s {
        MemoryKeptLeavesOthers(s, s', q);
      } else {
        var f: nat :| f < NPAGES && PageAdded(s, addr / PAGESIZE, f, s');
        PageAddedLeavesOthers(s, addr / PAGESIZE, f, s', q);
        UntouchedBy(s, s', q);
      }
    case Fork =>
      var r: int :| ForkSpec(s, s', r);
      ForkLeavesOthers(s, s', r, q);
    case Exit => MemoryKeptLeavesOthers(s, s', q);
    case Schedule => MemoryKeptLeavesOthers(s, s', q);
    case Store(va, w) =>
      StoreLeavesOthers(s, va, w, s', q);
      StoreViews(s, va, w, s', q);
      UntouchedBy(s, s', q);
    case Fault => MemoryKeptLeavesOthers(s, s', q);
    case Memshow(contents) =>
      MemshowKeepsInv(s, contents, s');
      InUseKeepsPages(s, s'.mem, q);
      UntouchedBy(s, s', q);
  }

  lemma StoreViews(s: State, va: nat, w: Word, s': State, q: nat)
    requires Inv(s) && Live(s, s.current) && StoreSpec(s, va, w, s') && Live(s, q)
    ensures SameView(s.mem, s'.mem, s.procs[q].pagetable)
  {
    StoreTarget(s, va);
    var f := Leaf(s.mem, Root(s), Vpn(va)).pfn;
    forall l: nat, p: nat, x: nat | IsTable(s.mem, s.procs[q].pagetable, l, p, x) ensures s'.mem[x] == s.mem[x] {
      if x == f {
        InvSpace(s, q);
        if f != CONSOLE_PFN { PrivateIsNoTable(s, Vpn(va), f, q, l, p); }
      }
    }
    InvSpace(s, q);
    ViewKept(s.mem, s'.mem, s.procs[q].pagetable);
  }

  /** Over any stretch of a run in which `q` does not run, nothing that `q` has, reaches or reads changes. */
  lemma {:induction false} RunLeavesOthers(run: seq<State>, events: seq<Event>, q: nat, k: nat)
    requires IsRun(run, events) && Inv(run[0]) && k < |run| && Live(run[0], q)
    requires forall j: nat :: j < k ==> run[j].current != q
    ensures Untouched(run[0], run[k], q)
  {
    hide Inv, Next, UserFrame, UserWritable, Reads;
    RunKeepsInv(run, events, k);
    if k > 0 {
      RunLeavesOthers(run, events, q, k - 1);
      RunKeepsInv(run, events, k - 1);
      StepLeavesOthers(run[k - 1], events[k - 1], run[k], q);
    } else {
      SizesOf(run[0]);
    }
  }
}
