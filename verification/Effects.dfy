/** What the steps of the kernel mean to user code: stores, allocated pages, page faults and exits. */
module Effects {
  import opened Arithmetic
  import opened Paging
  import opened Physical
  import opened Walks
  import opened Growth
  import opened Spaces
  import opened KernelSpec
  import opened Forking
  import opened Steps
  import opened Runs
  import opened Isolation
  import opened Fairness

  // ----- Addresses

  /** User code reaches something only below MEMSIZE_VIRTUAL. */
  lemma ReachedIsLow(s: State, i: nat, va: nat)
    requires Inv(s) && UserFrame(s, i, va).Some? && va < ADDRESS_SPACE
    ensures va < VIRTUAL_END * PAGESIZE && Vpn(va) == va / PAGESIZE
  {
    hide SpacesOk, Separate, CountsOk, ViewerOk, KernelTableOk, Translate, Leaf, Closed, PlainLinks, TablesOk,
         HeldOnce;
    UserFrameIs(s, i, va);
    InvSpace(s, i);
    var root := s.procs[i].pagetable;
    SpaceTranslate(s.mem, root, va);
    assert LeafOk(Vpn(va), Leaf(s.mem, root, Vpn(va)));
    LowIff(va);
  }

  lemma LowIff(va: nat)
    requires va < ADDRESS_SPACE && Canonical(va)
    ensures Vpn(va) < VIRTUAL_END <==> va < VIRTUAL_END * PAGESIZE
    ensures Vpn(va) < VIRTUAL_END ==> Vpn(va) == va / PAGESIZE
  {
    VpnOfPage(va);
    hide Vpn;
    var p := va / PAGESIZE;
    assert p < VA_LOWEND / PAGESIZE || 0xF_FFF8_0000_0000 <= p < 0x10_0000_0000_0000;
  }

  /** Different pages of a process are different frames. */
  lemma PagesApart(s: State, i: nat, va: nat, vb: nat)
    requires Inv(s) && va < ADDRESS_SPACE && vb < ADDRESS_SPACE
    requires UserFrame(s, i, va).Some? && UserFrame(s, i, vb) == UserFrame(s, i, va) != Some(CONSOLE_PFN)
    ensures va / PAGESIZE == vb / PAGESIZE
  {
    hide SpacesOk, Separate, CountsOk, ViewerOk, KernelTableOk, Refers, Leaf, Translate, Vpn;
    UserFrameIs(s, i, va);
    UserFrameIs(s, i, vb);
    ReachedIsLow(s, i, va);
    ReachedIsLow(s, i, vb);
    InvSpace(s, i);
    var root, f := s.procs[i].pagetable, UserFrame(s, i, va).value;
    HeldOnceAt(s.mem, root, PageUse(Vpn(va)), PageUse(Vpn(vb)), f);
  }

  lemma SameWord(va: nat, vb: nat)
    ensures va / 8 == vb / 8 <==> va / PAGESIZE == vb / PAGESIZE && va % PAGESIZE / 8 == vb % PAGESIZE / 8
  {
    WordOf(va);
    WordOf(vb);
  }

  lemma WordOf(va: nat)
    ensures var w, p, q := va / 8, va / PAGESIZE, va % PAGESIZE / 8;
            w == p * 512 + q && w / 512 == p && w % 512 == q
  {
    var p, x := va / PAGESIZE, va % PAGESIZE;
    var q, r := x / 8, x % 8;
    Parts(va, PAGESIZE);
    Parts(x, 8);
    DivUnique(va, 8, p * 512 + q, r);
    DivUnique(p * 512 + q, 512, p, q);
  }

  // ----- Stores

  /** After a store the process reads the word it wrote there, reads every other word as before, and reaches the same
      places with the same permissions. */
  lemma StoreMeans(s: State, va: nat, w: Word, s': State, vb: nat)
    requires Inv(s) && Running(s) && StoreSpec(s, va, w, s') && va < ADDRESS_SPACE && vb < ADDRESS_SPACE
    requires UserFrame(s, s.current, va) != Some(CONSOLE_PFN)
    ensures Sized(s') && UserFrame(s', s.current, vb) == UserFrame(s, s.current, vb)
    ensures UserWritable(s', s.current, vb) == UserWritable(s, s.current, vb)
    ensures Reads(s', s.current, vb) == if vb / 8 == va / 8 then Some(w) else Reads(s, s.current, vb)
  {
    hide SpacesOk, Separate, CountsOk, ViewerOk, KernelTableOk, Refers, Leaf, Translate, Vpn, Holds, Users, Space;
    StoreKeepsInv(s, va, w, s');
    StoreViews(s, va, w, s', s.current);
    InvSpace(s, s.current);
    InvSpace(s', s.current);
    SpaceTranslate(s.mem, Root(s), vb);
    SpaceTranslate(s'.mem, Root(s), vb);
    SameWord(va, vb);
    UserFrameIs(s, s.current, va);
    if UserFrame(s, s.current, vb).Some? {
      UserFrameIs(s, s.current, vb);
      if UserFrame(s, s.current, vb) == UserFrame(s, s.current, va) {
        PagesApart(s, s.current, va, vb);
      }
    }
    if va / 8 == vb / 8 {
      SamePage(s, s.current, va, vb);
    }
  }

  lemma SamePage(s: State, i: nat, va: nat, vb: nat)
    requires |s.mem| == NPAGES && va / PAGESIZE == vb / PAGESIZE && Inv(s) && Live(s, i)
    ensures UserFrame(s, i, va) == UserFrame(s, i, vb) && UserWritable(s, i, va) == UserWritable(s, i, vb)
  {
    hide SpacesOk, Separate, CountsOk, ViewerOk, KernelTableOk, Refers, Leaf, Translate, Holds, Users, Space;
    InvSpace(s, i);
    SpaceTranslate(s.mem, s.procs[i].pagetable, va);
    SpaceTranslate(s.mem, s.procs[i].pagetable, vb);
    SameVpn(va, vb);
    var e := Leaf(s.mem, s.procs[i].pagetable, Vpn(va));
    FrameOf(e.pfn, va);
    FrameOf(e.pfn, vb);
  }

  lemma SameVpn(va: nat, vb: nat)
    requires va / PAGESIZE == vb / PAGESIZE
    ensures Vpn(va) == Vpn(vb) && (Canonical(va) <==> Canonical(vb))
  {
    VpnOfPage(va);
    VpnOfPage(vb);
    hide Vpn;
    assert Canonical(va) <==> va / PAGESIZE < VA_LOWEND / PAGESIZE || va / PAGESIZE >= VA_HIGHMIN / PAGESIZE;
  }

  lemma VpnOfPage(va: nat)
    ensures Vpn(va) == va / PAGESIZE % 0x10_0000_0000
  {
    var p, r := va / PAGESIZE, va % PAGESIZE;
    var q, m := p / 0x10_0000_0000, p % 0x10_0000_0000;
    assert p == q * 0x10_0000_0000 + m;
    DivUnique(va, VA_NONCANONEND, q, m * PAGESIZE + r);
  }

  // ----- Allocated pages

  /** After `sys_page_alloc` returned 0 the process can write the whole page at the address, reads zeros in it, and
      has it in a frame that was free; every other address is as before. */
  lemma PageAllocMeans(s: State, addr: nat, s': State, va: nat)
    requires Inv(s) && Running(s) && PageAllocSpec(s, addr, s', 0) && va < ADDRESS_SPACE
    ensures Sized(s')
    ensures va / 4096 == addr / 4096 ==>
              && UserWritable(s', s.current, va) && Reads(s', s.current, va) == Some(Word(0, NO_PERM, 0))
              && Free(s.refcount, UserFrame(s', s.current, va).value)
    ensures va / 4096 != addr / 4096 ==>
              && UserFrame(s', s.current, va) == UserFrame(s, s.current, va)
              && UserWritable(s', s.current, va) == UserWritable(s, s.current, va)
              && Reads(s', s.current, va) == Reads(s, s.current, va)
  {
    hide SpacesOk, Separate, CountsOk, ViewerOk, KernelTableOk, Refers, Leaf, Translate, Vpn, Holds, Users, Space,
         PageAdded, Complete;
    var v := addr / PAGESIZE;
    var f: nat :| f < NPAGES && PageAdded(s, v, f, s');
    PageAddedKeepsInv(s, v, f, s');
    PageAddedViews(s, v, f, s');
    PageAddedFrames(s, v, f, s');
    InvSpace(s, s.current);
    SpaceTranslate(s.mem, Root(s), va);
    SpaceTranslate(s'.mem, Root(s), va);
    if va / PAGESIZE == v {
      LowVpn(va);
      FrameOf(f, va);
      RootInMemory(s.mem, Root(s));
    } else {
      AnotherPage(va, v);
      if UserFrame(s, s.current, va).Some? {
        UserFrameIs(s, s.current, va);
      }
    }
  }

  lemma RootInMemory(mem: seq<Frame>, root: nat)
    requires Space(mem, root)
    ensures root < |mem|
  {
  }

  lemma AnotherPage(va: nat, v: nat)
    requires va < ADDRESS_SPACE && va / PAGESIZE != v && v < VIRTUAL_END
    ensures Canonical(va) ==> Vpn(va) != v
  {
    if Canonical(va) { LowIff(va); }
  }

  /** Which frames `sys_page_alloc` writes: the new one, with zeros, and a table page. */
  lemma PageAddedFrames(s: State, v: nat, f: nat, s': State)
    requires Inv(s) && Live(s, s.current) && PROC_START <= v < VIRTUAL_END && f < NPAGES && PageAdded(s, v, f, s')
    ensures Sized(s') && s'.procs == s.procs && s'.current == s.current && Free(s.refcount, f) && f != CONSOLE_PFN
    ensures forall i: nat :: i < 512 ==> s'.mem[f][i] == Word(0, NO_PERM, 0)
    ensures forall w: nat, x: nat :: x < NPAGES && Refers(s.mem, Root(s), PageUse(w), x) ==> s'.mem[x] == s.mem[x]
  {
    hide SpacesOk, Separate, CountsOk, ViewerOk, KernelTableOk, Leaf, Table, IsUserPage;
    var t := Table(s.mem, Root(s), 0, v / 512).value;
    forall w: nat, x: nat | x < NPAGES && Refers(s.mem, Root(s), PageUse(w), x) ensures s'.mem[x] == s.mem[x] {
      OtherPages(s, s.current, w, x);
      PrivateIsNoTable(s, w, x, s.current, 0, v / 512);
    }
  }

  // ----- Page faults and exits

  /** A process that cannot run becomes runnable only as the child of a fork by another, in a free slot. */
  lemma WakesOnlyByFork(s: State, e: Event, s': State, i: nat)
    requires Next(s, e, s') && i < NPROC && !Runnable(s, i) && Runnable(s', i)
    ensures e.Fork? && s.procs[i].state == PFree && i != s.current
  {
    hide Copying, PrivatePages, Translate, Holds, Table, Wraps;
  }

  /** Nothing happens to the slot of a broken process. */
  lemma BrokenStays(s: State, e: Event, s': State, i: nat)
    requires Next(s, e, s') && i < NPROC && s.procs[i].state == PBroken
    ensures s'.procs[i] == s.procs[i]
  {
    hide Copying, PrivatePages, Translate, Holds, Table, Wraps;
  }

  /** Only runnable processes are chosen, and only they do anything. */
  lemma OnlyRunnableActs(s: State, e: Event, s': State, i: nat)
    requires Next(s, e, s') && i < NPROC && !Runnable(s, i)
    ensures e.Schedule? ==> s'.current != i
    ensures s.current == i ==> e.Schedule? || e.Memshow?
  {
    hide Copying, PrivatePages, Translate, Holds, Table, Wraps;
  }

  /** After a page fault by a process, over the whole rest of any run: it is never chosen again, does nothing, and
      its slot keeps everything but the state, so no fork takes it. */
  lemma {:induction false} AfterFault(run: seq<State>, events: seq<Event>, a: nat, k: nat)
    requires IsRun(run, events) && a < k < |run| && events[a].Fault?
    ensures Sized(run[a]) && Sized(run[k])
    ensures var i := run[a].current;
            && Runnable(run[a], i) && run[k].procs[i] == run[a].procs[i].(state := PBroken) && !Runnable(run[k], i)
            && (k < |events| && events[k].Schedule? ==> run[k + 1].current != i)
            && (k < |events| && run[k].current == i ==> events[k].Schedule? || events[k].Memshow?)
  {
    hide Next;
    assert Next(run[k - 1], events[k - 1], run[k - 1 + 1]);
    StepSized(run[k - 1], events[k - 1], run[k]);
    if k == a + 1 {
      Faults(run[a], run[k]);
    } else {
      AfterFault(run, events, a, k - 1);
      BrokenStays(run[k - 1], events[k - 1], run[k], run[a].current);
    }
    if k < |events| {
      assert Next(run[k], events[k], run[k + 1]);
      OnlyRunnableActs(run[k], events[k], run[k + 1], run[a].current);
    }
  }

  lemma StepSized(s: State, e: Event, s': State)
    requires Next(s, e, s')
    ensures Sized(s) && Sized(s')
  {
  }

  lemma Faults(s: State, s': State)
    requires Next(s, Fault, s')
    ensures Runnable(s, s.current) && s'.procs[s.current] == s.procs[s.current].(state := PBroken)
  {
  }

  /** A process that cannot run stays so until a fork takes its slot: it is not chosen and does nothing. */
  lemma {:induction false} StoppedUntilFork(run: seq<State>, events: seq<Event>, i: nat, a: nat, k: nat)
    requires IsRun(run, events) && a <= k < |run| && i < NPROC && !Runnable(run[a], i)
    requires forall j: nat :: a <= j < k && events[j].Fork? ==> !Runnable(run[j + 1], i)
    ensures !Runnable(run[k], i)
    ensures k < |events| && events[k].Schedule? ==> run[k + 1].current != i
    ensures k < |events| && run[k].current == i ==> events[k].Schedule? || events[k].Memshow?
    decreases k
  {
    hide Next;
    if a < k {
      StoppedUntilFork(run, events, i, a, k - 1);
      assert Next(run[k - 1], events[k - 1], run[k - 1 + 1]);
      if Runnable(run[k], i) {
        WakesOnlyByFork(run[k - 1], events[k - 1], run[k], i);
      }
    }
    if k < |events| {
      assert Next(run[k], events[k], run[k + 1]);
      OnlyRunnableActs(run[k], events[k], run[k + 1], i);
    }
  }

  /** After `sys_exit` the slot is free and reaches nothing, every frame only this process used is free again, and
      the counts of frames it did not use and all of memory are as before. */
  lemma ExitMeans(s: State, s': State)
    requires Inv(s) && Running(s) && ExitSpec(s, s')
    ensures Sized(s') && s'.procs[s.current].state == PFree && s'.mem == s.mem && s'.current == s.current
    ensures forall i: nat :: i < NPROC && i != s.current ==> s'.procs[i] == s.procs[i]
    ensures forall va: nat :: UserFrame(s', s.current, va) == None
    ensures forall f: nat :: f < NPAGES && Holds(s.mem, Root(s), f) && s.refcount[f] == 1 ==> Free(s'.refcount, f)
    ensures forall f: nat :: f < NPAGES && !Holds(s.mem, Root(s), f) ==> s'.refcount[f] == s.refcount[f]
  {
    LiveAllHeld(s, s.current);
  }
}
