/** What a successful fork means to the two processes. */
module ForkMeaning {
  import opened Paging
  import opened Physical
  import opened Walks
  import opened Growth
  import opened Spaces
  import opened KernelSpec
  import opened Forking
  import opened Steps
  import opened Isolation

  /** The child's access `b` to an address against the parent's access `a`: the same permissions; the
      same place for kernel, console and read-only pages; for writable user pages a frame that was
      free and now has equal contents. */
  ghost predicate ChildAccess(s: State, s': State, va: nat, a: Access, b: Access)
    requires |s.mem| == |s'.mem| == |s.refcount| == NPAGES
  {
    && b.writable == a.writable && b.user == a.user
    && if a.user && a.writable && va / PAGESIZE != CONSOLE_PFN
       then var f, g := a.pa / PAGESIZE, b.pa / PAGESIZE;
            && f < NPAGES && g < NPAGES && Free(s.refcount, g)
            && b.pa % PAGESIZE == a.pa % PAGESIZE && s'.mem[g] == s.mem[f]
       else b.pa == a.pa
  }

  lemma CopiedAccess(s: State, s': State, va: nat, e: Word, e': Word)
    requires |s.mem| == |s'.mem| == |s.refcount| == NPAGES
    requires CopyOf(s.mem, s.refcount, s'.mem, va / PAGESIZE, e, e') && e.perm.p
    ensures e'.perm == e.perm
    ensures ChildAccess(s, s', va, Access(e.pfn * PAGESIZE + va % PAGESIZE, e.perm.w, e.perm.u),
                        Access(e'.pfn * PAGESIZE + va % PAGESIZE, e'.perm.w, e'.perm.u))
  {
    FrameOf(e.pfn, va);
    FrameOf(e'.pfn, va);
  }

  /** Every address below MEMSIZE_VIRTUAL translates in the child as in the parent, up to the
      private frames. */
  lemma ChildTranslates(s: State, s': State, child: nat, va: nat)
    requires Inv(s) && Inv(s') && Live(s, s.current) && ForkDone(s, s', child) && va < VIRTUAL_END * PAGESIZE
    ensures var a, b := Translate(s.mem, Root(s), va), Translate(s'.mem, s'.procs[child].pagetable, va);
            if a.None? then b.None? else b.Some? && ChildAccess(s, s', va, a.value, b.value)
  {
    hide SpacesOk, Separate, CountsOk, ViewerOk, KernelTableOk, Space, Leaf, Translate, Vpn, Copying, ChildAccess,
         CopyOf;
    var v, root, root' := va / PAGESIZE, Root(s), s'.procs[child].pagetable;
    CopiedEntry(s, s', child, v);
    LowVpn(va);
    InvSpace(s, s.current);
    SpaceTranslate(s.mem, root, va);
    SpaceTranslate(s'.mem, root', va);
    var e, e' := Leaf(s.mem, root, v), Leaf(s'.mem, root', v);
    if e.perm.p {
      CopiedAccess(s, s', va, e, e');
    }
  }

  lemma CopiedEntry(s: State, s': State, child: nat, v: nat)
    requires Sized(s) && ForkDone(s, s', child) && v < VIRTUAL_END
    ensures Space(s'.mem, s'.procs[child].pagetable) && |s'.mem| == NPAGES
    ensures CopyOf(s.mem, s.refcount, s'.mem, v, Leaf(s.mem, Root(s), v), Leaf(s'.mem, s'.procs[child].pagetable, v))
  {
  }

  /** Two writable pages of the child never share a frame. */
  lemma ChildPagesDistinct(s: State, s': State, child: nat, va: nat, vb: nat)
    requires Inv(s) && Inv(s') && Live(s, s.current) && ForkDone(s, s', child) && Live(s', child)
    requires UserFrame(s', child, va).Some? && UserFrame(s', child, va) == UserFrame(s', child, vb)
    ensures Vpn(va) == Vpn(vb)
  {
    UserFrameIs(s', child, va);
    UserFrameIs(s', child, vb);
    InvSpace(s', child);
    var root, f := s'.procs[child].pagetable, UserFrame(s', child, va).value;
    if f != CONSOLE_PFN {
      hide Inv, Closed, PlainLinks, TablesOk, LeavesOk, HeldOnce, Refers, Leaf, Translate;
      HeldOnceAt(s'.mem, root, PageUse(Vpn(va)), PageUse(Vpn(vb)), f);
    }
  }

  /** The parent is untouched, and the child's slot differs from it only in page table, pid and rax. */
  lemma ParentUntouched(s: State, s': State, child: nat)
    requires Inv(s) && Inv(s') && Running(s) && ForkDone(s, s', child)
    ensures Untouched(s, s', s.current) && s'.current == s.current
    ensures s'.procs[child].state == PRunnable && s'.procs[child].pid == child
    ensures s'.procs[child].regs == s.procs[s.current].regs.(rax := 0)
    ensures forall i: nat :: i < NPROC && i != child ==> s'.procs[i] == s.procs[i]
  {
    assert Copying(s.mem, s.refcount, Root(s), s'.mem, s'.refcount, s'.procs[child].pagetable, VIRTUAL_END);
    hide SpacesOk, Separate, CountsOk, ViewerOk, KernelTableOk, Leaf, Refers, Space, Untouched;
    InUseKeptLeavesOthers(s, s', s.current);
  }
}
