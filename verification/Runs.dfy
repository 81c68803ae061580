/** What holds along every run of the kernel. */
module Runs {
  import opened Paging
  import opened Physical
  import opened Growth
  import opened Spaces
  import opened KernelSpec
  import opened Forking
  import opened Steps

  // ----- Every step keeps the invariant

  lemma MemshowKeepsInv(s: State, contents: Frame, s': State)
    requires Inv(s) && MemshowSpec(s, contents, s')
    ensures Inv(s')
    ensures Exact(s) ==> Exact(s')
    ensures forall i: nat :: Live(s, i) ==> SameView(s.mem, s'.mem, s.procs[i].pagetable)
    ensures forall f: nat :: f < NPAGES && s.refcount[f] > 0 && s.viewer != Some(f) ==> s'.mem[f] == s.mem[f]
  {
    var f: nat :| f < NPAGES && s'.viewer == Some(f) && s'.mem == s.mem[f := contents]
                  && (s.viewer == Some(f) || Free(s.refcount, f));
    var s1 := s.(mem := s'.mem);
    forall i: nat, l: nat, q: nat, x: nat | Live(s, i) && IsTable(s.mem, s.procs[i].pagetable, l, q, x)
      ensures s1.mem[x] == s.mem[x]
    {
      assert Refers(s.mem, s.procs[i].pagetable, TableUse(l, q), x);
      hide CountsOk, Separate;
      LiveAllHeld(s, i);
      assert Holds(s.mem, s.procs[i].pagetable, x);
    }
    assert Allocatable(f);
    assert TablesUntouched(s, s1.mem);
    LiveViewsKept(s, s1.mem);
    MemoryStepKeepsInv(s, s1);
    if s.viewer.None? {
      ViewerTakes(s1, s', f);
    }
  }

  lemma ViewerTakes(s: State, s': State, f: nat)
    requires Inv(s) && s.viewer == None && f < NPAGES && Free(s.refcount, f)
    requires s' == s.(refcount := s.refcount[f := 1], viewer := Some(f))
    ensures Inv(s') && (Exact(s) ==> Exact(s'))
  {
    FreeIsUnheld(s, f);
    hide Space, Complete, Refers, Holds, Leaf, KernelTableOk, Separate, SameView;
    ViewItself(s);
    SeparateKept(s, s');
    forall x: nat ensures Users(s', x, NPROC) == Users(s, x, NPROC) {
      UsersSame(s, s', x, NPROC);
    }
    hide Users;
  }

  /** Changing the state of a live process to another live state, or the current process. */
  lemma SameLiveKeepsInv(s: State, s': State)
    requires Inv(s) && Sized(s') && ProcsOk(s')
    requires s' == s.(procs := s'.procs, current := s'.current)
    requires forall i: nat :: i < NPROC ==>
             s'.procs[i].pagetable == s.procs[i].pagetable && (Live(s, i) <==> Live(s', i))
    ensures Inv(s') && (Exact(s) ==> Exact(s'))
  {
    hide Space, Complete, Refers, Holds, Leaf, KernelTableOk, Separate, SameView;
    ViewItself(s);
    SeparateKept(s, s');
    forall x: nat ensures Users(s', x, NPROC) == Users(s, x, NPROC) {
      UsersSame(s, s', x, NPROC);
    }
    hide Users;
  }

  lemma ScheduleKeepsInv(s: State, s': State)
    requires Inv(s) && ScheduleSpec(s, s')
    ensures Inv(s') && (Exact(s) ==> Exact(s')) && Running(s')
  {
    hide SpacesOk, Separate, CountsOk, ViewerOk, KernelTableOk, Users;
    SameLiveKeepsInv(s, s');
  }

  /** A page allocated over nothing keeps the counts exact, and only then. */
  lemma PageAllocExactIff(s: State, v: nat, f: nat, s': State)
    requires Inv(s) && Live(s, s.current) && Exact(s)
    requires PROC_START <= v < VIRTUAL_END && f < NPAGES && PageAdded(s, v, f, s')
    ensures Sized(s') && (Exact(s') <==> !IsUserPage(s.mem, Root(s), v))
  {
    hide Space, Complete, Leaf, Refers, KernelTableOk, Users, Separate, SameView, PageView, SpacesOk, CountsOk;
    forall x: nat
      ensures Users(s', x, NPROC) == Users(s, x, NPROC)
                - (if Refers(s.mem, Root(s), PageUse(v), x) then 1 else 0) + (if x == f then 1 else 0)
      ensures Users(s, f, NPROC) == 0
    {
      PageAddedUsers(s, v, f, s', x);
    }
    FreeIsUnheld(s, f);
    UserPageFrame(s, v);
    var y := Leaf(s.mem, Root(s), v).pfn;
    forall x: nat ensures Refers(s.mem, Root(s), PageUse(v), x) <==> IsUserPage(s.mem, Root(s), v) && x == y {
      UserPageHere(s.mem, Root(s), v, x);
    }
    hide IsUserPage;
    if IsUserPage(s.mem, Root(s), v) {
      assert y < NPAGES && Allocatable(y) && y != f;
    }
  }

  lemma UserPageFrame(s: State, v: nat)
    requires Inv(s) && Live(s, s.current)
    ensures IsUserPage(s.mem, Root(s), v) ==>
              var y := Leaf(s.mem, Root(s), v).pfn; y < NPAGES && Allocatable(y) && s.refcount[y] > 0
  {
    if IsUserPage(s.mem, Root(s), v) {
      var y := Leaf(s.mem, Root(s), v).pfn;
      assert Refers(s.mem, Root(s), PageUse(v), y);
      LiveAllHeld(s, s.current);
    }
  }

  /** A page allocation targets an address where the process has no page yet. */
  predicate AllocatesFresh(s: State, e: Event) {
    Sized(s) && (e.PageAlloc? ==> !IsUserPage(s.mem, Root(s), e.addr / PAGESIZE))
  }

  lemma NextKeepsInv(s: State, e: Event, s': State)
    requires Inv(s) && Next(s, e, s')
    ensures Inv(s')
    ensures Exact(s) && AllocatesFresh(s, e) ==> Exact(s')
  {
    hide SpacesOk, Separate, CountsOk, ViewerOk, KernelTableOk, Leaf, Users, ForkDone, ForkUndone;
    match e
    case PageAlloc(addr) =>
      if s' != s {
        var f: nat :| f < NPAGES && PageAdded(s, addr / PAGESIZE, f, s');
        PageAddedKeepsInv(s, addr / PAGESIZE, f, s');
        if Exact(s) { PageAllocExactIff(s, addr / PAGESIZE, f, s'); }
      }
    case Fork =>
      var r: int :| ForkSpec(s, s', r);
      if r > 0 {
        NotWrapping(s, s', r);
        ForkDoneKeepsInv(s, s', r);
        ForkDoneViewer(s, s', r);
      } else {
        ForkUndoneKeepsInv(s, s');
        ForkUndoneViewer(s, s');
      }
    case Exit => ExitKeepsInv(s, s');
    case Schedule => ScheduleKeepsInv(s, s');
    case Store(va, w) => StoreKeepsInv(s, va, w, s');
    case Fault => SameLiveKeepsInv(s, s');
    case Memshow(contents) => MemshowKeepsInv(s, contents, s');
  }

  lemma ForkDoneViewer(s: State, s': State, r: nat)
    requires Sized(s) && ForkDone(s, s', r)
    ensures s'.viewer == s.viewer && |s'.refcount| == NPAGES
  {
  }

  lemma ForkUndoneViewer(s: State, s': State)
    requires Sized(s) && ForkUndone(s, s')
    ensures s'.viewer == s.viewer && s'.refcount == s.refcount
  {
  }

  // ----- Runs

  /** A sequence of states linked by events. */
  ghost predicate IsRun(run: seq<State>, events: seq<Event>) {
    |run| == |events| + 1 && forall k: nat :: k < |events| ==> Next(run[k], events[k], run[k + 1])
  }

  /** The invariant holds in every state of every run. */
  lemma {:induction false} RunKeepsInv(run: seq<State>, events: seq<Event>, k: nat)
    requires IsRun(run, events) && Inv(run[0]) && k < |run|
    ensures Inv(run[k])
  {
    hide Inv, Next;
    if k > 0 {
      RunKeepsInv(run, events, k - 1);
      NextKeepsInv(run[k - 1], events[k - 1], run[k]);
    }
  }

  /** On runs that never allocate over a mapped page, every count stays exact. */
  lemma {:induction false} RunStaysExact(run: seq<State>, events: seq<Event>, k: nat)
    requires IsRun(run, events) && Inv(run[0]) && Exact(run[0]) && k < |run|
    requires forall j: nat :: j < |events| ==> AllocatesFresh(run[j], events[j])
    ensures Inv(run[k]) && Exact(run[k])
  {
    hide Inv, Next, Exact, AllocatesFresh;
    RunKeepsInv(run, events, k);
    if k > 0 {
      RunStaysExact(run, events, k - 1);
      NextKeepsInv(run[k - 1], events[k - 1], run[k]);
    }
  }

  /** So in every state of such a run the count of a frame is the number of its uses, plus the viewer's. */
  lemma RunCountsUses(run: seq<State>, events: seq<Event>, k: nat, f: nat)
    requires IsRun(run, events) && Inv(run[0]) && Exact(run[0]) && k < |run| && f < NPAGES && Allocatable(f)
    requires forall j: nat :: j < |events| ==> AllocatesFresh(run[j], events[j])
    ensures Sized(run[k]) && run[k].refcount[f] == |UsesOf(run[k], f)| + if run[k].viewer == Some(f) then 1 else 0
  {
    hide Exact, AllocatesFresh, Next, UsesOf;
    RunStaysExact(run, events, k);
    CountIsUses(run[k], f);
  }

  /** Any process can lose a page: its stack page is mapped, so allocating there leaves a count too high. */
  lemma StackPageLost(s: State, f: nat, s': State)
    requires Inv(s) && Live(s, s.current) && Exact(s) && f < NPAGES && PageAdded(s, VIRTUAL_END - 1, f, s')
    ensures Sized(s') && !Exact(s')
  {
    InvSpace(s, s.current);
    assert LeafOk(VIRTUAL_END - 1, Leaf(s.mem, Root(s), VIRTUAL_END - 1));
    hide SpacesOk, Separate, CountsOk, ViewerOk, KernelTableOk, Space, Exact, PageAdded;
    PageAllocExactIff(s, VIRTUAL_END - 1, f, s');
  }
}
