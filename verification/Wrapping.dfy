/** The one way out of the invariant: allocating over a page that fork shared, again and again, drives an 8-bit
    count to its limit, and the next fork takes it to 0 while the frame is in use. */
module Wrapping {
  import opened Paging
  import opened Physical
  import opened Walks
  import opened Spaces
  import opened KernelSpec
  import opened Forking
  import opened Steps
  import opened Runs
  import opened Isolation
  import opened Kernel
  import opened Boot

  /** Process 1 runs and is the only one. */
  predicate Alone(s: State) {
    && Sized(s) && s.current == 1
    && forall i: nat :: i < NPROC ==> s.procs[i].state == if i == 1 then PRunnable else PFree
  }

  /** Page `v` of process 1 is a read-only page in frame `y`. */
  predicate ReadOnlyAt(s: State, v: nat, y: nat) {
    && Sized(s) && PROC_START <= v < VIRTUAL_END && y < NPAGES
    && Leaf(s.mem, s.procs[1].pagetable, v).perm == PU && Leaf(s.mem, s.procs[1].pagetable, v).pfn == y
  }

  /** Fork, let the child map a page over page `v`, let it exit. */
  function Round(v: nat): seq<Event> {
    [Fork, Schedule, PageAlloc(v * PAGESIZE), Exit, Schedule]
  }

  // ----- One allocation over a shared page

  /** After a fork and an allocation by the child over a page it shares, the shared frame has one reference
      more than it has users, and users it still has. */
  lemma ForkThenAllocate(s: State, s1: State, child: nat, s2: State, v: nat, f: nat, s3: State, y: nat)
    requires Inv(s) && Exact(s) && Running(s) && NoneFull(s) && ForkDone(s, s1, child)
    requires PROC_START <= v < VIRTUAL_END && Leaf(s.mem, Root(s), v).perm == PU && y == Leaf(s.mem, Root(s), v).pfn
    requires s2 == s1.(current := child) && f < NPAGES && Sized(s2) && PageAdded(s2, v, f, s3)
    ensures y < NPAGES && Inv(s3) && s3.refcount[y] == Users(s3, y, NPROC) + 1 && Users(s3, y, NPROC) >= 1
    ensures !Exact(s3)
  {
    hide SpacesOk, Separate, CountsOk, ViewerOk, KernelTableOk, Leaf, Refers, Users, Copying, NoneFull;
    Forked(s, s1, child, v, y);
    CurrentIrrelevant(s1, child);
    UserPageCounted(s, v, y);
    PageAddedKeepsInv(s2, v, f, s3);
    PageAddedSlack(s2, v, f, s3, y);
    SameUsers(s1, s2, y);
    StillUsed(s, s1, child, s2, v, f, s3, y);
  }

  /** What fork does to the child's page `v` and to the counts. */
  lemma Forked(s: State, s1: State, child: nat, v: nat, y: nat)
    requires Inv(s) && Running(s) && NoneFull(s) && ForkDone(s, s1, child) && PROC_START <= v < VIRTUAL_END
    requires Leaf(s.mem, Root(s), v).perm == PU && y == Leaf(s.mem, Root(s), v).pfn
    ensures Inv(s1) && Live(s1, child) && child != s.current && s1.viewer == s.viewer && s1.current == s.current
    ensures forall x: nat :: x < NPAGES ==>
              s1.refcount[x] - Users(s1, x, NPROC) == s.refcount[x] - Users(s, x, NPROC)
    ensures forall x: nat :: Refers(s1.mem, s1.procs[child].pagetable, PageUse(v), x) <==> x == y
    ensures Refers(s.mem, Root(s), PageUse(v), y)
  {
    ForkDoneKeepsInv(s, s1, child);
    hide SpacesOk, Separate, CountsOk, ViewerOk, KernelTableOk, Leaf, Users, Space, Holds;
    var root := s1.procs[child].pagetable;
    assert Copying(s.mem, s.refcount, Root(s), s1.mem, s1.refcount, root, VIRTUAL_END);
    assert CopyOf(s.mem, s.refcount, s1.mem, v, Leaf(s.mem, Root(s), v), Leaf(s1.mem, root, v));
  }

  lemma SameUsers(s1: State, s2: State, y: nat)
    requires s2 == s1.(current := s2.current)
    ensures Users(s2, y, NPROC) == Users(s1, y, NPROC)
  {
    UsersSame(s1, s2, y, NPROC);
  }

  /** The parent goes on using the shared frame. */
  lemma StillUsed(s: State, s1: State, child: nat, s2: State, v: nat, f: nat, s3: State, y: nat)
    requires Inv(s) && Running(s) && ForkDone(s, s1, child) && Inv(s1) && child != s.current
    requires Refers(s.mem, Root(s), PageUse(v), y) && s2 == s1.(current := child) && Inv(s2) && Live(s2, child)
    requires PROC_START <= v < VIRTUAL_END && f < NPAGES && PageAdded(s2, v, f, s3)
    ensures Users(s3, y, NPROC) >= 1
  {
    ParentView(s, s1, child);
    PageAddedViews(s2, v, f, s3);
    hide SpacesOk, Separate, CountsOk, ViewerOk, KernelTableOk, Leaf, Users, Space, Refers;
    var root := Root(s);
    assert Live(s2, s.current) && s2.procs[s.current].pagetable == root;
    assert SameView(s.mem, s1.mem, root) && SameView(s2.mem, s3.mem, root);
    assert Refers(s3.mem, root, PageUse(v), y);
    assert Holds(s3.mem, root, y);
    assert LiveHolds(s3, s.current, y);
    UsersPositive(s3, y, NPROC, s.current);
  }

  lemma ParentView(s: State, s1: State, child: nat)
    requires Inv(s) && Live(s, s.current) && ForkDone(s, s1, child)
    ensures SameView(s.mem, s1.mem, Root(s))
  {
    assert Copying(s.mem, s.refcount, Root(s), s1.mem, s1.refcount, s1.procs[child].pagetable, VIRTUAL_END);
    hide Leaf, Refers, Holds, Space;
    InUseKeepsTables(s, s1.mem);
    LiveViewsKept(s, s1.mem);
  }

  // ----- A whole round

  /** After a round everything is as before, except that frame `y` has one more reference. */
  ghost predicate Rounded(s: State, s': State, y: nat)
    requires Sized(s) && y < NPAGES
  {
    && Inv(s') && Alone(s') && s'.procs[1] == s.procs[1]
    && s'.refcount == s.refcount[y := s.refcount[y] + 1]
    && forall w: nat :: Leaf(s'.mem, s.procs[1].pagetable, w) == Leaf(s.mem, s.procs[1].pagetable, w)
  }

  /** Everything the child held is released, but the page it mapped over `y` took its place. */
  lemma RoundCounts(s: State, s1: State, child: nat, s2: State, v: nat, f: nat, s3: State, s4: State, y: nat)
    requires Inv(s) && Running(s) && NoneFull(s) && ForkDone(s, s1, child)
    requires PROC_START <= v < VIRTUAL_END && Leaf(s.mem, Root(s), v).perm == PU && y == Leaf(s.mem, Root(s), v).pfn
    requires s2 == s1.(current := child) && f < NPAGES && Sized(s2) && PageAdded(s2, v, f, s3)
    requires Sized(s3) && ExitSpec(s3, s4)
    ensures y < NPAGES && s4.refcount == s.refcount[y := s.refcount[y] + 1]
  {
    hide SpacesOk, Separate, CountsOk, ViewerOk, KernelTableOk, Leaf, Refers, Users, NoneFull, Holds, ForkDone;
    var root := s1.procs[child].pagetable;
    Forked(s, s1, child, v, y);
    CurrentIrrelevant(s1, child);
    UserPageCounted(s, v, y);
    ForkCounts(s, s1, child);
    RefersHolds(s1.mem, root, PageUse(v), y);
    forall x: nat | x < NPAGES ensures s4.refcount[x] == s.refcount[y := s.refcount[y] + 1][x] {
      ChildHoldsNow(s2, v, f, s3, x);
    }
  }

  lemma ChildHoldsNow(s: State, v: nat, f: nat, s': State, x: nat)
    requires Inv(s) && Live(s, s.current) && PROC_START <= v < VIRTUAL_END && f < NPAGES && PageAdded(s, v, f, s')
    ensures Holds(s'.mem, Root(s), x) <==>
            (Holds(s.mem, Root(s), x) && !Refers(s.mem, Root(s), PageUse(v), x)) || x == f
  {
    hide SpacesOk, Separate, CountsOk, ViewerOk, KernelTableOk, Leaf, Refers, Space, Holds, PageAdded;
    PageAddedViews(s, v, f, s');
    assert PageView(s.mem, s'.mem, Root(s), v, f);
  }

  lemma ForkCounts(s: State, s1: State, child: nat)
    requires Sized(s) && ForkDone(s, s1, child)
    ensures |s1.refcount| == NPAGES
    ensures forall x: nat :: x < NPAGES ==>
              s1.refcount[x] == s.refcount[x] + if Holds(s1.mem, s1.procs[child].pagetable, x) then 1 else 0
    ensures FreeCount(s1.refcount) + 5 + PrivatePages(s.mem, Root(s), VIRTUAL_END) >= FreeCount(s.refcount)
  {
    hide Holds, Leaf, Space, PrivatePages;
    assert Copying(s.mem, s.refcount, Root(s), s1.mem, s1.refcount, s1.procs[child].pagetable, VIRTUAL_END);
  }

  /** Process 1 sees the same pages throughout. */
  lemma RoundViews(s: State, s1: State, child: nat, s2: State, v: nat, f: nat, s3: State)
    requires Inv(s) && Running(s) && ForkDone(s, s1, child) && Inv(s1) && child != s.current && Live(s1, child)
    requires PROC_START <= v < VIRTUAL_END
    requires s2 == s1.(current := child) && f < NPAGES && Sized(s2) && PageAdded(s2, v, f, s3)
    ensures forall w: nat :: Leaf(s3.mem, Root(s), w) == Leaf(s.mem, Root(s), w)
    ensures s3.procs == s1.procs && s3.procs[s.current] == s.procs[s.current]
  {
    ParentView(s, s1, child);
    CurrentIrrelevant(s1, child);
    PageAddedViews(s2, v, f, s3);
    hide Inv, Leaf, Refers, Holds, Space, Complete, Copying, Users;
    assert Live(s2, s.current);
    assert SameView(s.mem, s1.mem, Root(s)) && SameView(s2.mem, s3.mem, Root(s));
  }

  /** With two runnable processes the scheduler takes the other one. */
  lemma ScheduleOther(s: State, s': State, i: nat)
    requires Sized(s) && ScheduleSpec(s, s') && i < NPROC && i != s.current && s.procs[i].state == PRunnable
    requires forall j: nat :: j < NPROC && j != i && j != s.current ==> s.procs[j].state != PRunnable
    ensures s' == s.(current := i)
  {
    var d: nat :| 1 <= d <= NPROC && Picks(s, d) && s' == s.(current := (s.current + d) % NPROC);
    var w := if i > s.current then i - s.current else i + NPROC - s.current;
    assert StateAfter(s, w) == PRunnable;
    assert StateAfter(s, d) == PRunnable;
  }

  /** Enough frames for a fork of process 1 and one more page. */
  predicate Affords(s: State) {
    Sized(s) && FreeCount(s.refcount) >= 6 + PrivatePages(s.mem, s.procs[1].pagetable, VIRTUAL_END)
  }

  lemma ForkWorks(s: State, s1: State, r: int)
    requires Alone(s) && Affords(s) && ForkSpec(s, s1, r)
    ensures r == 2 && ForkDone(s, s1, 2) && FreeCount(s1.refcount) >= 1
  {
    hide PrivatePages, FreeCount;
    assert s.procs[2].state == PFree;
    ForkCounts(s, s1, r);
  }

  /** Process 1 is ready for a round at page `v`. */
  ghost predicate Prepared(s: State, v: nat, y: nat) {
    Inv(s) && Alone(s) && ReadOnlyAt(s, v, y) && Affords(s) && !Wraps(s)
  }

  /** The child of process 1 is runnable, and no other process is. */
  predicate ChildBeside(s: State, s1: State) {
    && Sized(s) && Sized(s1) && s1.current == 1 && s1.procs[1] == s.procs[1]
    && forall i: nat :: i < NPROC ==> s1.procs[i].state == if i == 1 || i == 2 then PRunnable else PFree
  }

  lemma AfterFork(s: State, s1: State, r: int, v: nat, y: nat)
    requires Prepared(s, v, y) && ForkSpec(s, s1, r)
    ensures NoneFull(s) && ForkDone(s, s1, 2) && Inv(s1) && ChildBeside(s, s1) && FreeCount(s1.refcount) >= 1
  {
    hide SpacesOk, Separate, CountsOk, ViewerOk, KernelTableOk, Leaf, Users, Wraps, NoneFull, PrivatePages, ForkDone;
    ForkWorks(s, s1, r);
    NotWrapping(s, s1, r);
    ForkDoneKeepsInv(s, s1, 2);
    ChildRunnable(s, s1);
  }

  lemma AfterAlloc(s2: State, v: nat, s3: State, a: int) returns (f: nat)
    requires Inv(s2) && Running(s2) && FreeCount(s2.refcount) >= 1 && PROC_START <= v < VIRTUAL_END
    requires PageAllocSpec(s2, v * PAGESIZE, s3, a)
    ensures f < NPAGES && PageAdded(s2, v, f, s3) && Inv(s3) && Running(s3)
  {
    hide SpacesOk, Separate, CountsOk, ViewerOk, KernelTableOk, Leaf, Users, PageAllocSpec;
    f := AllocatedFrame(s2, v, s3, a);
    PageAddedKeepsInv(s2, v, f, s3);
  }

  /** The child has gone. */
  lemma AfterExit(s: State, s1: State, s2: State, v: nat, f: nat, s3: State, s4: State, y: nat)
    requires Prepared(s, v, y) && NoneFull(s) && ForkDone(s, s1, 2) && Inv(s1) && ChildBeside(s, s1)
    requires s2 == s1.(current := 2) && f < NPAGES && PageAdded(s2, v, f, s3) && Inv(s3) && ExitSpec(s3, s4)
    ensures Sized(s4) && Rounded(s, s4.(current := 1), y) && s4.current == 2 && Inv(s4)
  {
    hide SpacesOk, Separate, CountsOk, ViewerOk, KernelTableOk, Leaf, Users, NoneFull, Wraps, Affords, Holds;
    RoundCounts(s, s1, 2, s2, v, f, s3, s4, y);
    RoundViews(s, s1, 2, s2, v, f, s3);
    ExitKeepsInv(s3, s4);
    CurrentIrrelevant(s4, 1);
  }

  /** One round, as the kernel carries it out. */
  method RunRound(kern: Kernel, v: nat, ghost y: nat) returns (run: seq<State>)
    requires Prepared(kern.St(), v, y)
    modifies kern, kern.m
    ensures Rounded(old(kern.St()), kern.St(), y)
    ensures IsRun(run, Round(v)) && run[0] == old(kern.St()) && run[5] == kern.St()
  {
    hide SpacesOk, Separate, CountsOk, ViewerOk, KernelTableOk, Wraps, ForkDone, Leaf, HandsOutUsed, ForkSpec,
         PageAdded, PageAllocSpec, ExitSpec, ScheduleSpec, NoneFull, FreeCount, Affords, Round, IsRun;
    var s0 := kern.St();
    var r, wrapped := kern.Fork();
    var s1 := kern.St();
    AfterFork(s0, s1, r, v, y);
    var found := kern.Schedule();
    var s2 := kern.St();
    ScheduleOther(s1, s2, 2);
    var a := kern.PageAlloc(v * PAGESIZE);
    var s3 := kern.St();
    ghost var f := AfterAlloc(s2, v, s3, a);
    kern.Exit();
    var s4 := kern.St();
    AfterExit(s0, s1, s2, v, f, s3, s4, y);
    found := kern.Schedule();
    var s5 := kern.St();
    ScheduleOther(s4, s5, 1);
    run := [s0, s1, s2, s3, s4, s5];
    RoundIsRun(s0, s1, s2, s3, s4, s5, v, r, a);
  }

  lemma RoundIsRun(s0: State, s1: State, s2: State, s3: State, s4: State, s5: State, v: nat, r: int, a: int)
    requires Running(s0) && !Wraps(s0) && ForkSpec(s0, s1, r) && Sized(s1) && ScheduleSpec(s1, s2)
    requires Running(s2) && PageAllocSpec(s2, v * PAGESIZE, s3, a) && Running(s3) && ExitSpec(s3, s4)
    requires Sized(s4) && ScheduleSpec(s4, s5) && Sized(s5)
    ensures IsRun([s0, s1, s2, s3, s4, s5], Round(v))
  {
    hide ForkSpec, ScheduleSpec, PageAllocSpec, ExitSpec, Wraps;
    var run := [s0, s1, s2, s3, s4, s5];
    assert Next(run[0], Round(v)[0], run[1]);
    assert Next(run[1], Round(v)[1], run[2]);
    assert Next(run[2], Round(v)[2], run[3]);
    assert Next(run[3], Round(v)[3], run[4]);
    assert Next(run[4], Round(v)[4], run[5]);
  }

  lemma ChildRunnable(s: State, s1: State)
    requires Alone(s) && ForkDone(s, s1, 2) && Sized(s1)
    ensures ChildBeside(s, s1)
  {
  }

  ghost function AllocatedFrame(s: State, v: nat, s': State, r: int): (f: nat)
    requires Sized(s) && PageAllocSpec(s, v * PAGESIZE, s', r) && FreeCount(s.refcount) >= 1
    requires PROC_START <= v < VIRTUAL_END
    ensures f < NPAGES && PageAdded(s, v, f, s')
  {
    PageAddress(v);
    var f: nat :| f < NPAGES && PageAdded(s, v * PAGESIZE / PAGESIZE, f, s');
    f
  }

  // ----- Up to the limit

  /** Some rounds have passed since `s`. */
  ghost predicate Driven(s: State, s': State, y: nat)
    requires Sized(s) && y < NPAGES
  {
    && Inv(s') && Alone(s') && s'.procs[1] == s.procs[1] && |s'.refcount| == NPAGES && s'.refcount[y] >= s.refcount[y]
    && s'.refcount == s.refcount[y := s'.refcount[y]]
    && forall w: nat :: Leaf(s'.mem, s.procs[1].pagetable, w) == Leaf(s.mem, s.procs[1].pagetable, w)
  }

  /** Process 1 alone, with exact counts, a read-only page and frames to spare. */
  ghost predicate Startable(s: State, v: nat, y: nat) {
    Inv(s) && Exact(s) && Alone(s) && ReadOnlyAt(s, v, y) && Affords(s)
  }

  lemma DrivenAffords(s: State, s': State, v: nat, y: nat)
    requires Startable(s, v, y) && Driven(s, s', y)
    ensures ReadOnlyAt(s', v, y) && Affords(s') && Running(s')
  {
    hide SpacesOk, Separate, CountsOk, ViewerOk, KernelTableOk, Leaf, Users, Exact;
    PrivatePagesSame(s.mem, s'.mem, s.procs[1].pagetable, VIRTUAL_END);
    UserPageHere(s.mem, Root(s), v, y);
    UserPageCounted(s, v, y);
    KeepFree(s.refcount, s'.refcount);
  }

  lemma StillPrepared(s: State, s': State, v: nat, y: nat)
    requires Startable(s, v, y) && Driven(s, s', y) && s'.refcount[y] < REFCOUNT_MAX
    ensures Prepared(s', v, y)
  {
    hide SpacesOk, Separate, CountsOk, ViewerOk, KernelTableOk, Leaf, Users, Exact, Affords;
    DrivenAffords(s, s', v, y);
    forall w: nat ensures !FullPage(s'.mem, s'.refcount, Root(s'), w) {
      OthersSmall(s, s', y, Leaf(s'.mem, Root(s'), w).pfn);
    }
  }

  /** Only frame `y` is shared at the limit. */
  ghost predicate OnlyFull(s: State, y: nat)
    requires Sized(s)
  {
    forall w: nat :: FullPage(s.mem, s.refcount, Root(s), w) ==> Leaf(s.mem, Root(s), w).pfn == y
  }

  lemma OthersSmall(s: State, s': State, y: nat, x: nat)
    requires Inv(s) && Exact(s) && y < NPAGES && Driven(s, s', y)
    ensures x < NPAGES && x != y ==> s'.refcount[x] < REFCOUNT_MAX
  {
    hide SpacesOk, Separate, CountsOk, ViewerOk, KernelTableOk, Leaf, Users, Exact;
    if x < NPAGES && x != y {
      CountsStaySmall(s, x);
      assert s'.refcount[x] == s.refcount[x];
    }
  }

  lemma AtLimit(s: State, s': State, v: nat, y: nat)
    requires Startable(s, v, y) && Driven(s, s', y) && s'.refcount[y] >= REFCOUNT_MAX
    ensures Wraps(s') && Running(s') && OnlyFull(s', y)
  {
    hide SpacesOk, Separate, CountsOk, ViewerOk, KernelTableOk, Leaf, Users, Exact;
    DrivenAffords(s, s', v, y);
    forall w: nat | FullPage(s'.mem, s'.refcount, Root(s'), w) ensures Leaf(s'.mem, Root(s'), w).pfn == y {
      OthersSmall(s, s', y, Leaf(s'.mem, Root(s'), w).pfn);
    }
    PrivatePagesGrow(s'.mem, Root(s'), v, VIRTUAL_END);
    assert s'.procs[2].state == PFree;
    assert FullPage(s'.mem, s'.refcount, Root(s'), v);
  }

  lemma RoundDrives(s: State, s1: State, s2: State, y: nat)
    requires Sized(s) && y < NPAGES && Driven(s, s1, y) && Rounded(s1, s2, y)
    ensures Driven(s, s2, y) && s2.refcount[y] == s1.refcount[y] + 1
  {
    hide SpacesOk, Separate, CountsOk, ViewerOk, KernelTableOk, Leaf;
    assert s.refcount[y := s1.refcount[y]][y := s1.refcount[y] + 1] == s.refcount[y := s1.refcount[y] + 1];
  }

  lemma RunsJoin(run: seq<State>, events: seq<Event>, run': seq<State>, events': seq<Event>)
    requires IsRun(run, events) && IsRun(run', events') && run[|events|] == run'[0]
    ensures var r := run + run'[1..];
            IsRun(r, events + events') && r[0] == run[0] && r[|events| + |events'|] == run'[|events'|]
  {
    hide Next;
    var r, e := run + run'[1..], events + events';
    forall k: nat | k < |e| ensures Next(r[k], e[k], r[k + 1]) {
      if k < |events| {
        assert Next(run[k], events[k], run[k + 1]);
      } else {
        var j := k - |events|;
        assert r[k] == run'[j] && r[k + 1] == run'[j + 1] && e[k] == events'[j];
      }
    }
  }

  /** Rounds until the count of the shared frame is at its limit: from there the next fork wraps it. */
  method Drive(kern: Kernel, v: nat, y: nat) returns (run: seq<State>, events: seq<Event>)
    requires Startable(kern.St(), v, y)
    modifies kern, kern.m
    ensures IsRun(run, events) && run[0] == old(kern.St()) && run[|events|] == kern.St()
    ensures Inv(kern.St()) && Running(kern.St()) && Wraps(kern.St()) && OnlyFull(kern.St(), y)
  {
    hide SpacesOk, Separate, CountsOk, ViewerOk, KernelTableOk, Leaf, Users, Exact, Wraps, Next, Affords, Rounded,
         Round;
    ghost var s := kern.St();
    run, events := [kern.St()], [];
    while kern.m.refcount[y] < REFCOUNT_MAX
      invariant Driven(s, kern.St(), y)
      invariant IsRun(run, events) && run[0] == s && run[|events|] == kern.St()
      decreases REFCOUNT_MAX - kern.m.refcount[y]
    {
      ghost var s1 := kern.St();
      StillPrepared(s, s1, v, y);
      var more := RunRound(kern, v, y);
      RoundDrives(s, s1, kern.St(), y);
      RoundLength(v);
      RunsJoin(run, events, more, Round(v));
      run, events := run + more[1..], events + Round(v);
    }
    AtLimit(s, kern.St(), v, y);
  }

  lemma RoundLength(v: nat)
    ensures |Round(v)| == 5
  {
  }

  // ----- From boot

  /** A program with one read-only page. */
  function Tiny(): Program {
    Program([Segment(PROC_START * PAGESIZE, 1, false)], PROC_START * PAGESIZE)
  }

  lemma TinyBoots()
    ensures ProgramPages(Tiny().segs) == [(PROC_START, false)]
    ensures Bootable([Tiny()]) && FramesFor([Tiny()], 1) == 7
  {
    var g := Tiny().segs[0];
    assert g.First() == PROC_START && g.Last() == PROC_START + 1;
    assert SegmentPages(g, g.Last()) == [(PROC_START, false)];
    assert Tiny().segs[..0] == [];
    assert ProgramPages(Tiny().segs[..0]) == [];
    OneMoreProgram([Tiny()], 0);
    NoFramesYet([Tiny()]);
    hide ProgramPages, FreeCount, FramesFor;
    TinyOk();
    SmallProgramsBoot([Tiny()]);
  }

  lemma TinyOk()
    requires ProgramPages(Tiny().segs) == [(PROC_START, false)]
    ensures ProgramOk(Tiny())
  {
    hide ProgramPages;
    assert ProgramPages(Tiny().segs) + [(VIRTUAL_END - 1, true)] == [(PROC_START, false), (VIRTUAL_END - 1, true)];
  }

  lemma {:induction false} TinyPrivatePages(mem: seq<Frame>, root: nat, v: nat)
    requires PagesLoaded(mem, root, [(PROC_START, false), (VIRTUAL_END - 1, true)]) && v <= VIRTUAL_END
    requires forall w: nat :: w < PROC_START ==> Leaf(mem, root, w) == KernelEntry(w)
    ensures PrivatePages(mem, root, v) <= if v == VIRTUAL_END then 1 else 0
  {
    hide Leaf;
    if v > 0 {
      var pages := [(PROC_START, false), (VIRTUAL_END - 1, true)];
      TinyPrivatePages(mem, root, v - 1);
      assert Leaf(mem, root, pages[0].0).perm == PagePerm(pages[0].1);
      assert v - 1 != PROC_START && PROC_START <= v - 1 < VIRTUAL_END - 1 ==> Leaf(mem, root, v - 1) == ZERO;
    }
  }

  lemma TinyStartable(s: State) returns (y: nat)
    requires Inv(s) && Exact(s) && Alone(s) && HasProgram(s, 1, Tiny()) && FreeCount(s.refcount) >= 7
    ensures Startable(s, PROC_START, y) && y == Leaf(s.mem, s.procs[1].pagetable, PROC_START).pfn
  {
    hide SpacesOk, Separate, CountsOk, ViewerOk, KernelTableOk, Leaf, Users, Exact, ProgramPages, FreeCount, Space;
    TinyBoots();
    var root := s.procs[1].pagetable;
    var pages := [(PROC_START, false), (VIRTUAL_END - 1, true)];
    assert ProgramPages(Tiny().segs) + [(VIRTUAL_END - 1, true)] == pages;
    InvSpace(s, 1);
    assert Leaf(s.mem, root, pages[0].0).perm == PagePerm(pages[0].1);
    TinyPrivatePages(s.mem, root, VIRTUAL_END);
    y := Leaf(s.mem, root, PROC_START).pfn;
    UserPageHere(s.mem, root, PROC_START, y);
    UserPageCounted(s, PROC_START, y);
  }

  // ----- What the next allocations do

  /** Allocations until frame `y` is handed out; frames in use keep their contents and counts. */
  method AllocateUntil(m: Machine, y: nat)
    requires m.Sized() && y < NPAGES && Free(m.refcount, y)
    modifies m
    ensures m.Sized() && m.mem[y] == Filled(INT3)
    ensures forall f: nat :: f < NPAGES && old(m.refcount)[f] > 0 ==> m.mem[f] == old(m.mem)[f]
  {
    var last: Option<nat> := None;
    while last != Some(y)
      invariant m.Sized() && (if last == Some(y) then m.mem[y] == Filled(INT3) else Free(m.refcount, y))
      invariant forall f: nat :: f < NPAGES && old(m.refcount)[f] > 0 ==>
                  m.mem[f] == old(m.mem)[f] && m.refcount[f] > 0
      decreases FreeCount(m.refcount)
    {
      ghost var r := m.refcount;
      SomeFree(r, y);
      last := m.Kalloc(PAGESIZE);
      TakeFree(r, last.value, 1);
    }
  }

  lemma SomeFree(r: seq<nat>, y: nat)
    requires |r| == NPAGES && y < NPAGES && Free(r, y)
    ensures FreeCount(r) > 0
  {
    assert y in FreeFrames(r);
  }

  /** Once the frame is handed out, the process that never gave it up reads what the allocator filled it with. */
  lemma Overwritten(s: State, s': State, v: nat, s2: State)
    requires Inv(s) && Running(s) && HandsOut(s, s', v)
    requires |s2.mem| == NPAGES && s2 == s'.(mem := s2.mem, refcount := s2.refcount)
    requires s2.mem[Leaf(s.mem, Root(s), v).pfn] == Filled(INT3)
    requires forall f: nat :: f < NPAGES && s'.refcount[f] > 0 ==> s2.mem[f] == s'.mem[f]
    ensures Reads(s2, s.current, v * PAGESIZE) == Some(INT3)
  {
    hide SpacesOk, Separate, CountsOk, ViewerOk, KernelTableOk, Leaf, Space, Translate, Vpn, Refers, LiveHolds;
    var y := Leaf(s.mem, Root(s), v).pfn;
    FullPageIs(s, v);
    StillMapped(s, s', v, s2);
    PageAddress(v);
    SpaceClosed(s2.mem, Root(s));
    SpaceTranslate(s2.mem, Root(s), v * PAGESIZE);
    FrameOf(y, v * PAGESIZE);
  }

  lemma StillMapped(s: State, s': State, v: nat, s2: State)
    requires Inv(s) && Running(s) && HandsOut(s, s', v) && |s2.mem| == NPAGES
    requires forall f: nat :: f < NPAGES && s'.refcount[f] > 0 ==> s2.mem[f] == s'.mem[f]
    ensures Space(s2.mem, Root(s)) && Leaf(s2.mem, Root(s), v) == Leaf(s.mem, Root(s), v)
  {
    hide SpacesOk, Separate, CountsOk, ViewerOk, KernelTableOk, Leaf, Space, Complete, Refers, Users, FullPage;
    var root, y := Root(s), Leaf(s.mem, Root(s), v).pfn;
    InvSpace(s, s.current);
    LiveAllHeld(s, s.current);
    FullPageIs(s, v);
    forall l: nat, p: nat, f: nat | IsTable(s.mem, root, l, p, f) ensures s2.mem[f] == s.mem[f] {
      TableCounted(s, v, l, p, f);
    }
    ViewKept(s.mem, s2.mem, root);
    assert SameView(s.mem, s2.mem, root);
  }

  lemma TableCounted(s: State, v: nat, l: nat, p: nat, f: nat)
    requires Inv(s) && Running(s) && IsTable(s.mem, Root(s), l, p, f)
    requires Refers(s.mem, Root(s), PageUse(v), Leaf(s.mem, Root(s), v).pfn)
    ensures f < NPAGES && s.refcount[f] > 0 && f != Leaf(s.mem, Root(s), v).pfn
  {
    LiveAllHeld(s, s.current);
    assert Refers(s.mem, Root(s), TableUse(l, p), f);
    hide SpacesOk, Separate, CountsOk, ViewerOk, KernelTableOk, Leaf, Users, IsTable, Refers;
    RefersHolds(s.mem, Root(s), TableUse(l, p), f);
    PageNoTable(s, s.current, v, Leaf(s.mem, Root(s), v).pfn, s.current, l, p);
  }

  lemma HandsOutOnly(s: State, s': State, v: nat, y: nat)
    requires HandsOut(s, s', v) && OnlyFull(s, y)
    ensures Sized(s') && s'.current == s.current
    ensures Leaf(s.mem, Root(s), v).pfn == y < NPAGES && Free(s'.refcount, y)
  {
  }

  lemma FullPageIs(s: State, v: nat)
    requires Inv(s) && Running(s) && FullPage(s.mem, s.refcount, Root(s), v)
    ensures var e := Leaf(s.mem, Root(s), v);
            PROC_START <= v < VIRTUAL_END && e.perm == PU && Refers(s.mem, Root(s), PageUse(v), e.pfn)
            && e.pfn != CONSOLE_PFN
  {
    InvSpace(s, s.current);
    assert LeafOk(v, Leaf(s.mem, Root(s), v));
  }

  /** From boot with a program of one read-only page, a run of forks, allocations and exits reaches a state in which
      the invariant still holds and the next fork leaves the allocator ready to hand out a frame in use; the
      allocations after that overwrite what the process reads in its own program. */
  method BootToWrap(contents: seq<Frame>)
    returns (run: seq<State>, events: seq<Event>, after: State, later: State, ghost v: nat)
    requires |contents| == NPAGES
    ensures IsRun(run, events) && Inv(run[0]) && Exact(run[0]) && HasProgram(run[0], 1, Tiny())
    ensures Inv(run[|events|]) && Wraps(run[|events|]) && HandsOut(run[|events|], after, v)
    ensures |later.mem| == NPAGES && later == after.(mem := later.mem, refcount := later.refcount)
    ensures Reads(later, after.current, v * PAGESIZE) == Some(INT3)
  {
    hide SpacesOk, Separate, CountsOk, ViewerOk, KernelTableOk, Leaf, Users, Exact, Wraps, Next, FreeCount, FramesFor,
         HasProgram, Bootable, Tiny, FullPage, Reads, LiveHolds, HandsOut, OnlyFull;
    TinyBoots();
    var programs := [Tiny()];
    var kern := Start(contents, programs);
    assert HasProgram(kern.St(), 0 + 1, programs[0]);
    FreeAtBoot();
    ghost var y0 := TinyStartable(kern.St());
    var y := Leaf(kern.m.mem, kern.procs[1].pagetable, PROC_START).pfn;
    run, events := Drive(kern, PROC_START, y);
    ghost var s := kern.St();
    var r, wrapped := kern.Fork();
    after := kern.St();
    v :| HandsOut(s, after, v);
    HandsOutOnly(s, after, v, y);
    AllocateUntil(kern.m, y);
    later := kern.St();
    Overwritten(s, after, v, later);
  }

  lemma FreeAtBoot()
    ensures FreeCount(seq(NPAGES, _ => 0)) >= 256
  {
    ManyFree(seq(NPAGES, _ => 0));
  }
}
