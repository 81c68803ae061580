/** The state of the kernel, what must always hold of it, and how reference counts account for
    the processes. */
module KernelSpec {
  import opened Paging
  import opened Physical
  import opened Walks
  import opened Growth
  import opened Spaces

  const NPROC: nat := 16

  datatype ProcState = PFree | PRunnable | PBlocked | PBroken

  /** The registers the system calls touch; `rest` is everything else a process has saved. */
  datatype Regs = Regs(rax: nat, rip: nat, rsp: nat, rest: seq<nat>)

  datatype Proc = Proc(pagetable: nat, pid: nat, state: ProcState, regs: Regs)

  /** Frames, `pages[]`, `ptable[]`, `current`, and the memory viewer's own page. */
  datatype State = State(mem: seq<Frame>, refcount: seq<nat>, procs: seq<Proc>, current: nat, viewer: Option<nat>)

  predicate Sized(s: State) {
    && |s.mem| == |s.refcount| == NPAGES && |s.procs| == NPROC
    && s.current < NPROC
  }

  predicate Live(s: State, i: nat) {
    i < |s.procs| && s.procs[i].state != PFree
  }

  ghost predicate LiveHolds(s: State, i: nat, f: nat) {
    Live(s, i) && Holds(s.mem, s.procs[i].pagetable, f)
  }

  /** How many of the first `n` processes hold `f`. */
  ghost function Users(s: State, f: nat, n: nat): nat {
    if n == 0 then 0 else Users(s, f, n - 1) + if LiveHolds(s, n - 1, f) then 1 else 0
  }

  /** A user page that may be shared: mapped read-only. */
  predicate SharedUse(mem: seq<Frame>, root: nat, u: Use) {
    u.PageUse? && Leaf(mem, root, u.v).perm == PU
  }

  /** Different processes share only read-only pages, and at the same address. */
  ghost predicate Separate(s: State) {
    forall i: nat, j: nat, u: Use, w: Use, f: nat ::
      Live(s, i) && Live(s, j) && i != j
      && Refers(s.mem, s.procs[i].pagetable, u, f) && Refers(s.mem, s.procs[j].pagetable, w, f) ==>
        u == w && SharedUse(s.mem, s.procs[i].pagetable, u) && SharedUse(s.mem, s.procs[j].pagetable, w)
  }

  ghost predicate SpacesOk(s: State) {
    forall i: nat :: Live(s, i) ==> Space(s.mem, s.procs[i].pagetable) && Complete(s.mem, s.procs[i].pagetable)
  }

  /** The largest value of an 8-bit count. */
  const REFCOUNT_MAX: nat := 255

  /** No frame has fewer references than users; a page mapped over leaves one reference too many. */
  ghost predicate CountsOk(s: State)
    requires Sized(s)
  {
    forall f: nat :: f < NPAGES ==>
      if Allocatable(f) then Users(s, f, NPROC) <= s.refcount[f] <= REFCOUNT_MAX else s.refcount[f] == 0
  }

  ghost predicate ViewerOk(s: State)
    requires Sized(s)
  {
    s.viewer.Some? ==>
      Allocatable(s.viewer.value) && Users(s, s.viewer.value, NPROC) == 0 && s.refcount[s.viewer.value] == 1
  }

  /** The kernel's page table is made of its five fixed pages and reaches the first 2 MBytes. */
  ghost predicate KernelLinks(mem: seq<Frame>) {
    && |mem| == NPAGES && Closed(mem, KERNEL_PT)
    && (forall l: nat, q: nat, f: nat :: IsTable(mem, KERNEL_PT, l, q, f) ==> KERNEL_PT <= f < KERNEL_PT + 5)
    && mem[KERNEL_PT][0] == Word(KERNEL_PT + 1, PWU, 0)
    && mem[KERNEL_PT + 1][0] == Word(KERNEL_PT + 2, PWU, 0)
    && mem[KERNEL_PT + 2][0] == Word(KERNEL_PT + 3, PWU, 0)
  }

  /** It maps every physical page to itself, open to user code from PROC_START_ADDR and at the console. */
  ghost predicate KernelTableOk(mem: seq<Frame>) {
    && KernelLinks(mem)
    && forall v: nat :: v < NPAGES ==>
       mem[KERNEL_PT + 3][v] == if v < PROC_START then KernelEntry(v) else Word(v, PWU, 0)
  }

  ghost predicate ProcsOk(s: State)
    requires Sized(s)
  {
    && s.procs[0].state == PFree && 1 <= s.current
    && forall i: nat :: i < NPROC ==> s.procs[i].pid == i
  }

  ghost predicate Inv(s: State) {
    && Sized(s) && ProcsOk(s) && SpacesOk(s) && Separate(s) && CountsOk(s) && ViewerOk(s)
    && KernelTableOk(s.mem)
  }

  /** No page is lost: every reference is a process's or the viewer's. */
  ghost predicate Exact(s: State)
    requires Sized(s)
  {
    forall f: nat :: f < NPAGES && Allocatable(f) ==>
      s.refcount[f] == Users(s, f, NPROC) + if s.viewer == Some(f) then 1 else 0
  }

  // ----- Counting

  lemma {:induction false} UsersPositive(s: State, f: nat, n: nat, i: nat)
    requires i < n && LiveHolds(s, i, f)
    ensures Users(s, f, n) > 0
  {
    if i < n - 1 { UsersPositive(s, f, n - 1, i); }
  }

  lemma {:induction false} UsersWitness(s: State, f: nat, n: nat) returns (i: nat)
    requires Users(s, f, n) > 0
    ensures i < n && LiveHolds(s, i, f)
  {
    if LiveHolds(s, n - 1, f) { i := n - 1; } else { i := UsersWitness(s, f, n - 1); }
  }

  /** Slot 0 is never used, so no frame has more than NPROC - 1 users. */
  lemma {:induction false} UsersBound(s: State, f: nat, n: nat)
    requires n > 0 && !Live(s, 0)
    ensures Users(s, f, n) <= n - 1
  {
    if n > 1 { UsersBound(s, f, n - 1); } else { assert Users(s, f, 0) == 0; }
  }

  /** Changing what one process holds changes its count by that process's share. */
  lemma {:induction false} UsersDelta(s0: State, s1: State, f: nat, n: nat, i: nat)
    requires forall j: nat :: j != i ==> (LiveHolds(s1, j, f) <==> LiveHolds(s0, j, f))
    ensures Users(s1, f, n) == Users(s0, f, n)
              + (if i < n && LiveHolds(s1, i, f) then 1 else 0) - (if i < n && LiveHolds(s0, i, f) then 1 else 0)
  {
    if n > 0 { UsersDelta(s0, s1, f, n - 1, i); }
  }

  lemma {:induction false} UsersSame(s0: State, s1: State, f: nat, n: nat)
    requires forall j: nat :: LiveHolds(s1, j, f) <==> LiveHolds(s0, j, f)
    ensures Users(s1, f, n) == Users(s0, f, n)
  {
    if n > 0 { UsersSame(s0, s1, f, n - 1); }
  }

  /** The count of a frame is the number of (process, use) pairs that refer to it. */
  lemma {:induction false} UsersCountUses(s: State, f: nat, n: nat, uses: set<(nat, Use)>)
    requires SpacesOk(s)
    requires forall i: nat, u: Use :: (i, u) in uses <==>
             i < n && Live(s, i) && Refers(s.mem, s.procs[i].pagetable, u, f)
    ensures |uses| == Users(s, f, n)
  {
    if n == 0 {
      assert forall i: nat, u: Use :: (i, u) !in uses;
      assert forall x :: x in uses ==> x == (x.0, x.1);
      assert uses == {};
    } else {
      var i := n - 1;
      if LiveHolds(s, i, f) {
        var u: Use :| Refers(s.mem, s.procs[i].pagetable, u, f);
        var fewer := uses - {(i, u)};
        forall j: nat, w: Use ensures (j, w) in fewer <==>
            j < i && Live(s, j) && Refers(s.mem, s.procs[j].pagetable, w, f) {
        }
        UsersCountUses(s, f, i, fewer);
        assert (i, u) in uses;
      } else {
        forall j: nat, w: Use ensures (j, w) in uses <==>
            j < i && Live(s, j) && Refers(s.mem, s.procs[j].pagetable, w, f) {
          assert j == i && Live(s, i) && Refers(s.mem, s.procs[i].pagetable, w, f) ==>
                 Holds(s.mem, s.procs[i].pagetable, f);
        }
        UsersCountUses(s, f, i, uses);
      }
    }
  }

  /** Every way a process can hold a frame. */
  function AllUses(): set<Use> {
    (set l: nat, q: nat | l < 4 && q < 2 :: TableUse(l, q)) + (set v: nat | v < VIRTUAL_END :: PageUse(v))
  }

  /** The pairs of a live process and a table page or user page of it that is frame `f`. */
  ghost function UsesOf(s: State, f: nat): set<(nat, Use)>
    requires Sized(s)
  {
    set i: nat, u: Use | i < NPROC && u in AllUses() && Live(s, i)
        && Refers(s.mem, s.procs[i].pagetable, u, f) :: (i, u)
  }

  lemma RefersInAllUses(mem: seq<Frame>, root: nat, u: Use, f: nat)
    requires Space(mem, root) && Refers(mem, root, u, f)
    ensures u in AllUses()
  {
  }

  /** No use is missing, and their number is the number of users. */
  lemma UsesOfCount(s: State, f: nat)
    requires Sized(s) && SpacesOk(s)
    ensures forall i: nat, u: Use :: (i, u) in UsesOf(s, f) <==>
              i < NPROC && Live(s, i) && Refers(s.mem, s.procs[i].pagetable, u, f)
    ensures |UsesOf(s, f)| == Users(s, f, NPROC)
  {
    hide Space, Refers, Users, AllUses;
    forall i: nat, u: Use
      ensures (i, u) in UsesOf(s, f) <==> i < NPROC && Live(s, i) && Refers(s.mem, s.procs[i].pagetable, u, f)
    {
      if i < NPROC && Live(s, i) && Refers(s.mem, s.procs[i].pagetable, u, f) {
        RefersInAllUses(s.mem, s.procs[i].pagetable, u, f);
      }
    }
    UsersCountUses(s, f, NPROC, UsesOf(s, f));
  }

  /** With exact counts, the count of a frame is the number of its uses, plus one for the viewer's page. */
  lemma CountIsUses(s: State, f: nat)
    requires Inv(s) && Exact(s) && f < NPAGES && Allocatable(f)
    ensures s.refcount[f] == |UsesOf(s, f)| + if s.viewer == Some(f) then 1 else 0
  {
    hide Separate, CountsOk, ViewerOk, KernelTableOk, Users, UsesOf, Space, Complete;
    UsesOfCount(s, f);
  }

  // ----- Consequences of the invariant

  lemma SizesOf(s: State)
    requires Inv(s)
    ensures Sized(s)
  {
  }

  /** What a live process holds is never handed out. */
  lemma LiveAllHeld(s: State, i: nat)
    requires Inv(s) && Live(s, i)
    ensures AllHeld(s.mem, s.refcount, s.procs[i].pagetable)
    ensures TablesHeld(s.mem, s.refcount, s.procs[i].pagetable)
    ensures forall f: nat :: Holds(s.mem, s.procs[i].pagetable, f) ==>
              f < NPAGES && Allocatable(f) && s.refcount[f] >= Users(s, f, NPROC) > 0
  {
    var root := s.procs[i].pagetable;
    forall f: nat | Holds(s.mem, root, f)
      ensures f < NPAGES && Allocatable(f) && s.refcount[f] >= Users(s, f, NPROC) > 0
    {
      HeldIsAllocatable(s.mem, root, f);
      assert LiveHolds(s, i, f);
      UsersPositive(s, f, NPROC, i);
    }
    TablesAreHeld(s.mem, s.refcount, root);
  }

  /** A free frame is held by no process. */
  lemma FreeIsUnheld(s: State, f: nat)
    requires Inv(s) && f < NPAGES && Free(s.refcount, f)
    ensures forall i: nat :: !LiveHolds(s, i, f)
    ensures Users(s, f, NPROC) == 0 && s.viewer != Some(f)
  {
    if Users(s, f, NPROC) > 0 {
      var i := UsersWitness(s, f, NPROC);
    }
    forall i: nat ensures !LiveHolds(s, i, f) {
      if LiveHolds(s, i, f) { UsersPositive(s, f, NPROC, i); }
    }
  }

  /** Counts fit their 8 bits, and exact counts are far from the limit. */
  lemma CountsStaySmall(s: State, f: nat)
    requires Inv(s) && f < NPAGES
    ensures s.refcount[f] <= REFCOUNT_MAX && (Exact(s) ==> s.refcount[f] <= NPROC - 1)
  {
    UsersBound(s, f, NPROC);
  }

  /** Once every process has exited, only the viewer's page and lost pages are in use; with exact
      counts only the viewer's page is. */
  lemma AllExited(s: State, f: nat)
    requires Inv(s) && Exact(s) && (forall i: nat :: !Live(s, i)) && f < NPAGES && Allocatable(f)
    ensures s.refcount[f] == if s.viewer == Some(f) then 1 else 0
  {
    if Users(s, f, NPROC) > 0 {
      var i := UsersWitness(s, f, NPROC);
    }
  }
}
