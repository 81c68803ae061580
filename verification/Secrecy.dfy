/** Confidentiality: what a process can read does not depend on what other processes' pages contain. */
module Secrecy {
  import opened Paging
  import opened Physical
  import opened Walks
  import opened Growth
  import opened Spaces
  import opened KernelSpec
  import opened Forking
  import opened Steps
  import opened Runs
  import opened Isolation

  /** The contents of frame `f` are not process `q`'s to know: it is no page of `q`, no table page and not the
      kernel's. Free frames and the viewer's page are secret too. */
  ghost predicate Secret(s: State, q: nat, f: nat) {
    && Allocatable(f) && !LiveHolds(s, q, f)
    && forall i: nat, l: nat, p: nat :: Live(s, i) ==> !IsTable(s.mem, s.procs[i].pagetable, l, p, f)
  }

  /** Two states that differ at most in what secret frames contain. */
  ghost predicate LooksSame(s: State, t: State, q: nat) {
    && Sized(s) && |t.mem| == NPAGES && t == s.(mem := t.mem)
    && forall f: nat :: f < NPAGES && !Secret(s, q, f) ==> t.mem[f] == s.mem[f]
  }

  /** What is secret: every free frame, the viewer's page, and every page, the console apart, that another process
      can write; nothing that the process itself reaches. */
  lemma SecretsAre(s: State, q: nat, i: nat, va: nat, f: nat)
    requires Inv(s)
    ensures f < NPAGES && Free(s.refcount, f) ==> Secret(s, q, f)
    ensures s.viewer == Some(f) ==> Secret(s, q, f)
    ensures i != q && UserWritable(s, i, va) && UserFrame(s, i, va) == Some(f) && f != CONSOLE_PFN ==> Secret(s, q, f)
    ensures UserFrame(s, q, va) == Some(f) ==> !Secret(s, q, f)
  {
    hide SpacesOk, Separate, CountsOk, ViewerOk, KernelTableOk, Leaf, Refers, Holds, Translate, Users, Vpn;
    if f < NPAGES && Free(s.refcount, f) {
      FreeIsUnheld(s, f);
      UnheldIsSecret(s, q, f);
    }
    if s.viewer == Some(f) {
      ViewerUnheld(s, f);
      UnheldIsSecret(s, q, f);
    }
    if i != q && UserWritable(s, i, va) && UserFrame(s, i, va) == Some(f) && f != CONSOLE_PFN {
      OthersAreSecret(s, q, i, va, f);
    }
    if UserFrame(s, q, va) == Some(f) {
      UserFrameIs(s, q, va);
      if f != CONSOLE_PFN { RefersHolds(s.mem, s.procs[q].pagetable, PageUse(Vpn(va)), f); }
    }
  }

  lemma UnheldIsSecret(s: State, q: nat, f: nat)
    requires Inv(s) && Allocatable(f) && forall i: nat :: !LiveHolds(s, i, f)
    ensures Secret(s, q, f)
  {
    hide SpacesOk, Separate, CountsOk, ViewerOk, KernelTableOk, Leaf;
    forall i: nat, l: nat, p: nat | Live(s, i) ensures !IsTable(s.mem, s.procs[i].pagetable, l, p, f) {
      assert !LiveHolds(s, i, f);
      TableHeld(s.mem, s.procs[i].pagetable, l, p, f);
    }
  }

  lemma TableHeld(mem: seq<Frame>, root: nat, l: nat, p: nat, f: nat)
    ensures IsTable(mem, root, l, p, f) ==> Holds(mem, root, f)
  {
    assert Refers(mem, root, TableUse(l, p), f) <==> IsTable(mem, root, l, p, f);
  }

  lemma ViewerUnheld(s: State, f: nat)
    requires Inv(s) && s.viewer == Some(f)
    ensures Allocatable(f) && forall i: nat :: !LiveHolds(s, i, f)
  {
    hide SpacesOk, Separate, KernelTableOk, Leaf, Refers, Holds;
    forall i: nat ensures !LiveHolds(s, i, f) {
      if LiveHolds(s, i, f) { UsersPositive(s, f, NPROC, i); }
    }
  }

  lemma OthersAreSecret(s: State, q: nat, i: nat, va: nat, f: nat)
    requires Inv(s) && i != q && UserWritable(s, i, va) && UserFrame(s, i, va) == Some(f) && f != CONSOLE_PFN
    ensures Secret(s, q, f)
  {
    hide SpacesOk, Separate, CountsOk, ViewerOk, KernelTableOk, Leaf, Refers, Translate, Vpn;
    UserFrameIs(s, i, va);
    var root := s.procs[i].pagetable;
    forall j: nat, l: nat, p: nat | Live(s, j) ensures !IsTable(s.mem, s.procs[j].pagetable, l, p, f) {
      PageNoTable(s, i, Vpn(va), f, j, l, p);
    }
    if LiveHolds(s, q, f) {
      var u: Use :| Refers(s.mem, s.procs[q].pagetable, u, f);
      SeparateAt(s, i, q, PageUse(Vpn(va)), u, f);
    }
  }

  // ----- Such states have the same page tables

  lemma SameTables(s: State, t: State, q: nat)
    requires Inv(s) && LooksSame(s, t, q)
    ensures TablesUntouched(s, t.mem) && Inv(t)
    ensures forall i: nat :: Live(s, i) ==> SameView(s.mem, t.mem, s.procs[i].pagetable)
  {
    SecretsAreNoTables(s, t, q);
    hide SpacesOk, Separate, CountsOk, ViewerOk, KernelTableOk, TablesUntouched, Leaf, Refers, Holds, Space, Secret;
    LiveViewsKept(s, t.mem);
    MemoryStepKeepsInv(s, t);
  }

  lemma SecretsAreNoTables(s: State, t: State, q: nat)
    requires Sized(s) && LooksSame(s, t, q)
    ensures TablesUntouched(s, t.mem)
  {
    hide LiveHolds;
    forall i: nat, l: nat, p: nat, f: nat | Live(s, i) && IsTable(s.mem, s.procs[i].pagetable, l, p, f)
      ensures t.mem[f] == s.mem[f]
    {
      assert !Secret(s, q, f);
    }
  }

  /** So process `q` reaches the same frames with the same permissions and reads the same. */
  lemma LooksSameReads(s: State, t: State, q: nat)
    requires Inv(s) && LooksSame(s, t, q) && Live(s, q)
    ensures Untouched(s, t, q)
  {
    hide SpacesOk, Separate, CountsOk, ViewerOk, KernelTableOk, Leaf, Refers, TablesUntouched, Untouched;
    SameTables(s, t, q);
    forall v: nat, f: nat | Refers(s.mem, s.procs[q].pagetable, PageUse(v), f) && f < NPAGES
      ensures t.mem[f] == s.mem[f]
    {
      RefersHolds(s.mem, s.procs[q].pagetable, PageUse(v), f);
      assert LiveHolds(s, q, f);
      assert !Secret(s, q, f);
    }
    UntouchedBy(s, t, q);
  }

  lemma SameTable(s: State, t: State, q: nat, i: nat, l: nat, p: nat)
    requires Sized(s) && LooksSame(s, t, q) && Live(s, i) && l <= 3
    ensures Table(t.mem, s.procs[i].pagetable, l, p) == Table(s.mem, s.procs[i].pagetable, l, p)
  {
    SecretsAreNoTables(s, t, q);
    hide Table, Secret;
    TreeFrame(s.mem, t.mem, s.procs[i].pagetable);
  }

  // ----- Secrets stay secret

  /** Frame `x` has no use in `s'` that it did not have in `s`. */
  ghost predicate NoNewUse(s: State, s': State, x: nat) {
    forall i: nat, u: Use :: Live(s', i) && Refers(s'.mem, s'.procs[i].pagetable, u, x) ==>
      Live(s, i) && Refers(s.mem, s.procs[i].pagetable, u, x)
  }

  lemma NoNewTable(s: State, s': State, x: nat)
    requires NoNewUse(s, s', x)
    ensures forall i: nat, l: nat, p: nat :: Live(s', i) && IsTable(s'.mem, s'.procs[i].pagetable, l, p, x) ==>
              Live(s, i) && IsTable(s.mem, s.procs[i].pagetable, l, p, x)
  {
    forall i: nat, l: nat, p: nat | Live(s', i) && IsTable(s'.mem, s'.procs[i].pagetable, l, p, x)
      ensures Live(s, i) && IsTable(s.mem, s.procs[i].pagetable, l, p, x)
    {
      assert Refers(s'.mem, s'.procs[i].pagetable, TableUse(l, p), x);
    }
  }

  lemma NoNewHolder(s: State, s': State, q: nat, x: nat)
    requires NoNewUse(s, s', x)
    ensures LiveHolds(s', q, x) ==> LiveHolds(s, q, x)
  {
    hide Refers;
    if LiveHolds(s', q, x) {
      var u: Use :| Refers(s'.mem, s'.procs[q].pagetable, u, x);
      assert Refers(s.mem, s.procs[q].pagetable, u, x);
    }
  }

  lemma SecretStays(s: State, s': State, q: nat, x: nat)
    requires Secret(s, q, x) && NoNewUse(s, s', x)
    ensures Secret(s', q, x)
  {
    hide IsTable, LiveHolds, NoNewUse;
    NoNewTable(s, s', x);
    NoNewHolder(s, s', q, x);
  }

  /** A step that changes memory alike, apart from frames that were secret and gain no use. */
  lemma StepLooksSame(s: State, s': State, t: State, t': State, q: nat)
    requires LooksSame(s, t, q) && Sized(s') && |t'.mem| == NPAGES && t' == s'.(mem := t'.mem)
    requires forall x: nat :: x < NPAGES ==>
               t'.mem[x] == s'.mem[x] || (s'.mem[x] == s.mem[x] && t'.mem[x] == t.mem[x] && NoNewUse(s, s', x))
    ensures LooksSame(s', t', q)
  {
    hide Secret, NoNewUse;
    forall x: nat | x < NPAGES && !Secret(s', q, x) ensures t'.mem[x] == s'.mem[x] {
      if Secret(s, q, x) && NoNewUse(s, s', x) { SecretStays(s, s', q, x); }
    }
  }

  // ----- Event by event

  /** No page table changes and nobody appears. */
  lemma SameUses(s: State, s': State)
    requires SameSpaces(s, s')
    ensures forall x: nat :: NoNewUse(s, s', x)
  {
    hide Refers, Holds, Leaf;
  }

  lemma SameMemorySpaces(s: State, s': State)
    requires Sized(s) && Sized(s') && s'.mem == s.mem
    requires forall i: nat :: Live(s', i) ==> Live(s, i) && s'.procs[i].pagetable == s.procs[i].pagetable
    ensures SameSpaces(s, s')
  {
    ViewItself(s);
    hide Refers, Holds, Leaf, SameView;
  }

  /** Exit, a scheduling decision and a fault change no memory. */
  lemma QuietLooksSame(s: State, s': State, t: State, q: nat)
    requires LooksSame(s, t, q) && Sized(s') && s'.mem == s.mem
    requires forall i: nat :: Live(s', i) ==> Live(s, i) && s'.procs[i].pagetable == s.procs[i].pagetable
    ensures LooksSame(s', s'.(mem := t.mem), q)
  {
    hide Secret, SameSpaces, NoNewUse;
    SameMemorySpaces(s, s');
    SameUses(s, s');
    StepLooksSame(s, s', t, s'.(mem := t.mem), q);
  }

  lemma ExitLooksSame(s: State, s': State, t: State, q: nat)
    requires Inv(s) && Running(s) && ExitSpec(s, s') && LooksSame(s, t, q)
    ensures var t' := s'.(mem := t.mem); ExitSpec(t, t') && LooksSame(s', t', q)
  {
    hide SpacesOk, Separate, CountsOk, ViewerOk, KernelTableOk, Secret, TablesUntouched, Leaf, Refers, Holds;
    SameTables(s, t, q);
    assert SameView(s.mem, t.mem, Root(s));
    QuietLooksSame(s, s', t, q);
  }

  lemma ScheduleLooksSame(s: State, s': State, t: State, q: nat)
    requires Sized(s) && ScheduleSpec(s, s') && LooksSame(s, t, q)
    ensures var t' := s'.(mem := t.mem); ScheduleSpec(t, t') && LooksSame(s', t', q)
  {
    var d: nat :| 1 <= d <= NPROC && Picks(s, d) && s' == s.(current := (s.current + d) % NPROC);
    hide Secret;
    assert forall k: nat :: StateAfter(t, k) == StateAfter(s, k);
    assert Picks(t, d);
    QuietLooksSame(s, s', t, q);
  }

  lemma FaultLooksSame(s: State, s': State, t: State, q: nat)
    requires Running(s) && FaultSpec(s, s') && LooksSame(s, t, q)
    ensures var t' := s'.(mem := t.mem); FaultSpec(t, t') && LooksSame(s', t', q)
  {
    hide Secret;
    QuietLooksSame(s, s', t, q);
  }

  lemma SameTranslate(s: State, t: State, q: nat, va: nat)
    requires Inv(s) && LooksSame(s, t, q) && Live(s, s.current)
    ensures Root(s) < NPAGES && Translate(t.mem, Root(s), va) == Translate(s.mem, Root(s), va)
  {
    hide SpacesOk, Separate, CountsOk, ViewerOk, KernelTableOk, Secret, TablesUntouched, Leaf, Refers, Translate, Vpn;
    SameTables(s, t, q);
    InvSpace(s, s.current);
    InvSpace(t, s.current);
    SpaceTranslate(s.mem, Root(s), va);
    SpaceTranslate(t.mem, Root(s), va);
    assert SameView(s.mem, t.mem, Root(s));
  }

  lemma StoreLooksSame(s: State, va: nat, w: Word, s': State, t: State, q: nat) returns (t': State)
    requires Inv(s) && Running(s) && StoreSpec(s, va, w, s') && LooksSame(s, t, q)
    ensures StoreSpec(t, va, w, t') && LooksSame(s', t', q)
  {
    hide SpacesOk, Separate, CountsOk, ViewerOk, KernelTableOk, Secret, TablesUntouched, Leaf, Refers, Translate, Vpn,
         SameView, NoNewUse;
    SameTranslate(s, t, q, va);
    var pa := Translate(s.mem, Root(s), va).value.pa;
    var f, i := pa / PAGESIZE, pa % PAGESIZE / 8;
    t' := t.(mem := t.mem[f := t.mem[f][i := w]]);
    assert SameSpaces(s, s') by {
      forall j: nat | Live(s', j) ensures SameView(s.mem, s'.mem, s.procs[j].pagetable) {
        StoreViews(s, va, w, s', j);
      }
    }
    SameUses(s, s');
    StoredAlike(s, s', t, t', q, f, i, w);
  }

  /** The frame stored to is changed alike, whether it was alike or not. */
  lemma StoredAlike(s: State, s': State, t: State, t': State, q: nat, f: nat, i: nat, w: Word)
    requires LooksSame(s, t, q) && f < NPAGES && i < 512 && forall x: nat :: NoNewUse(s, s', x)
    requires s' == s.(mem := s.mem[f := s.mem[f][i := w]]) && t' == t.(mem := t.mem[f := t.mem[f][i := w]])
    ensures LooksSame(s', t', q)
  {
    hide Secret, NoNewUse;
    forall x: nat | x < NPAGES && !Secret(s', q, x) ensures t'.mem[x] == s'.mem[x] {
      if Secret(s, q, x) { SecretStays(s, s', q, x); }
    }
  }

  lemma MemshowLooksSame(s: State, contents: Frame, s': State, t: State, q: nat) returns (t': State)
    requires Inv(s) && MemshowSpec(s, contents, s') && LooksSame(s, t, q)
    ensures MemshowSpec(t, contents, t') && LooksSame(s', t', q)
  {
    hide SpacesOk, Separate, CountsOk, ViewerOk, KernelTableOk, Secret, Leaf, Refers, SameView, NoNewUse;
    MemshowKeepsInv(s, contents, s');
    var f: nat :| f < NPAGES && s'.viewer == Some(f) && s'.mem == s.mem[f := contents]
                  && (s.viewer == Some(f) || (s.viewer == None && Free(s.refcount, f)));
    t' := s'.(mem := t.mem[f := contents]);
    assert SameSpaces(s, s');
    SameUses(s, s');
    StepLooksSame(s, s', t, t', q);
  }

  lemma PageAllocLooksSame(s: State, v: nat, f: nat, s': State, t: State, q: nat) returns (t': State)
    requires Inv(s) && Running(s) && PROC_START <= v < VIRTUAL_END && f < NPAGES && PageAdded(s, v, f, s')
    requires LooksSame(s, t, q)
    ensures PageAdded(t, v, f, t') && LooksSame(s', t', q)
  {
    hide SpacesOk, Separate, CountsOk, ViewerOk, KernelTableOk, Secret, Leaf, Refers, NoNewUse, Table;
    SameTable(s, t, q, s.current, 0, v / 512);
    var b := Table(s.mem, Root(s), 0, v / 512).value;
    BottomTableSame(s, t, q, v, b);
    t' := s'.(mem := t.mem[f := Filled(ZERO)][b := t.mem[b][v % 512 := Word(f, PWU, 0)]]);
    forall x: nat | x < NPAGES
      ensures t'.mem[x] == s'.mem[x] || (s'.mem[x] == s.mem[x] && t'.mem[x] == t.mem[x] && NoNewUse(s, s', x))
    {
      if x != f && x != b { PageAddedNoNewUse(s, v, f, s', x); }
    }
    StepLooksSame(s, s', t, t', q);
  }

  lemma BottomTableSame(s: State, t: State, q: nat, v: nat, b: nat)
    requires Inv(s) && Running(s) && LooksSame(s, t, q) && IsTable(s.mem, Root(s), 0, v / 512, b)
    ensures b < NPAGES && t.mem[b] == s.mem[b]
  {
    hide LiveHolds, Table, SpacesOk, Separate, CountsOk, ViewerOk, KernelTableOk;
    SecretsAreNoTables(s, t, q);
  }

  lemma PageAddedNoNewUse(s: State, v: nat, f: nat, s': State, x: nat)
    requires Inv(s) && Live(s, s.current) && PROC_START <= v < VIRTUAL_END && f < NPAGES && PageAdded(s, v, f, s')
    requires x != f
    ensures NoNewUse(s, s', x)
  {
    hide SpacesOk, Separate, CountsOk, ViewerOk, KernelTableOk, Leaf, Refers, Space, Complete, Holds;
    PageAddedViews(s, v, f, s');
    forall i: nat, u: Use | Live(s', i) && Refers(s'.mem, s'.procs[i].pagetable, u, x)
      ensures Live(s, i) && Refers(s.mem, s.procs[i].pagetable, u, x)
    {
      if i == s.current {
        assert PageView(s.mem, s'.mem, Root(s), v, f);
      } else {
        assert SameView(s.mem, s'.mem, s.procs[i].pagetable);
      }
    }
  }

  // ----- Fork

  lemma SameParent(s: State, t: State, q: nat)
    requires Inv(s) && Live(s, s.current) && LooksSame(s, t, q)
    ensures forall v: nat :: Leaf(t.mem, Root(s), v) == Leaf(s.mem, Root(s), v)
    ensures PrivatePages(t.mem, Root(s), VIRTUAL_END) == PrivatePages(s.mem, Root(s), VIRTUAL_END)
    ensures Wraps(t) <==> Wraps(s)
  {
    hide SpacesOk, Separate, CountsOk, ViewerOk, KernelTableOk, Leaf, Refers, Holds, Secret, TablesUntouched, Private,
         SharedEntry, FreeCount;
    SameTables(s, t, q);
    assert SameView(s.mem, t.mem, Root(s));
    forall v: nat ensures PrivatePages(t.mem, Root(s), v) == PrivatePages(s.mem, Root(s), v) {
      PrivatePagesSame(s.mem, t.mem, Root(s), v);
    }
    assert forall v: nat :: FullPage(t.mem, t.refcount, Root(s), v) <==> FullPage(s.mem, s.refcount, Root(s), v);
  }

  /** Free frames as `s'` has them, all others as `t` has them. */
  function Mixed(s: State, s': State, t: State): (m: seq<Frame>)
    requires Sized(s) && Sized(s') && |t.mem| == NPAGES
    ensures |m| == NPAGES
  {
    seq(NPAGES, (f: nat) requires f < NPAGES => if Free(s.refcount, f) then s'.mem[f] else t.mem[f])
  }

  lemma ForkUndoneLooksSame(s: State, s': State, t: State, q: nat)
    requires Inv(s) && Running(s) && ForkUndone(s, s') && Sized(s') && LooksSame(s, t, q)
    ensures var t' := s'.(mem := Mixed(s, s', t)); ForkUndone(t, t') && LooksSame(s', t', q)
  {
    hide SpacesOk, Separate, CountsOk, ViewerOk, KernelTableOk, Leaf, Refers, Holds, Secret, TablesUntouched,
         NoNewUse, SameView;
    InUseKeepsTables(s, s'.mem);
    LiveViewsKept(s, s'.mem);
    assert SameSpaces(s, s');
    SameUses(s, s');
    StepLooksSame(s, s', t, s'.(mem := Mixed(s, s', t)), q);
  }

  /** Page `w` of the child is a copy of the parent's, in frame `f`. */
  ghost predicate CopyAt(s: State, mem: seq<Frame>, child: nat, f: nat, w: nat)
    requires Sized(s)
  {
    w < VIRTUAL_END && Private(w, Leaf(s.mem, Root(s), w)) && Leaf(mem, child, w).pfn == f
  }

  /** The frame that `f` is a copy of, as `t` has it; other free frames as `s'` has them. */
  ghost function CopiedFrame(s: State, s': State, t: State, child: nat, f: nat): Frame
    requires Sized(s) && Sized(s') && |t.mem| == NPAGES && f < NPAGES
  {
    if !Free(s.refcount, f) then t.mem[f]
    else if w: nat :| CopyAt(s, s'.mem, child, f, w) then Source(t.mem, Leaf(s.mem, Root(s), w).pfn)
    else s'.mem[f]
  }

  ghost function CopiedMemory(s: State, s': State, t: State, child: nat): (m: seq<Frame>)
    requires Sized(s) && Sized(s') && |t.mem| == NPAGES
    ensures |m| == NPAGES && forall f: nat :: f < NPAGES ==> m[f] == CopiedFrame(s, s', t, child, f)
  {
    seq(NPAGES, (f: nat) requires f < NPAGES => CopiedFrame(s, s', t, child, f))
  }

  /** A copy is a user page of the child in a frame that was free, and of one page only. */
  lemma CopyIs(s: State, mem: seq<Frame>, r: seq<nat>, child: nat, f: nat, w: nat)
    requires Inv(s) && Live(s, s.current) && Copying(s.mem, s.refcount, Root(s), mem, r, child, VIRTUAL_END)
    requires CopyAt(s, mem, child, f, w)
    ensures f < NPAGES && Free(s.refcount, f) && Refers(mem, child, PageUse(w), f) && HeldOnce(mem, child)
    ensures Leaf(s.mem, Root(s), w).pfn < NPAGES
  {
    hide SpacesOk, Separate, CountsOk, ViewerOk, KernelTableOk;
    LiveAllHeld(s, s.current);
    InvSpace(s, s.current);
    ParentPage(s.mem, s.refcount, Root(s), w);
    assert CopyOf(s.mem, s.refcount, mem, w, Leaf(s.mem, Root(s), w), Leaf(mem, child, w));
  }

  lemma CopyOnce(s: State, mem: seq<Frame>, r: seq<nat>, child: nat, f: nat, w: nat, w': nat)
    requires Inv(s) && Live(s, s.current) && Copying(s.mem, s.refcount, Root(s), mem, r, child, VIRTUAL_END)
    requires CopyAt(s, mem, child, f, w) && CopyAt(s, mem, child, f, w')
    ensures w == w'
  {
    hide SpacesOk, Separate, CountsOk, ViewerOk, KernelTableOk, Copying, CopyAt, HeldOnce, Refers;
    CopyIs(s, mem, r, child, f, w);
    CopyIs(s, mem, r, child, f, w');
    HeldOnceAt(mem, child, PageUse(w), PageUse(w'), f);
  }

  lemma CopyIsNoTable(s: State, mem: seq<Frame>, r: seq<nat>, child: nat, f: nat, w: nat, l: nat, p: nat)
    requires Inv(s) && Live(s, s.current) && Copying(s.mem, s.refcount, Root(s), mem, r, child, VIRTUAL_END)
    ensures !(CopyAt(s, mem, child, f, w) && IsTable(mem, child, l, p, f))
  {
    if CopyAt(s, mem, child, f, w) && IsTable(mem, child, l, p, f) {
      CopyIs(s, mem, r, child, f, w);
      assert Refers(mem, child, TableUse(l, p), f);
    }
  }

  lemma CopiedFrameIs(s: State, s': State, t: State, child: nat, f: nat, w: nat)
    requires Inv(s) && Live(s, s.current) && Sized(s') && |t.mem| == NPAGES && f < NPAGES
    requires Copying(s.mem, s.refcount, Root(s), s'.mem, s'.refcount, child, VIRTUAL_END)
    requires CopyAt(s, s'.mem, child, f, w)
    ensures CopiedFrame(s, s', t, child, f) == Source(t.mem, Leaf(s.mem, Root(s), w).pfn)
  {
    hide SpacesOk, Separate, CountsOk, ViewerOk, KernelTableOk, Copying, CopyAt, Leaf;
    CopyIs(s, s'.mem, s'.refcount, child, f, w);
    forall w': nat | CopyAt(s, s'.mem, child, f, w') ensures w' == w {
      CopyOnce(s, s'.mem, s'.refcount, child, f, w, w');
    }
  }

  /** The child's table pages are alike. */
  lemma ChildTablesSame(s: State, s': State, t: State, child: nat)
    requires Inv(s) && Live(s, s.current) && Sized(s') && |t.mem| == NPAGES
    requires Copying(s.mem, s.refcount, Root(s), s'.mem, s'.refcount, child, VIRTUAL_END)
    ensures var m := CopiedMemory(s, s', t, child);
            && Space(m, child) && (forall v: nat :: Leaf(m, child, v) == Leaf(s'.mem, child, v))
            && (forall f: nat :: Holds(m, child, f) <==> Holds(s'.mem, child, f))
            && (forall l: nat, p: nat, f: nat :: IsTable(m, child, l, p, f) <==> IsTable(s'.mem, child, l, p, f))
            && Tables(m, child) == Tables(s'.mem, child)
  {
    hide SpacesOk, Separate, CountsOk, ViewerOk, KernelTableOk, CopyAt, Leaf, Table, Holds, Refers, Space, FreeCount,
         PrivatePages, CopyOf;
    var m := CopiedMemory(s, s', t, child);
    forall l: nat, p: nat, f: nat | IsTable(s'.mem, child, l, p, f) ensures m[f] == s'.mem[f] {
      forall w: nat ensures !CopyAt(s, s'.mem, child, f, w) {
        CopyIsNoTable(s, s'.mem, s'.refcount, child, f, w, l, p);
      }
    }
    TreeFrame(s'.mem, m, child);
    SpaceFrame(s'.mem, m, child);
    HoldsSame(s'.mem, m, child);
  }

  /** The other run can fork in the same frames. */
  lemma CopyingAlike(s: State, s': State, t: State, q: nat, child: nat)
    requires Inv(s) && Live(s, s.current) && Sized(s') && LooksSame(s, t, q)
    requires Copying(s.mem, s.refcount, Root(s), s'.mem, s'.refcount, child, VIRTUAL_END)
    ensures Copying(t.mem, t.refcount, Root(s), CopiedMemory(s, s', t, child), s'.refcount, child, VIRTUAL_END)
  {
    hide SpacesOk, Separate, CountsOk, ViewerOk, KernelTableOk, CopyAt, Leaf, Table, Holds, Space, FreeCount,
         PrivatePages, Secret, Tables, Wraps, Private;
    var m := CopiedMemory(s, s', t, child);
    SameParent(s, t, q);
    ChildTablesSame(s, s', t, child);
    forall w: nat | w < VIRTUAL_END
      ensures CopyOf(t.mem, t.refcount, m, w, Leaf(t.mem, Root(s), w), Leaf(m, child, w))
    {
      PageCopiedAlike(s, s', t, child, w);
    }
  }

  lemma PageCopiedAlike(s: State, s': State, t: State, child: nat, w: nat)
    requires Inv(s) && Live(s, s.current) && Sized(s') && |t.mem| == NPAGES && w < VIRTUAL_END
    requires Copying(s.mem, s.refcount, Root(s), s'.mem, s'.refcount, child, VIRTUAL_END)
    ensures CopyOf(t.mem, s.refcount, CopiedMemory(s, s', t, child), w, Leaf(s.mem, Root(s), w), Leaf(s'.mem, child, w))
  {
    hide SpacesOk, Separate, CountsOk, ViewerOk, KernelTableOk, Leaf, Holds, Space, FreeCount, PrivatePages, Tables,
         CopiedFrame, Private;
    var e, e' := Leaf(s.mem, Root(s), w), Leaf(s'.mem, child, w);
    assert CopyOf(s.mem, s.refcount, s'.mem, w, e, e');
    if Private(w, e) {
      assert CopyAt(s, s'.mem, child, e'.pfn, w);
      CopiedFrameIs(s, s', t, child, e'.pfn, w);
    }
  }

  lemma ForkDoneLooksSame(s: State, s': State, t: State, q: nat, child: nat)
    requires Inv(s) && Running(s) && ForkDone(s, s', child) && Sized(s') && Inv(s') && LooksSame(s, t, q) && Live(s, q)
    ensures child < NPROC
    ensures var t' := s'.(mem := CopiedMemory(s, s', t, s'.procs[child].pagetable));
            ForkDone(t, t', child) && LooksSame(s', t', q)
  {
    hide SpacesOk, Separate, CountsOk, ViewerOk, KernelTableOk, Leaf, Holds, Space, Secret, Copying, CopiedFrame;
    var root := s'.procs[child].pagetable;
    var t' := s'.(mem := CopiedMemory(s, s', t, root));
    CopyingAlike(s, s', t, q, root);
    forall x: nat | x < NPAGES && !Secret(s', q, x) ensures t'.mem[x] == s'.mem[x] {
      CopiedOrSecret(s, s', t, q, child, x);
    }
  }

  /** After a fork a frame that is not secret from `q` is alike. */
  lemma CopiedOrSecret(s: State, s': State, t: State, q: nat, child: nat, x: nat)
    requires Inv(s) && Running(s) && ForkDone(s, s', child) && Sized(s') && Inv(s') && LooksSame(s, t, q) && Live(s, q)
    requires x < NPAGES
    ensures Secret(s', q, x) || CopiedFrame(s, s', t, s'.procs[child].pagetable, x) == s'.mem[x]
  {
    hide SpacesOk, Separate, CountsOk, ViewerOk, KernelTableOk, Leaf, Holds, Space, Secret, CopyAt, IsTable;
    var root := s'.procs[child].pagetable;
    assert Copying(s.mem, s.refcount, Root(s), s'.mem, s'.refcount, root, VIRTUAL_END);
    if !Free(s.refcount, x) {
      if Secret(s, q, x) { InUseSecretStays(s, s', q, child, x); }
    } else if w: nat :| CopyAt(s, s'.mem, root, x, w) {
      CopyIsSecret(s, s', q, child, x, w);
    }
  }

  /** Frames in use that were secret stay so: the child's table pages are new. */
  lemma InUseSecretStays(s: State, s': State, q: nat, child: nat, x: nat)
    requires Inv(s) && Running(s) && ForkDone(s, s', child) && Sized(s') && Live(s, q)
    requires x < NPAGES && !Free(s.refcount, x) && Secret(s, q, x)
    ensures Secret(s', q, x)
  {
    hide SpacesOk, Separate, CountsOk, ViewerOk, KernelTableOk, Leaf, Space, Table, Refers, CopyOf;
    assert Copying(s.mem, s.refcount, Root(s), s'.mem, s'.refcount, s'.procs[child].pagetable, VIRTUAL_END);
    InUseKeepsTables(s, s'.mem);
    forall i: nat, l: nat, p: nat | Live(s', i) ensures !IsTable(s'.mem, s'.procs[i].pagetable, l, p, x) {
      if i != child { TreeFrame(s.mem, s'.mem, s.procs[i].pagetable); }
    }
    LiveViewsKept(s, s'.mem);
    assert SameView(s.mem, s'.mem, s.procs[q].pagetable);
  }

  /** The child's copies are secret from everybody else. */
  lemma CopyIsSecret(s: State, s': State, q: nat, child: nat, x: nat, w: nat)
    requires Inv(s) && Running(s) && ForkDone(s, s', child) && Sized(s') && Inv(s') && Live(s, q)
    requires CopyAt(s, s'.mem, s'.procs[child].pagetable, x, w)
    ensures Secret(s', q, x)
  {
    hide SpacesOk, Separate, CountsOk, ViewerOk, KernelTableOk, Leaf, Space, Refers, IsTable, CopyAt, Holds;
    var root := s'.procs[child].pagetable;
    assert Copying(s.mem, s.refcount, Root(s), s'.mem, s'.refcount, root, VIRTUAL_END);
    CopyIs(s, s'.mem, s'.refcount, root, x, w);
    FreeIsUnheld(s, x);
    InUseKeepsTables(s, s'.mem);
    LiveViewsKept(s, s'.mem);
    assert SameView(s.mem, s'.mem, s.procs[q].pagetable);
    assert !LiveHolds(s, q, x);
    forall i: nat, l: nat, p: nat | Live(s', i) ensures !IsTable(s'.mem, s'.procs[i].pagetable, l, p, x) {
      PageNoTable(s', child, w, x, i, l, p);
    }
  }

  lemma ForkLooksSame(s: State, s': State, t: State, q: nat, r: int) returns (t': State)
    requires Inv(s) && Running(s) && ForkSpec(s, s', r) && Sized(s') && Inv(s') && LooksSame(s, t, q) && Live(s, q)
    ensures ForkSpec(t, t', r) && LooksSame(s', t', q) && (Wraps(t) <==> Wraps(s))
  {
    hide SpacesOk, Separate, CountsOk, ViewerOk, KernelTableOk, Leaf, ForkDone, ForkUndone, Secret, PrivatePages,
         Wraps, FreeCount;
    SameParent(s, t, q);
    if r > 0 {
      ForkDoneLooksSame(s, s', t, q, r);
      t' := s'.(mem := CopiedMemory(s, s', t, s'.procs[r].pagetable));
    } else {
      ForkUndoneLooksSame(s, s', t, q);
      t' := s'.(mem := Mixed(s, s', t));
    }
  }

  // ----- Every step and every run

  lemma AllocLooksSame(s: State, addr: nat, s': State, t: State, q: nat, r: int) returns (t': State)
    requires Inv(s) && Running(s) && PageAllocSpec(s, addr, s', r) && LooksSame(s, t, q)
    ensures PageAllocSpec(t, addr, t', r) && LooksSame(s', t', q)
  {
    hide SpacesOk, Separate, CountsOk, ViewerOk, KernelTableOk, Leaf, PageAdded, Secret, FreeCount;
    if r == -1 {
      t' := t;
    } else {
      var f: nat :| f < NPAGES && PageAdded(s, addr / PAGESIZE, f, s');
      t' := PageAllocLooksSame(s, addr / PAGESIZE, f, s', t, q);
    }
  }

  /** One step, whoever takes it, is possible from both states with the same event and leaves states that look the
      same to `q`. */
  lemma StepKeepsSecrets(s: State, e: Event, s': State, t: State, q: nat) returns (t': State)
    requires Inv(s) && Next(s, e, s') && LooksSame(s, t, q) && Live(s, q)
    ensures Next(t, e, t') && LooksSame(s', t', q)
  {
    hide SpacesOk, Separate, CountsOk, ViewerOk, KernelTableOk, Leaf, Secret, PageAllocSpec, ForkSpec, ExitSpec,
         ScheduleSpec, StoreSpec, MemshowSpec, FaultSpec, Wraps;
    NextKeepsInv(s, e, s');
    match e
    case PageAlloc(addr) =>
      var r: int :| PageAllocSpec(s, addr, s', r);
      t' := AllocLooksSame(s, addr, s', t, q, r);
    case Fork =>
      var r: int :| ForkSpec(s, s', r);
      t' := ForkLooksSame(s, s', t, q, r);
    case Exit =>
      ExitLooksSame(s, s', t, q);
      t' := s'.(mem := t.mem);
    case Schedule =>
      ScheduleLooksSame(s, s', t, q);
      t' := s'.(mem := t.mem);
    case Store(va, w) =>
      t' := StoreLooksSame(s, va, w, s', t, q);
    case Fault =>
      FaultLooksSame(s, s', t, q);
      t' := s'.(mem := t.mem);
    case Memshow(contents) =>
      t' := MemshowLooksSame(s, contents, s', t, q);
  }

  /** Change the secret frames at the start of any run during which `q` lives: the same events are a run from there
      too, and at every moment `q` reaches and reads the same in both. */
  lemma {:induction false} RunKeepsSecrets(run: seq<State>, events: seq<Event>, q: nat, t: State)
    returns (other: seq<State>)
    requires IsRun(run, events) && Inv(run[0]) && LooksSame(run[0], t, q)
    requires forall k: nat :: k < |run| ==> Live(run[k], q)
    ensures IsRun(other, events) && other[0] == t
    ensures forall k: nat :: k < |run| ==> LooksSame(run[k], other[k], q) && Untouched(run[k], other[k], q)
    decreases |events|
  {
    hide Inv, Next, LooksSame, Untouched;
    if events == [] {
      other := [t];
      LooksSameReads(run[0], t, q);
    } else {
      var n := |events| - 1;
      assert IsRun(run[..n + 1], events[..n]);
      other := RunKeepsSecrets(run[..n + 1], events[..n], q, t);
      RunKeepsInv(run, events, n);
      RunKeepsInv(run, events, n + 1);
      assert Next(run[n], events[n], run[n + 1]);
      assert run[..n + 1][n] == run[n];
      var t' := StepKeepsSecrets(run[n], events[n], run[n + 1], other[n], q);
      LooksSameReads(run[n + 1], t', q);
      var longer := other + [t'];
      forall k: nat | k < |events| ensures Next(longer[k], events[k], longer[k + 1]) {
        if k < n { assert Next(other[k], events[..n][k], other[k + 1]); }
      }
      forall k: nat | k < |run| ensures LooksSame(run[k], longer[k], q) && Untouched(run[k], longer[k], q) {
        if k < n + 1 { assert run[..n + 1][k] == run[k]; }
      }
      other := longer;
    }
  }
}
