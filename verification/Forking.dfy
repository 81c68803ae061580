/** What `syscall_fork` builds, page by page. */
module Forking {
  import opened Paging
  import opened Physical
  import opened Walks
  import opened Growth
  import opened Spaces

  /** The pages fork copies: user-accessible and writable, except the console. */
  predicate Private(v: nat, e: Word) {
    e.perm.Covers(PWU) && v != CONSOLE_PFN
  }

  /** The pages fork shares and counts: user-accessible but not writable. */
  predicate SharedEntry(e: Word) {
    e.perm.Covers(PU) && !e.perm.Covers(PW)
  }

  /** How many private pages lie below page `v`. */
  function PrivatePages(mem: seq<Frame>, root: nat, v: nat): nat {
    if v == 0 then 0
    else PrivatePages(mem, root, v - 1) + if Private(v - 1, Leaf(mem, root, v - 1)) then 1 else 0
  }

  lemma {:induction false} PrivatePagesGrow(mem: seq<Frame>, root: nat, v: nat, w: nat)
    requires v <= w
    ensures PrivatePages(mem, root, v) <= PrivatePages(mem, root, w)
    decreases w - v
  {
    hide Leaf, Private;
    if v < w { PrivatePagesGrow(mem, root, v, w - 1); }
  }

  lemma {:induction false} PrivatePagesSame(m0: seq<Frame>, m1: seq<Frame>, root: nat, v: nat)
    requires forall w: nat :: Leaf(m1, root, w) == Leaf(m0, root, w)
    ensures PrivatePages(m1, root, v) == PrivatePages(m0, root, v)
  {
    hide Leaf, Private;
    if v > 0 { PrivatePagesSame(m0, m1, root, v - 1); }
  }

  /** How many of the table pages a process can have exist. */
  function Tables(mem: seq<Frame>, root: nat): (n: nat)
    ensures n <= 5
  {
    1 + (if Table(mem, root, 2, 0).Some? then 1 else 0) + (if Table(mem, root, 1, 0).Some? then 1 else 0)
      + (if Table(mem, root, 0, 0).Some? then 1 else 0) + (if Table(mem, root, 0, 1).Some? then 1 else 0)
  }

  /** The table pages a child has once page `v` is mapped. */
  function TablesTo(v: nat): nat {
    if v < 512 then 4 else 5
  }

  /** Page `v` of the parent is one that fork shares, and its 8-bit count is at the limit. */
  predicate FullPage(m0: seq<Frame>, r0: seq<nat>, parent: nat, v: nat)
    requires |r0| == NPAGES
  {
    && v < VIRTUAL_END && SharedEntry(Leaf(m0, parent, v))
    && Leaf(m0, parent, v).pfn < NPAGES && r0[Leaf(m0, parent, v).pfn] >= 255
  }

  /** The child's entry for page `v`: the parent's, except that a private page has its own frame,
      free before the fork, with the same contents. */
  predicate CopyOf(m0: seq<Frame>, r0: seq<nat>, m: seq<Frame>, v: nat, parent: Word, child: Word)
    requires |m0| == |r0| == |m| == NPAGES
  {
    if Private(v, parent) then
      && child.perm == parent.perm && child.rest == 0
      && child.pfn < NPAGES && Free(r0, child.pfn)
      && parent.pfn < NPAGES && m[child.pfn] == m0[parent.pfn]
    else child == parent
  }

  /** Fork has copied the pages below `v` of `parent` into `child`, starting from memory `m0` and
      counts `r0`. */
  ghost predicate Copying(m0: seq<Frame>, r0: seq<nat>, parent: nat, m: seq<Frame>, r: seq<nat>, child: nat, v: nat) {
    && |m0| == |r0| == |m| == |r| == NPAGES && v <= VIRTUAL_END
    && Space(m, child)
    && (forall f: nat :: f < NPAGES && !Free(r0, f) ==> m[f] == m0[f])
    && (forall f: nat :: f < NPAGES ==> r[f] == r0[f] + if Holds(m, child, f) then 1 else 0)
    && (forall l: nat, q: nat, f: nat :: IsTable(m, child, l, q, f) ==> f < NPAGES && Free(r0, f))
    && (forall w: nat :: w < v ==> CopyOf(m0, r0, m, w, Leaf(m0, parent, w), Leaf(m, child, w)))
    && (forall w: nat :: w >= v ==> Leaf(m, child, w) == ZERO)
    && FreeCount(r) + Tables(m, child) + PrivatePages(m0, parent, v) == FreeCount(r0)
    && (v <= 512 ==> Table(m, child, 0, 1) == None)
  }

  /** The root page alone. */
  lemma CopyingStarts(m0: seq<Frame>, r0: seq<nat>, parent: nat, child: nat)
    requires |m0| == |r0| == NPAGES && child < NPAGES && Free(r0, child)
    ensures Copying(m0, r0, parent, m0[child := Filled(ZERO)], r0[child := 1], child, 0)
  {
    var m := m0[child := Filled(ZERO)];
    EmptySpace(m, child);
    TakeFree(r0, child, 1);
    EmptyTable(m, child, 2, 0);
    EmptyTable(m, child, 1, 0);
    EmptyTable(m, child, 0, 0);
    EmptyTable(m, child, 0, 1);
    forall l: nat, q: nat, f: nat | IsTable(m, child, l, q, f) ensures f < NPAGES && Free(r0, f) {
      assert Refers(m, child, TableUse(l, q), f);
    }
  }

  /** `g` adds its own number of table pages. */
  lemma TablesGrow(m0: seq<Frame>, m1: seq<Frame>, root: nat, va: nat, g: map<nat, nat>)
    requires GrownTables(m0, m1, root, va, g) && va < VIRTUAL_END * PAGESIZE
    ensures Tables(m1, root) == Tables(m0, root) + |g|
  {
    LowPrefix(va, 2);
    LowPrefix(va, 1);
    LowPrefix(va, 0);
    SameTable(m0, m1, root, va, g, 2, 0);
    SameTable(m0, m1, root, va, g, 1, 0);
    SameTable(m0, m1, root, va, g, 0, 0);
    SameTable(m0, m1, root, va, g, 0, 1);
    assert forall l: nat :: l in g ==> l < 3;
    hide Table, IsTable, GrownTables, Prefix;
    LevelCount(g.Keys);
  }

  lemma LevelCount(k: set<nat>)
    requires forall l: nat :: l in k ==> l < 3
    ensures |k| == (if 0 in k then 1 else 0) + (if 1 in k then 1 else 0) + (if 2 in k then 1 else 0)
  {
    var a := k - {0};
    var b := a - {1};
    Without(k, 0);
    Without(a, 1);
    OnlyOne(b, 2);
    assert (1 in a <==> 1 in k) && (2 in b <==> 2 in k);
  }

  lemma Without(k: set<nat>, x: nat)
    ensures |k| == |k - {x}| + if x in k then 1 else 0
  {
    if x in k {
      assert k == (k - {x}) + {x};
    } else {
      assert k == k - {x};
    }
  }

  lemma OnlyOne(k: set<nat>, x: nat)
    requires forall l: nat :: l in k ==> l == x
    ensures |k| == if x in k then 1 else 0
  {
    assert k == if x in k then {x} else {};
  }

  lemma SameTable(m0: seq<Frame>, m1: seq<Frame>, root: nat, va: nat, g: map<nat, nat>, l: nat, q: nat)
    requires GrownTables(m0, m1, root, va, g) && l < 3
    ensures Table(m1, root, l, q).Some? <==> Table(m0, root, l, q).Some? || (l in g && q == Prefix(va, l))
    ensures l in g && q == Prefix(va, l) ==> Table(m0, root, l, q) == None
  {
    var a, b := Table(m0, root, l, q), Table(m1, root, l, q);
    assert a.Some? ==> IsTable(m1, root, l, q, a.value);
    assert b.Some? ==> IsTable(m1, root, l, q, b.value);
    assert l in g && q == Prefix(va, l) ==> IsTable(m1, root, l, q, g[l]);
  }

  /** The frame the child gets for page `v`: a new one `x` for a private page. */
  function ChildEntry(v: nat, parent: Word, x: Option<nat>): Word {
    if x.Some? then Word(x.value, parent.perm, 0) else parent
  }

  /** Memory and counts after a frame, if any, has been taken from the allocator and filled. */
  ghost predicate FrameTaken(m: seq<Frame>, r: seq<nat>, contents: Frame, x: Option<nat>, m1: seq<Frame>, r1: seq<nat>)
    requires |m| == |r| == NPAGES
  {
    match x
    case None => m1 == m && r1 == r
    case Some(f) => f < NPAGES && Free(r, f) && m1 == m[f := contents] && r1 == r[f := 1]
  }

  /** Taking a frame disturbs no page table whose frames are in use. */
  lemma FrameTakenKeeps(m: seq<Frame>, r: seq<nat>, contents: Frame, x: Option<nat>, m1: seq<Frame>, r1: seq<nat>,
                        root: nat)
    requires |m| == |r| == NPAGES && FrameTaken(m, r, contents, x, m1, r1)
    requires Space(m, root) && AllHeld(m, r, root)
    ensures Space(m1, root) && |m1| == |r1| == NPAGES && AllHeld(m1, r1, root)
    ensures forall v: nat :: Leaf(m1, root, v) == Leaf(m, root, v)
    ensures forall u: Use, f: nat :: Refers(m1, root, u, f) <==> Refers(m, root, u, f)
    ensures forall l: nat, q: nat, f: nat :: IsTable(m1, root, l, q, f) <==> IsTable(m, root, l, q, f)
    ensures forall l: nat, q: nat :: l <= 3 ==> Table(m1, root, l, q) == Table(m, root, l, q)
    ensures forall f: nat :: Holds(m1, root, f) <==> Holds(m, root, f)
    ensures x.Some? ==> x.value < NPAGES && !Holds(m, root, x.value)
    ensures forall va: nat :: Walk(m1, root, va) == Walk(m, root, va)
  {
    TablesAreHeld(m, r, root);
    forall l: nat, q: nat, f: nat | IsTable(m, root, l, q, f) ensures m1[f] == m[f] {
      assert !Free(r, f);
    }
    TreeFrame(m, m1, root);
    SpaceFrame(m, m1, root);
    HoldsSame(m, m1, root);
    forall va: nat ensures Walk(m1, root, va) == Walk(m, root, va) { WalkFrame(m, m1, root, va); }
  }

  /** The contents of the page to be copied. */
  function Source(m: seq<Frame>, src: nat): Frame {
    if src < |m| then m[src] else Filled(ZERO)
  }

  /** Memory and counts after the frame for a private page has been taken and filled. */
  ghost predicate PageTaken(m: seq<Frame>, r: seq<nat>, src: nat, x: Option<nat>, m1: seq<Frame>, r1: seq<nat>)
    requires |m| == |r| == NPAGES
  {
    (x.Some? ==> src < NPAGES) && FrameTaken(m, r, Source(m, src), x, m1, r1)
  }

  /** The parent's page table, none of whose frames is free. */
  ghost predicate ParentOk(m0: seq<Frame>, r0: seq<nat>, parent: nat) {
    |m0| == |r0| == NPAGES && Space(m0, parent) && AllHeld(m0, r0, parent)
  }

  /** One pass of the fork loop: the frame `x` for a private page was taken, then page `v` was
      mapped in the child through the new table pages `g`. */
  ghost predicate CopyStep(m0: seq<Frame>, r0: seq<nat>, parent: nat, m: seq<Frame>, r: seq<nat>, child: nat, v: nat,
                           x: Option<nat>, m1: seq<Frame>, r1: seq<nat>, m2: seq<Frame>, r2: seq<nat>,
                           g: map<nat, nat>) {
    var e := Leaf(m0, parent, v);
    && ParentOk(m0, r0, parent) && Copying(m0, r0, parent, m, r, child, v) && v < VIRTUAL_END
    && (x.Some? <==> Private(v, e))
    && PageTaken(m, r, e.pfn, x, m1, r1)
    && Grown(m1, r1, m2, r2, child, v * PAGESIZE, g)
    && Closed(m2, child) && PlainLinks(m2, child)
    && MappedTo(m1, m2, child, v * PAGESIZE, g, ChildEntry(v, e, x))
  }

  lemma CopyingAllHeld(m0: seq<Frame>, r0: seq<nat>, parent: nat, m: seq<Frame>, r: seq<nat>, child: nat, v: nat)
    requires Copying(m0, r0, parent, m, r, child, v)
    ensures AllHeld(m, r, child)
  {
  }

  /** The parent's user page at `v` is in use, and what it may be. */
  lemma ParentPage(m0: seq<Frame>, r0: seq<nat>, parent: nat, v: nat)
    requires ParentOk(m0, r0, parent)
    ensures var e := Leaf(m0, parent, v);
            && LeafOk(v, e)
            && (PROC_START <= v < VIRTUAL_END && e.perm.Covers(PU) ==>
                 UserEntry(e) && e.pfn < NPAGES && !Free(r0, e.pfn) && Refers(m0, parent, PageUse(v), e.pfn))
            && (Private(v, e) ==> PROC_START <= v < VIRTUAL_END)
            && (SharedEntry(e) ==> PROC_START <= v < VIRTUAL_END && e.perm == PU)
  {
    var e := Leaf(m0, parent, v);
    assert LeafOk(v, e);
    if PROC_START <= v < VIRTUAL_END && e.perm.Covers(PU) {
      assert Refers(m0, parent, PageUse(v), e.pfn);
      assert Holds(m0, parent, e.pfn);
    }
  }

  /** A page the parent still has to share is not in the child yet. */
  lemma NotYetShared(m0: seq<Frame>, r0: seq<nat>, parent: nat, m: seq<Frame>, r: seq<nat>, child: nat, v: nat)
    requires ParentOk(m0, r0, parent) && Copying(m0, r0, parent, m, r, child, v)
    requires IsUserPage(m0, parent, v)
    ensures !Holds(m, child, Leaf(m0, parent, v).pfn)
  {
    var f := Leaf(m0, parent, v).pfn;
    ParentPage(m0, r0, parent, v);
    forall u: Use ensures !Refers(m, child, u, f) {
      match u
      case TableUse(l, q) =>
      case PageUse(w) =>
        if Refers(m, child, u, f) {
          assert w < v;
          assert CopyOf(m0, r0, m, w, Leaf(m0, parent, w), Leaf(m, child, w));
          assert Refers(m0, parent, PageUse(w), f);
        }
    }
  }

  lemma StepSpace(m0: seq<Frame>, r0: seq<nat>, parent: nat, m: seq<Frame>, r: seq<nat>, child: nat, v: nat,
                  x: Option<nat>, m1: seq<Frame>, r1: seq<nat>, m2: seq<Frame>, r2: seq<nat>, g: map<nat, nat>)
    requires CopyStep(m0, r0, parent, m, r, child, v, x, m1, r1, m2, r2, g)
    ensures Space(m2, child)
  {
    var e := Leaf(m0, parent, v);
    var e' := ChildEntry(v, e, x);
    CopyingAllHeld(m0, r0, parent, m, r, child, v);
    FrameTakenKeeps(m, r, Source(m, e.pfn), x, m1, r1, child);
    ParentPage(m0, r0, parent, v);
    PageAddress(v);
    if IsUserPage(m0, parent, v) {
      NotYetShared(m0, r0, parent, m, r, child, v);
    }
    FreshTables(m1, r1, child, r2, g);
    assert UserEntry(e') ==> e'.pfn !in g.Values by {
      if UserEntry(e') { assert !Free(r1, e'.pfn); }
    }
    SpaceMap(m1, m2, child, v * PAGESIZE, g, e');
  }

  /** The frames of new table pages were held by nobody. */
  lemma FreshTables(m1: seq<Frame>, r1: seq<nat>, child: nat, r2: seq<nat>, g: map<nat, nat>)
    requires |m1| == NPAGES && GrownCounts(r1, r2, g) && AllHeld(m1, r1, child)
    ensures forall l: nat :: l in g ==> Allocatable(g[l]) && !Holds(m1, child, g[l])
    ensures forall f: nat :: f in g.Values ==> f < NPAGES && Free(r1, f)
  {
  }

  lemma StepFrames(m0: seq<Frame>, r0: seq<nat>, parent: nat, m: seq<Frame>, r: seq<nat>, child: nat, v: nat,
                   x: Option<nat>, m1: seq<Frame>, r1: seq<nat>, m2: seq<Frame>, r2: seq<nat>, g: map<nat, nat>)
    requires CopyStep(m0, r0, parent, m, r, child, v, x, m1, r1, m2, r2, g)
    ensures forall f: nat :: f < NPAGES && r1[f] > 0 && !Owns(m1, child, f) ==> m2[f] == m1[f]
    ensures forall f: nat :: f < NPAGES && !Free(r0, f) ==> m2[f] == m0[f]
    ensures forall f: nat :: f < NPAGES ==> r1[f] >= r[f] >= r0[f]
    ensures forall l: nat, q: nat, f: nat :: IsTable(m2, child, l, q, f) ==> f < NPAGES && Free(r0, f)
  {
    CopyingAllHeld(m0, r0, parent, m, r, child, v);
    FrameTakenKeeps(m, r, Source(m, Leaf(m0, parent, v).pfn), x, m1, r1, child);
    FreshTables(m1, r1, child, r2, g);
    forall f: nat | f < NPAGES && !Free(r0, f) ensures m2[f] == m0[f] {
      assert !Free(r1, f);
      assert !Owns(m1, child, f);
      assert m1[f] == m[f];
    }
  }

  lemma StepCounts(m0: seq<Frame>, r0: seq<nat>, parent: nat, m: seq<Frame>, r: seq<nat>, child: nat, v: nat,
                   x: Option<nat>, m1: seq<Frame>, r1: seq<nat>, m2: seq<Frame>, r2: seq<nat>, g: map<nat, nat>, f: nat)
    requires CopyStep(m0, r0, parent, m, r, child, v, x, m1, r1, m2, r2, g) && f < NPAGES
    ensures var e := Leaf(m0, parent, v);
            r2[f] + (if SharedEntry(e) && f == e.pfn then 1 else 0) == r0[f] + (if Holds(m2, child, f) then 1 else 0)
  {
    var e := Leaf(m0, parent, v);
    CopyingAllHeld(m0, r0, parent, m, r, child, v);
    FrameTakenKeeps(m, r, Source(m, e.pfn), x, m1, r1, child);
    ParentPage(m0, r0, parent, v);
    PageAddress(v);
    HoldsAfter(m1, m2, child, v * PAGESIZE, g, ChildEntry(v, e, x), f);
    FreshTables(m1, r1, child, r2, g);
    assert !Refers(m1, child, PageUse(v), f) by { assert Leaf(m, child, v) == ZERO; }
    if IsUserPage(m0, parent, v) {
      NotYetShared(m0, r0, parent, m, r, child, v);
    }
    hide Space, Leaf, Holds, GrownTables, MappedTo, Closed, PlainLinks, OthersKept, Refers, AllHeld;
    assert r[f] == r0[f] + if Holds(m, child, f) then 1 else 0;
    assert f in g.Values ==> r2[f] == 1 && r1[f] == 0;
    assert f !in g.Values ==> r2[f] == r1[f];
  }

  /** The pages copied so far stay copied, and the new one is. */
  lemma StepCopies(m0: seq<Frame>, r0: seq<nat>, parent: nat, m: seq<Frame>, r: seq<nat>, child: nat, v: nat,
                   x: Option<nat>, m1: seq<Frame>, r1: seq<nat>, m2: seq<Frame>, r2: seq<nat>, g: map<nat, nat>, w: nat)
    requires CopyStep(m0, r0, parent, m, r, child, v, x, m1, r1, m2, r2, g)
    ensures w <= v ==> CopyOf(m0, r0, m2, w, Leaf(m0, parent, w), Leaf(m2, child, w))
    ensures w > v ==> Leaf(m2, child, w) == ZERO
  {
    hide Table, IsTable, Closed, PlainLinks, TablesOk, LeavesOk, GrownTables, OthersKept;
    var e := Leaf(m0, parent, v);
    CopyingAllHeld(m0, r0, parent, m, r, child, v);
    FrameTakenKeeps(m, r, Source(m, e.pfn), x, m1, r1, child);
    StepFrames(m0, r0, parent, m, r, child, v, x, m1, r1, m2, r2, g);
    PageAddress(v);
    ParentPage(m0, r0, parent, w);
    if w == v {
      if x.Some? {
        UnheldIsNoTable(m1, child, x.value);
      }
    } else if w < v && Private(w, Leaf(m0, parent, w)) {
      var f := Leaf(m, child, w).pfn;
      assert Refers(m, child, PageUse(w), f) && Refers(m1, child, PageUse(w), f);
      assert Holds(m, child, f);
      PageIsNoTable(m1, child, w, f);
    }
  }

  lemma UnheldIsNoTable(mem: seq<Frame>, root: nat, f: nat)
    requires !Holds(mem, root, f)
    ensures !Owns(mem, root, f)
  {
    assert forall l: nat, q: nat :: IsTable(mem, root, l, q, f) ==> Refers(mem, root, TableUse(l, q), f);
  }

  lemma PageIsNoTable(mem: seq<Frame>, root: nat, v: nat, f: nat)
    requires HeldOnce(mem, root) && Refers(mem, root, PageUse(v), f)
    ensures !Owns(mem, root, f)
  {
    assert forall l: nat, q: nat :: IsTable(mem, root, l, q, f) ==> Refers(mem, root, TableUse(l, q), f);
  }

  lemma StepFree(m0: seq<Frame>, r0: seq<nat>, parent: nat, m: seq<Frame>, r: seq<nat>, child: nat, v: nat,
                 x: Option<nat>, m1: seq<Frame>, r1: seq<nat>, m2: seq<Frame>, r2: seq<nat>, g: map<nat, nat>)
    requires CopyStep(m0, r0, parent, m, r, child, v, x, m1, r1, m2, r2, g)
    ensures FreeCount(r2) + Tables(m2, child) + PrivatePages(m0, parent, v + 1) == FreeCount(r0)
    ensures v < 512 ==> Table(m2, child, 0, 1) == None
  {
    CopyingAllHeld(m0, r0, parent, m, r, child, v);
    FrameTakenKeeps(m, r, Source(m, Leaf(m0, parent, v).pfn), x, m1, r1, child);
    PageAddress(v);
    TablesGrow(m1, m2, child, v * PAGESIZE, g);
    if v < 512 { SecondTableAbsent(m1, m2, child, v, g); }
    if x.Some? { TakeFree(r, x.value, 1); }
    assert Tables(m1, child) == Tables(m, child);
  }

  /** Mapping below 2 MBytes does not add the table page for the addresses above. */
  lemma SecondTableAbsent(m1: seq<Frame>, m2: seq<Frame>, child: nat, v: nat, g: map<nat, nat>)
    requires GrownTables(m1, m2, child, v * PAGESIZE, g) && v < 512 && Table(m1, child, 0, 1) == None
    ensures Table(m2, child, 0, 1) == None
  {
    assert Prefix(v * PAGESIZE, 0) == 0;
    SameTable(m1, m2, child, v * PAGESIZE, g, 0, 1);
  }

  /** After the pass the child has one more page. */
  lemma PageCopied(m0: seq<Frame>, r0: seq<nat>, parent: nat, m: seq<Frame>, r: seq<nat>, child: nat, v: nat,
                   x: Option<nat>, m1: seq<Frame>, r1: seq<nat>, m2: seq<Frame>, r2: seq<nat>, g: map<nat, nat>)
    requires CopyStep(m0, r0, parent, m, r, child, v, x, m1, r1, m2, r2, g)
    ensures var e := Leaf(m0, parent, v);
            if SharedEntry(e)
            then e.pfn < NPAGES && Copying(m0, r0, parent, m2, r2[e.pfn := r2[e.pfn] + 1], child, v + 1)
            else Copying(m0, r0, parent, m2, r2, child, v + 1)
  {
    hide Space, Holds, Tables, Leaf, IsTable, Closed, PlainLinks, MappedTo, GrownTables, AllHeld, CopyOf, Owns;
    var e := Leaf(m0, parent, v);
    ParentPage(m0, r0, parent, v);
    StepSpace(m0, r0, parent, m, r, child, v, x, m1, r1, m2, r2, g);
    StepFrames(m0, r0, parent, m, r, child, v, x, m1, r1, m2, r2, g);
    StepFree(m0, r0, parent, m, r, child, v, x, m1, r1, m2, r2, g);
    forall f: nat | f < NPAGES
      ensures r2[f] + (if SharedEntry(e) && f == e.pfn then 1 else 0) == r0[f] + (if Holds(m2, child, f) then 1 else 0)
    {
      StepCounts(m0, r0, parent, m, r, child, v, x, m1, r1, m2, r2, g, f);
    }
    forall w: nat
      ensures w <= v ==> CopyOf(m0, r0, m2, w, Leaf(m0, parent, w), Leaf(m2, child, w))
      ensures w > v ==> Leaf(m2, child, w) == ZERO
    {
      StepCopies(m0, r0, parent, m, r, child, v, x, m1, r1, m2, r2, g, w);
    }
    if SharedEntry(e) {
      SharedInUse(m0, r0, parent, m, r, child, v, x, m1, r1, m2, r2, g);
      KeepFree(r2, r2[e.pfn := r2[e.pfn] + 1]);
    }
  }

  lemma SharedInUse(m0: seq<Frame>, r0: seq<nat>, parent: nat, m: seq<Frame>, r: seq<nat>, child: nat, v: nat,
                    x: Option<nat>, m1: seq<Frame>, r1: seq<nat>, m2: seq<Frame>, r2: seq<nat>, g: map<nat, nat>)
    requires CopyStep(m0, r0, parent, m, r, child, v, x, m1, r1, m2, r2, g) && SharedEntry(Leaf(m0, parent, v))
    ensures var f := Leaf(m0, parent, v).pfn; f < NPAGES && r2[f] > 0
  {
    var f := Leaf(m0, parent, v).pfn;
    ParentPage(m0, r0, parent, v);
    StepFrames(m0, r0, parent, m, r, child, v, x, m1, r1, m2, r2, g);
    assert !Free(r0, f);
    assert GrownCounts(r1, r2, g);
    if r2[f] != r1[f] {
      assert f in g.Values;
    }
  }

  lemma ZeroIsOk(v: nat)
    ensures LeafOk(v, ZERO) && !UserEntry(ZERO)
  {
  }

  /** A pass that ran out of frames: the page `x`, if any, is taken and some table pages were added,
      but nothing new is mapped. What the child holds is still exactly what was counted. */
  lemma PageFailed(m0: seq<Frame>, r0: seq<nat>, parent: nat, m: seq<Frame>, r: seq<nat>, child: nat, v: nat,
                   x: Option<nat>, m1: seq<Frame>, r1: seq<nat>, m2: seq<Frame>, r2: seq<nat>, g: map<nat, nat>)
    requires ParentOk(m0, r0, parent) && Copying(m0, r0, parent, m, r, child, v) && v < VIRTUAL_END
    requires PageTaken(m, r, Leaf(m0, parent, v).pfn, x, m1, r1)
    requires Grown(m1, r1, m2, r2, child, v * PAGESIZE, g)
    requires Closed(m2, child) && PlainLinks(m2, child)
    requires forall w: nat :: Leaf(m2, child, w) == Leaf(m1, child, w)
    ensures Space(m2, child)
    ensures forall f: nat :: f < NPAGES ==>
              r2[f] == r0[f] + (if Holds(m2, child, f) then 1 else 0) + (if x == Some(f) then 1 else 0)
    ensures forall f: nat :: f < NPAGES && !Free(r0, f) ==> m2[f] == m0[f]
    ensures FreeCount(r2) + Tables(m2, child) + PrivatePages(m0, parent, v) + (if x.Some? then 1 else 0) ==
            FreeCount(r0)
    ensures v < 512 ==> Table(m2, child, 0, 1) == None
  {
    hide Table, CopyOf, Closed, PlainLinks, TablesOk, LeavesOk, Leaf, FreeCount, HeldOnce, PrivatePages;
    CopyingAllHeld(m0, r0, parent, m, r, child, v);
    FrameTakenKeeps(m, r, Source(m, Leaf(m0, parent, v).pfn), x, m1, r1, child);
    PageAddress(v);
    ZeroIsOk(v);
    assert Leaf(m1, child, v) == ZERO;
    assert MappedTo(m1, m2, child, v * PAGESIZE, g, ZERO);
    FreshTables(m1, r1, child, r2, g);
    SpaceMap(m1, m2, child, v * PAGESIZE, g, ZERO);
    TablesGrow(m1, m2, child, v * PAGESIZE, g);
    if v < 512 { SecondTableAbsent(m1, m2, child, v, g); }
    if x.Some? { TakeFree(r, x.value, 1); }
    assert Tables(m1, child) == Tables(m, child);
    forall f: nat | f < NPAGES
      ensures r2[f] == r0[f] + (if Holds(m2, child, f) then 1 else 0) + (if x == Some(f) then 1 else 0)
    {
      HoldsAfter(m1, m2, child, v * PAGESIZE, g, ZERO, f);
      assert !Refers(m1, child, PageUse(v), f);
    }
    forall f: nat | f < NPAGES && !Free(r0, f) ensures m2[f] == m0[f] {
      assert !Free(r1, f);
      assert !Owns(m1, child, f);
    }
  }
}
