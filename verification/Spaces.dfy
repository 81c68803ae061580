/** Process address spaces: which frames a page table refers to, and what mapping a page adds. */
module Spaces {
  import opened Paging
  import opened Physical
  import opened Walks
  import opened Growth

  const PROC_START: nat := 0x100      // PROC_START_ADDR, as a page number
  const VIRTUAL_END: nat := 0x300     // MEMSIZE_VIRTUAL, as a page number

  /** The entry of every page table for a page below PROC_START_ADDR: the identity, open to user
      code only for the console. */
  function KernelEntry(v: nat): Word {
    Word(v, if v == CONSOLE_PFN then PWU else PW, 0)
  }

  predicate UserEntry(e: Word) {
    (e.perm == PWU || e.perm == PU) && Allocatable(e.pfn) && e.rest == 0
  }

  predicate LeafOk(v: nat, e: Word) {
    || e == ZERO
    || (v < PROC_START && e == KernelEntry(v))
    || (PROC_START <= v < VIRTUAL_END && UserEntry(e))
  }

  /** A way a process can hold a frame: as one of its table pages or as a user page. */
  datatype Use = TableUse(level: nat, q: nat) | PageUse(v: nat)

  predicate IsUserPage(mem: seq<Frame>, root: nat, v: nat) {
    PROC_START <= v < VIRTUAL_END && Leaf(mem, root, v).perm.Covers(PU)
  }

  predicate Refers(mem: seq<Frame>, root: nat, u: Use, f: nat) {
    match u
    case TableUse(l, q) => IsTable(mem, root, l, q, f)
    case PageUse(v) => IsUserPage(mem, root, v) && Leaf(mem, root, v).pfn == f
  }

  /** The process with this page table holds `f`. */
  ghost predicate Holds(mem: seq<Frame>, root: nat, f: nat) {
    exists u: Use :: Refers(mem, root, u, f)
  }

  /** No frame is held in two ways. */
  ghost predicate HeldOnce(mem: seq<Frame>, root: nat) {
    forall u: Use, w: Use, f: nat :: Refers(mem, root, u, f) && Refers(mem, root, w, f) ==> u == w
  }

  ghost predicate LeavesOk(mem: seq<Frame>, root: nat) {
    forall v: nat :: LeafOk(v, Leaf(mem, root, v))
  }

  /** Only the pages that can serve addresses below 4 MBytes exist, all in allocatable frames. */
  ghost predicate TablesOk(mem: seq<Frame>, root: nat) {
    forall l: nat, q: nat, f: nat :: IsTable(mem, root, l, q, f) ==> Allocatable(f) && (q == 0 || (l == 0 && q == 1))
  }

  /** A well-formed process page table, possibly with unmapped pages. */
  ghost predicate Space(mem: seq<Frame>, root: nat) {
    && Closed(mem, root) && PlainLinks(mem, root)
    && TablesOk(mem, root) && LeavesOk(mem, root) && HeldOnce(mem, root)
  }

  /** The kernel part is complete and the stack page is mapped. */
  ghost predicate Complete(mem: seq<Frame>, root: nat) {
    && (forall v: nat :: v < PROC_START ==> Leaf(mem, root, v) == KernelEntry(v))
    && Leaf(mem, root, VIRTUAL_END - 1).perm.p
  }

  /** Everything a process holds has a reference. */
  ghost predicate AllHeld(mem: seq<Frame>, refcount: seq<nat>, root: nat)
    requires |refcount| == NPAGES
  {
    forall f: nat :: f < NPAGES && Holds(mem, root, f) ==> !Free(refcount, f)
  }

  lemma SpaceClosed(mem: seq<Frame>, root: nat)
    requires Space(mem, root)
    ensures Closed(mem, root)
  {
  }

  /** The address of page `v` and of the page after it. */
  lemma PageAddress(v: nat)
    requires v < VIRTUAL_END
    ensures Vpn(v * PAGESIZE) == v && v * PAGESIZE < VIRTUAL_END * PAGESIZE
    ensures v * PAGESIZE % PAGESIZE == 0 && v * PAGESIZE / PAGESIZE == v && Canonical(v * PAGESIZE)
    ensures (v * PAGESIZE + PAGESIZE) % ADDRESS_SPACE == (v + 1) * PAGESIZE
  {
  }

  lemma SpaceTreeShaped(mem: seq<Frame>, root: nat)
    requires Space(mem, root)
    ensures TreeShaped(mem, root)
  {
    forall l1: nat, q1: nat, l2: nat, q2: nat, f: nat | IsTable(mem, root, l1, q1, f) && IsTable(mem, root, l2, q2, f)
      ensures l1 == l2 && q1 == q2
    {
      assert Refers(mem, root, TableUse(l1, q1), f) && Refers(mem, root, TableUse(l2, q2), f);
    }
  }

  lemma HeldIsAllocatable(mem: seq<Frame>, root: nat, f: nat)
    requires Space(mem, root) && Holds(mem, root, f)
    ensures Allocatable(f)
  {
    var u: Use :| Refers(mem, root, u, f);
    match u
    case TableUse(l, q) =>
    case PageUse(v) => assert LeafOk(v, Leaf(mem, root, v));
  }

  lemma TablesAreHeld(mem: seq<Frame>, refcount: seq<nat>, root: nat)
    requires |mem| == |refcount| == NPAGES && AllHeld(mem, refcount, root)
    ensures TablesHeld(mem, refcount, root)
  {
    forall l: nat, q: nat, f: nat | IsTable(mem, root, l, q, f) ensures !Free(refcount, f) {
      assert Refers(mem, root, TableUse(l, q), f);
    }
  }

  // ----- What the iterator sees in such a table

  /** In a process page table the iterator reports the leaf entry. */
  lemma SpaceWalk(mem: seq<Frame>, root: nat, va: nat)
    requires Space(mem, root) && va % PAGESIZE == 0 && va < VA_LOWEND
    ensures var c := Walk(mem, root, va); var e := Leaf(mem, root, va / PAGESIZE);
            && Canonical(va) && Vpn(va) == va / PAGESIZE
            && EffectivePerm(mem, c) == (if e.perm.p then e.perm else NO_PERM)
            && Pa(mem, c, va) == (if e.perm.p then Some(e.pfn * PAGESIZE) else None)
            && (forall q: Perm :: q.p ==> (Allows(mem, c, q) <==> e.perm.Covers(q)))
            && c.perm.Covers(PWU)
            && (c.level > 0 ==> !Entry(mem, c.slot).perm.p)
            && (c.level == 0 <==> Table(mem, root, 0, va / PAGESIZE / 512).Some?)
  {
    LowPage(va);
    WalkToLeaf(mem, root, va);
    WalkPlain(mem, root, va);
    var c, v := Walk(mem, root, va), va / PAGESIZE;
    var e := Leaf(mem, root, v);
    assert LeafOk(v, e);
    hide Walk, Leaf, Table, Closed, PlainLinks, TablesOk, HeldOnce, LeavesOk, Vpn;
    assert c.level == 0 ==> Entry(mem, c.slot) == e;
    assert e.perm == NO_PERM || e.perm == PW || e.perm == PWU || e.perm == PU;
  }

  lemma LowPage(va: nat)
    requires va % PAGESIZE == 0 && va < VA_LOWEND
    ensures Canonical(va) && Vpn(va) == va / PAGESIZE && va % Span(0) == 0
  {
  }

  lemma WalkPlain(mem: seq<Frame>, root: nat, va: nat)
    requires root < |mem| && PlainLinks(mem, root) && Closed(mem, root) && Canonical(va)
    ensures var c := Walk(mem, root, va);
            c.perm.Covers(PWU) && (c.level > 0 ==> !Entry(mem, c.slot).perm.p)
  {
    assert IsTable(mem, root, 3, Prefix(va, 3), root);
    DescendPlain(mem, root, 3, root, ALL_PERM, va);
    WalkVisits(mem, root, va);
    var c := Walk(mem, root, va);
    var e := Entry(mem, c.slot);
    assert c.level > 0 && e.perm.p ==> e.perm == PWU;
  }

  lemma {:induction false} DescendPlain(mem: seq<Frame>, root: nat, level: nat, frame: nat, perm: Perm, va: nat)
    requires level <= 3 && IsTable(mem, root, level, Prefix(va, level), frame) && PlainLinks(mem, root)
    requires perm.Covers(PWU)
    ensures Descend(mem, level, frame, perm, va).perm.Covers(PWU)
    decreases level
  {
    var e := mem[frame][PageIndex(va, level)];
    if level > 0 && IsLink(e) && e.pfn < |mem| {
      PrefixStep(va, level - 1);
      DescendPlain(mem, root, level - 1, e.pfn, perm.And(e.perm), va);
    }
  }

  // ----- Frame: a process is untouched by writes to frames it does not use as tables

  lemma SpaceFrame(m0: seq<Frame>, m1: seq<Frame>, root: nat)
    requires |m0| == |m1| && Space(m0, root)
    requires forall l: nat, q: nat, f: nat :: IsTable(m0, root, l, q, f) ==> m1[f] == m0[f]
    ensures Space(m1, root)
    ensures forall v: nat :: Leaf(m1, root, v) == Leaf(m0, root, v)
    ensures forall u: Use, f: nat :: Refers(m1, root, u, f) <==> Refers(m0, root, u, f)
    ensures Complete(m0, root) ==> Complete(m1, root)
  {
    TreeFrame(m0, m1, root);
    forall u: Use, f: nat ensures Refers(m1, root, u, f) <==> Refers(m0, root, u, f) {
      match u case TableUse(l, q) => case PageUse(v) =>
    }
  }

  lemma HoldsSame(m0: seq<Frame>, m1: seq<Frame>, root: nat)
    requires forall u: Use, f: nat :: Refers(m1, root, u, f) <==> Refers(m0, root, u, f)
    ensures forall f: nat :: Holds(m1, root, f) <==> Holds(m0, root, f)
  {
    forall f: nat ensures Holds(m1, root, f) <==> Holds(m0, root, f) {
      if Holds(m0, root, f) { var u: Use :| Refers(m0, root, u, f); assert Refers(m1, root, u, f); }
      if Holds(m1, root, f) { var u: Use :| Refers(m1, root, u, f); assert Refers(m0, root, u, f); }
    }
  }

  // ----- Mapping one page

  /** `f` is held after mapping `e` at `v`, given the table pages `g` that were added. */
  ghost predicate HeldAfter(mem: seq<Frame>, root: nat, v: nat, e: Word, g: map<nat, nat>, f: nat) {
    || (Holds(mem, root, f) && !Refers(mem, root, PageUse(v), f))
    || f in g.Values
    || (PROC_START <= v < VIRTUAL_END && e.perm.Covers(PU) && e.pfn == f)
  }

  /** The memory `m1` is `m0` with page `v` mapped to `e` through the new table pages `g`. */
  ghost predicate MappedTo(m0: seq<Frame>, m1: seq<Frame>, root: nat, va: nat, g: map<nat, nat>, e: Word) {
    && GrownTables(m0, m1, root, va, g)
    && forall w: nat :: Leaf(m1, root, w) == if w == Vpn(va) then e else Leaf(m0, root, w)
  }

  lemma RefersAfter(m0: seq<Frame>, m1: seq<Frame>, root: nat, va: nat, g: map<nat, nat>, e: Word, u: Use, f: nat)
    requires MappedTo(m0, m1, root, va, g, e)
    ensures Refers(m1, root, u, f) <==>
            match u
            case TableUse(l, q) => Refers(m0, root, u, f) || (l in g && q == Prefix(va, l) && f == g[l])
            case PageUse(w) =>
              if w == Vpn(va) then PROC_START <= w < VIRTUAL_END && e.perm.Covers(PU) && e.pfn == f
              else Refers(m0, root, u, f)
  {
  }

  lemma HoldsAfter(m0: seq<Frame>, m1: seq<Frame>, root: nat, va: nat, g: map<nat, nat>, e: Word, f: nat)
    requires MappedTo(m0, m1, root, va, g, e) && HeldOnce(m0, root)
    ensures Holds(m1, root, f) <==> HeldAfter(m0, root, Vpn(va), e, g, f)
  {
    forall u: Use ensures Refers(m1, root, u, f) ==> HeldAfter(m0, root, Vpn(va), e, g, f) {
      RefersAfter(m0, m1, root, va, g, e, u, f);
      if Refers(m1, root, u, f) && Refers(m0, root, u, f) && Refers(m0, root, PageUse(Vpn(va)), f) {
        assert u == PageUse(Vpn(va));
      }
    }
    if HeldAfter(m0, root, Vpn(va), e, g, f) {
      if f in g.Values {
        var l :| l in g && g[l] == f;
        RefersAfter(m0, m1, root, va, g, e, TableUse(l, Prefix(va, l)), f);
      } else if Holds(m0, root, f) && !Refers(m0, root, PageUse(Vpn(va)), f) {
        var u: Use :| Refers(m0, root, u, f);
        RefersAfter(m0, m1, root, va, g, e, u, f);
        assert Refers(m1, root, u, f);
      } else {
        RefersAfter(m0, m1, root, va, g, e, PageUse(Vpn(va)), f);
        assert Refers(m1, root, PageUse(Vpn(va)), f);
      }
    }
  }

  lemma LowPrefix(va: nat, level: nat)
    requires level < 3 && va < VIRTUAL_END * PAGESIZE
    ensures Prefix(va, level) == 0 || (level == 0 && Prefix(va, level) == 1)
  {
  }

  /** Mapping a page that the process does not hold otherwise keeps the table well formed. */
  lemma SpaceMap(m0: seq<Frame>, m1: seq<Frame>, root: nat, va: nat, g: map<nat, nat>, e: Word)
    requires Space(m0, root) && MappedTo(m0, m1, root, va, g, e)
    requires Closed(m1, root) && PlainLinks(m1, root)
    requires va < VIRTUAL_END * PAGESIZE && LeafOk(Vpn(va), e)
    requires forall l: nat :: l in g ==> Allocatable(g[l]) && !Holds(m0, root, g[l])
    requires forall l: nat, k: nat :: l in g && k in g && g[l] == g[k] ==> l == k
    requires UserEntry(e) ==> e.pfn !in g.Values
    requires UserEntry(e) ==> !Holds(m0, root, e.pfn)
    ensures Space(m1, root)
  {
    forall l: nat, q: nat, f: nat | IsTable(m1, root, l, q, f)
      ensures Allocatable(f) && (q == 0 || (l == 0 && q == 1)) {
      if !IsTable(m0, root, l, q, f) {
        LowPrefix(va, l);
      }
    }
    forall u: Use, w: Use, f: nat | Refers(m1, root, u, f) && Refers(m1, root, w, f) ensures u == w {
      HeldOnceAfter(m0, m1, root, va, g, e, u, w, f);
    }
  }

  lemma HeldOnceAfter(m0: seq<Frame>, m1: seq<Frame>, root: nat, va: nat, g: map<nat, nat>, e: Word, u: Use, w: Use,
                      f: nat)
    requires HeldOnce(m0, root) && MappedTo(m0, m1, root, va, g, e) && LeafOk(Vpn(va), e)
    requires forall l: nat :: l in g ==> !Holds(m0, root, g[l])
    requires forall l: nat, k: nat :: l in g && k in g && g[l] == g[k] ==> l == k
    requires UserEntry(e) ==> e.pfn !in g.Values
    requires UserEntry(e) ==> !Holds(m0, root, e.pfn)
    requires Refers(m1, root, u, f) && Refers(m1, root, w, f)
    ensures u == w
  {
    RefersAfter(m0, m1, root, va, g, e, u, f);
    RefersAfter(m0, m1, root, va, g, e, w, f);
    assert Refers(m0, root, u, f) ==> Holds(m0, root, f);
    assert Refers(m0, root, w, f) ==> Holds(m0, root, f);
  }

  // ----- Fresh page tables

  /** A zeroed root page is a well-formed page table that holds only itself. */
  lemma EmptySpace(mem: seq<Frame>, root: nat)
    requires |mem| == NPAGES && Allocatable(root) && mem[root] == Filled(ZERO)
    ensures Space(mem, root)
    ensures forall v: nat :: Leaf(mem, root, v) == ZERO
    ensures forall u: Use, f: nat :: Refers(mem, root, u, f) <==> u == TableUse(3, 0) && f == root
    ensures forall f: nat :: Holds(mem, root, f) <==> f == root
  {
    forall l: nat, q: nat, f: nat ensures IsTable(mem, root, l, q, f) <==> l == 3 && q == 0 && f == root {
      if l <= 3 { EmptyTable(mem, root, l, q); }
    }
    forall v: nat ensures Leaf(mem, root, v) == ZERO { EmptyTable(mem, root, 0, v / 512); }
    assert Refers(mem, root, TableUse(3, 0), root);
    forall u: Use, f: nat ensures Refers(mem, root, u, f) <==> u == TableUse(3, 0) && f == root {
      match u case TableUse(l, q) => case PageUse(v) =>
    }
  }

  lemma {:induction false} EmptyTable(mem: seq<Frame>, root: nat, level: nat, q: nat)
    requires level <= 3 && root < |mem| && mem[root] == Filled(ZERO)
    ensures Table(mem, root, level, q) == if level == 3 && q == 0 then Some(root) else None
    decreases 3 - level
  {
    if level < 3 { EmptyTable(mem, root, level + 1, q / 512); }
  }

  /** Table pages of a complete process: the root, one page on each of levels 2 and 1, two on level 0. */
  lemma CompleteTables(mem: seq<Frame>, root: nat)
    requires Space(mem, root) && Complete(mem, root)
    ensures Table(mem, root, 2, 0).Some? && Table(mem, root, 1, 0).Some?
    ensures Table(mem, root, 0, 0).Some? && Table(mem, root, 0, 1).Some?
    ensures forall v: nat :: v < VIRTUAL_END ==> Table(mem, root, 0, v / 512).Some?
  {
    assert Leaf(mem, root, 0) == KernelEntry(0);
    TableInRange(mem, root, 0, 0);
    TableInRange(mem, root, 1, 0);
    assert (VIRTUAL_END - 1) / 512 == 1;
    assert forall v: nat :: v < VIRTUAL_END ==> v / 512 == 0 || v / 512 == 1;
  }
}
