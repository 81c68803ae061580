/** `pfree`: giving back everything a page table holds. */
module Freeing {
  import opened Paging
  import opened Physical
  import opened Walks
  import opened Growth
  import opened VmIter
  import opened PtIter
  import opened Spaces

  /** `f` is a user page of the table below page `v`. */
  ghost predicate PageBelow(mem: seq<Frame>, pt: nat, v: nat, f: nat) {
    exists w: nat :: w < v && Refers(mem, pt, PageUse(w), f)
  }

  /** `f` is a table page before the point `(end, level)` of the visit. */
  ghost predicate TableBefore(mem: seq<Frame>, pt: nat, end: nat, level: nat, f: nat) {
    exists k: Node :: Present(mem, pt, k) && IsTable(mem, pt, k.level, k.q, f) && !After(k, end, level)
  }

  /** The counts `r` are `r0` less one for each frame given back. */
  ghost predicate Released(r0: seq<nat>, r: seq<nat>, given: iset<nat>) {
    |r0| == |r| == NPAGES && forall f: nat :: f < NPAGES ==> r[f] + (if f in given then 1 else 0) == r0[f]
  }

  lemma ReleaseOne(r0: seq<nat>, r: seq<nat>, given: iset<nat>, f: nat)
    requires Released(r0, r, given) && f < NPAGES && f !in given && r0[f] > 0
    ensures Released(r0, r[f := r[f] - 1], given + iset{f})
  {
  }

  ghost function PagesGiven(mem: seq<Frame>, pt: nat, v: nat): iset<nat> {
    iset f: nat | PageBelow(mem, pt, v, f)
  }

  ghost function TablesGiven(mem: seq<Frame>, pt: nat, end: nat, level: nat): iset<nat> {
    iset f: nat | TableBefore(mem, pt, end, level, f)
  }

  /** Everything held, when every reference is positive. */
  ghost predicate Counted(mem: seq<Frame>, r0: seq<nat>, pt: nat) {
    |r0| == NPAGES && forall f: nat :: Holds(mem, pt, f) ==> f < NPAGES && r0[f] > 0
  }

  /** The next user page has not been given back yet. */
  lemma NextPage(mem: seq<Frame>, r0: seq<nat>, pt: nat, v: nat)
    requires Space(mem, pt) && Counted(mem, r0, pt)
    ensures var f := Leaf(mem, pt, v).pfn;
            if IsUserPage(mem, pt, v)
            then f < NPAGES && r0[f] > 0 && Allocatable(f) && f !in PagesGiven(mem, pt, v)
                 && PagesGiven(mem, pt, v + 1) == PagesGiven(mem, pt, v) + iset{f}
            else PagesGiven(mem, pt, v + 1) == PagesGiven(mem, pt, v)
  {
    hide Leaf, Table, Closed, PlainLinks, TablesOk, LeavesOk;
    var f := Leaf(mem, pt, v).pfn;
    if IsUserPage(mem, pt, v) {
      assert Refers(mem, pt, PageUse(v), f);
      assert Holds(mem, pt, f);
      HeldIsAllocatable(mem, pt, f);
    }
    forall x: nat ensures PageBelow(mem, pt, v + 1, x) <==> PageBelow(mem, pt, v, x) || Refers(mem, pt, PageUse(v), x) {
      if PageBelow(mem, pt, v + 1, x) {
        var w: nat :| w < v + 1 && Refers(mem, pt, PageUse(w), x);
        assert w == v || PageBelow(mem, pt, v, x);
      }
    }
  }

  lemma NodeUse(mem: seq<Frame>, pt: nat, n: Node, f: nat)
    requires Space(mem, pt) && IsTable(mem, pt, n.level, n.q, f)
    ensures Holds(mem, pt, f) && Allocatable(f) && forall v: nat :: f !in PagesGiven(mem, pt, v)
  {
    assert Refers(mem, pt, TableUse(n.level, n.q), f);
    hide Leaf, Table, Closed, PlainLinks, LeavesOk;
  }

  /** The next table page has not been given back yet. */
  lemma NextTable(mem: seq<Frame>, r0: seq<nat>, pt: nat, n: Node, f: nat, end: nat, level: nat)
    requires Space(mem, pt) && Counted(mem, r0, pt)
    requires IsNext(mem, pt, n, end, level) && IsTable(mem, pt, n.level, n.q, f)
    ensures f < NPAGES && r0[f] > 0 && f !in PagesGiven(mem, pt, VIRTUAL_END) && f !in TablesGiven(mem, pt, end, level)
    ensures TablesGiven(mem, pt, End(n), n.level) == TablesGiven(mem, pt, end, level) + iset{f}
  {
    NodeUse(mem, pt, n, f);
    SpaceTreeShaped(mem, pt);
    hide Space, Table, Leaf;
    forall x: nat ensures TableBefore(mem, pt, End(n), n.level, x) <==> TableBefore(mem, pt, end, level, x) || x == f {
      if TableBefore(mem, pt, End(n), n.level, x) {
        var k: Node :| Present(mem, pt, k) && IsTable(mem, pt, k.level, k.q, x) && !After(k, End(n), n.level);
        assert k == n || !After(k, end, level);
      }
      if TableBefore(mem, pt, end, level, x) {
        var k: Node :| Present(mem, pt, k) && IsTable(mem, pt, k.level, k.q, x) && !After(k, end, level);
        assert !After(k, End(n), n.level);
      }
      assert !After(n, End(n), n.level);
    }
    assert forall k: Node :: IsTable(mem, pt, k.level, k.q, f) ==> k == n;
  }

  /** Pages, tables below the root, and the root: that is everything. */
  lemma EverythingGiven(mem: seq<Frame>, pt: nat, end: nat, level: nat)
    requires Space(mem, pt) && NoneAfter(mem, pt, end, level)
    ensures forall f: nat :: Holds(mem, pt, f) <==>
              f in PagesGiven(mem, pt, VIRTUAL_END) || f in TablesGiven(mem, pt, end, level) || f == pt
    ensures pt < NPAGES ==> pt !in PagesGiven(mem, pt, VIRTUAL_END) && pt !in TablesGiven(mem, pt, end, level)
    ensures Holds(mem, pt, pt)
  {
    SpaceTreeShaped(mem, pt);
    assert IsTable(mem, pt, 3, 0, pt);
    assert Refers(mem, pt, TableUse(3, 0), pt);
    NodeUse(mem, pt, Node(3, 0), pt);
    forall f: nat ensures Holds(mem, pt, f) <==>
        f in PagesGiven(mem, pt, VIRTUAL_END) || f in TablesGiven(mem, pt, end, level) || f == pt {
      if Holds(mem, pt, f) {
        var u: Use :| Refers(mem, pt, u, f);
        match u
        case TableUse(l, q) =>
          if l < 3 {
            assert Present(mem, pt, Node(l, q)) && IsTable(mem, pt, Node(l, q).level, Node(l, q).q, f);
          }
        case PageUse(v) => assert v < VIRTUAL_END;
      }
      if TableBefore(mem, pt, end, level, f) {
        var k: Node :| Present(mem, pt, k) && IsTable(mem, pt, k.level, k.q, f) && !After(k, end, level);
        assert Refers(mem, pt, TableUse(k.level, k.q), f);
      }
    }
    assert forall k: Node :: IsTable(mem, pt, k.level, k.q, pt) ==> k.level == 3;
  }

  /** No table page starts at the console's address. */
  lemma NotTheConsole(va: nat, level: nat)
    requires 1 <= level <= 3
    ensures va / Span(level) * Span(level) != CONSOLE_PFN * PAGESIZE
  {
  }

  lemma NothingYet(mem: seq<Frame>, r0: seq<nat>, pt: nat)
    requires |r0| == NPAGES && Space(mem, pt)
    ensures Released(r0, r0, PagesGiven(mem, pt, PROC_START)) && Closed(mem, pt)
  {
    assert forall f: nat :: !PageBelow(mem, pt, PROC_START, f);
  }

  /** The user pages of `pt` lose one reference each. */
  method FreePages(m: Machine, pt: nat)
    requires m.Sized() && Space(m.mem, pt) && Counted(m.mem, m.refcount, pt)
    modifies m`refcount
    ensures Released(old(m.refcount), m.refcount, PagesGiven(m.mem, pt, VIRTUAL_END))
  {
    hide PagesGiven, Space, Released, Leaf, Walk, Closed, Allows, Pa, Counted;
    ghost var r0 := m.refcount;
    ghost var v := PROC_START;
    NothingYet(m.mem, r0, pt);
    var it := new Vmiter(m, pt, PROC_START * PAGESIZE);
    while it.va < VIRTUAL_END * PAGESIZE
      invariant it.m == m && it.pt == pt && m.mem == old(m.mem) && it.Fresh()
      invariant PROC_START <= v <= VIRTUAL_END && it.va == v * PAGESIZE
      invariant Released(r0, m.refcount, PagesGiven(m.mem, pt, v))
      decreases VIRTUAL_END - v
    {
      NextPage(m.mem, r0, pt, v);
      SpaceWalk(m.mem, pt, it.va);
      PageAddress(v);
      if it.Has(PU) && it.CurrentPa() != Some(CONSOLE_PFN * PAGESIZE) {
        ReleasedPositive(r0, m.refcount, PagesGiven(m.mem, pt, v), Leaf(m.mem, pt, v).pfn);
        ReleaseOne(r0, m.refcount, PagesGiven(m.mem, pt, v), Leaf(m.mem, pt, v).pfn);
        m.Kfree(Some(it.CurrentPa().value / PAGESIZE));
      }
      it.Advance(PAGESIZE);
      v := v + 1;
    }
  }

  lemma ReleasedPositive(r0: seq<nat>, r: seq<nat>, given: iset<nat>, f: nat)
    requires Released(r0, r, given) && f < NPAGES && f !in given && r0[f] > 0
    ensures r[f] > 0 && |r| == NPAGES
  {
  }

  lemma VisitProgress(mem: seq<Frame>, pt: nat, n: Node, end: nat, level: nat)
    requires IsNext(mem, pt, n, end, level)
    ensures End(n) <= VA_NONCANONEND && n.level < 3 && (End(n) > end || (End(n) == end && n.level > level))
  {
    TableInRange(mem, pt, n.level, n.q);
  }

  lemma NoTablesYet(mem: seq<Frame>, pt: nat)
    ensures TablesGiven(mem, pt, 0, 3) == iset{}
  {
  }

  /** The table pages of `pt` below the root lose one reference each. */
  method FreeTables(m: Machine, pt: nat, ghost r0: seq<nat>) returns (ghost end: nat, ghost level: nat)
    requires m.Sized() && Space(m.mem, pt) && Counted(m.mem, r0, pt)
    requires Released(r0, m.refcount, PagesGiven(m.mem, pt, VIRTUAL_END))
    modifies m`refcount
    ensures NoneAfter(m.mem, pt, end, level)
    ensures Released(r0, m.refcount, PagesGiven(m.mem, pt, VIRTUAL_END) + TablesGiven(m.mem, pt, end, level))
  {
    hide PagesGiven, TablesGiven, Space, Released, Table, Span, Closed, NoneAfter;
    end, level := 0, 3;
    SpaceClosed(m.mem, pt);
    var it := new Ptiter(m, pt);
    ghost var pages := PagesGiven(m.mem, pt, VIRTUAL_END);
    NoTablesYet(m.mem, pt);
    assert pages + TablesGiven(m.mem, pt, end, level) == pages;
    while it.Active()
      invariant it.m == m && it.pt == pt && m.mem == old(m.mem) && m.Sized() && it.Valid()
      invariant if it.Active() then IsNext(m.mem, pt, it.Current(), end, level) else NoneAfter(m.mem, pt, end, level)
      invariant Released(r0, m.refcount, pages + TablesGiven(m.mem, pt, end, level))
      invariant end <= VA_NONCANONEND && level <= 3
      decreases VA_NONCANONEND - end, 3 - level
    {
      var f := it.CurrentFrame();
      VisitProgress(m.mem, pt, it.Current(), end, level);
      NextTable(m.mem, r0, pt, it.Current(), f, end, level);
      NotTheConsole(it.va, it.level);
      ghost var given := pages + TablesGiven(m.mem, pt, end, level);
      ReleasedPositive(r0, m.refcount, given, f);
      ReleaseOne(r0, m.refcount, given, f);
      assert given + iset{f} == pages + TablesGiven(m.mem, pt, End(it.Current()), it.Current().level);
      if it.va / Span(it.level) * Span(it.level) != CONSOLE_PFN * PAGESIZE {
        m.Kfree(Some(f));
      }
      end, level := End(it.Current()), it.Current().level;
      it.Next();
    }
  }

  /** `pfree(pt)`: every frame the page table holds loses exactly one reference. */
  method Pfree(m: Machine, pt: nat)
    requires m.Sized() && Space(m.mem, pt) && Counted(m.mem, m.refcount, pt)
    modifies m`refcount
    ensures m.Sized()
    ensures forall f: nat :: f < NPAGES ==>
              m.refcount[f] + (if Holds(m.mem, pt, f) then 1 else 0) == old(m.refcount)[f]
  {
    ghost var r0 := m.refcount;
    FreePages(m, pt);
    ghost var end, level := FreeTables(m, pt, r0);
    EverythingGiven(m.mem, pt, end, level);
    ghost var given := PagesGiven(m.mem, pt, VIRTUAL_END) + TablesGiven(m.mem, pt, end, level);
    hide PagesGiven, TablesGiven, Space, Holds;
    ReleasedPositive(r0, m.refcount, given, pt);
    ReleaseOne(r0, m.refcount, given, pt);
    m.Kfree(Some(pt));
    assert Released(r0, m.refcount, given + iset{pt});
  }
}
