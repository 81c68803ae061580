/** `ptiter`: visits the table pages below the root, children before parents, remembering only
    an address and restarting from the root to climb. */
module PtIter {
  import opened Arithmetic
  import opened Paging
  import opened Physical
  import opened Walks

  /** The `q`-th table page of a level (0 to 2, the root excluded). */
  datatype Node = Node(level: nat, q: nat)

  predicate Present(mem: seq<Frame>, pt: nat, n: Node) {
    n.level < 3 && Table(mem, pt, n.level, n.q).Some?
  }

  /** One past the last address a table page serves. */
  function End(n: Node): nat {
    if n.level < 3 then (n.q + 1) * Span(n.level + 1) else 0
  }

  /** Depth-first order, children before parents: by the end of the range served, then by level. */
  predicate After(n: Node, end: nat, level: nat) {
    End(n) > end || (End(n) == end && n.level > level)
  }

  predicate Before(a: Node, b: Node) {
    After(b, End(a), a.level)
  }

  /** `n` is the first table page after the point `(end, level)`. */
  ghost predicate IsNext(mem: seq<Frame>, pt: nat, n: Node, end: nat, level: nat) {
    && Present(mem, pt, n) && After(n, end, level)
    && forall k: Node :: Present(mem, pt, k) && After(k, end, level) ==> k == n || Before(n, k)
  }

  ghost predicate NoneAfter(mem: seq<Frame>, pt: nat, end: nat, level: nat) {
    forall k: Node :: Present(mem, pt, k) ==> !After(k, end, level)
  }

  lemma BeforeIsStrictTotalOrder(a: Node, b: Node, c: Node)
    requires a.level < 3 && b.level < 3 && c.level < 3
    ensures !Before(a, a)
    ensures Before(a, b) && Before(b, c) ==> Before(a, c)
    ensures a == b || Before(a, b) || Before(b, a)
  {
  }

  /** A table page comes after every table page hanging from it. */
  lemma ChildrenFirst(mem: seq<Frame>, pt: nat, n: Node)
    requires Present(mem, pt, n) && n.level < 2
    ensures Present(mem, pt, Node(n.level + 1, n.q / 512)) && Before(n, Node(n.level + 1, n.q / 512))
  {
    TableInRange(mem, pt, n.level, n.q);
  }

  class Ptiter {
    const m: Machine
    const pt: nat
    var slot: Slot    // pep_
    var level: nat    // level_
    var va: nat       // va_

    /** `active()`. */
    predicate Active()
      reads this
    {
      va < VA_NONCANONEND
    }

    ghost predicate OnPath()
      reads this, m
    {
      && m.Sized() && Closed(m.mem, pt)
      && Active() && 1 <= level <= 3 && slot.At?
      && IsTable(m.mem, pt, level, va / Span(level + 1), slot.frame)
      && slot.index == PageIndex(va, level)
    }

    /** The iterator is at a table page (or past the last one). */
    ghost predicate Valid()
      reads this, m
    {
      && m.Sized() && Closed(m.mem, pt)
      && (Active() ==> OnPath() && IsLink(m.mem[slot.frame][slot.index]))
    }

    function Current(): Node
      requires Active() && 1 <= level <= 3
      reads this
    {
      Node(level - 1, va / Span(level))
    }

    /** `pa()`: the frame of the current table page. */
    function CurrentFrame(): (f: nat)
      requires Valid() && Active()
      reads this, m
      ensures f < |m.mem| && IsTable(m.mem, pt, Current().level, Current().q, f) && Present(m.mem, pt, Current())
    {
      PathStep(va, level);
      m.mem[slot.frame][slot.index].pfn
    }

    /** The constructor, that is `go(va)`. */
    constructor (m: Machine, pt: nat, va: nat := 0)
      requires m.Sized() && Closed(m.mem, pt) && va < VA_NONCANONEND
      ensures this.m == m && this.pt == pt && Valid()
      ensures Active() ==> IsNext(m.mem, pt, Current(), va, 3)
      ensures !Active() ==> NoneAfter(m.mem, pt, va, 3)
    {
      this.m, this.pt := m, pt;
      this.level, this.va := 3, va;
      this.slot := At(pt, PageIndex(va, 3));
      new;
      assert IsTable(m.mem, pt, 3, 0, pt);
      Down(false, va, 3);
    }

    /** `next()`: the next table page in depth-first order. */
    method Next()
      requires Valid() && Active()
      modifies this
      ensures Valid()
      ensures Active() ==> IsNext(m.mem, pt, Current(), End(old(Current())), old(Current()).level)
      ensures !Active() ==> NoneAfter(m.mem, pt, End(old(Current())), old(Current()).level)
    {
      Down(true, End(Current()), Current().level);
    }

    /** `down(skip)`. The ghost point `(end, l)` is how far the visit has come. */
    method Down(skip: bool, ghost end: nat, ghost l: nat)
      requires OnPath()
      requires if skip then IsLink(m.mem[slot.frame][slot.index]) && end == End(Current()) && l == Current().level
               else Pending(m.mem, pt, va, end, l)
      modifies this
      ensures Valid()
      ensures Active() ==> IsNext(m.mem, pt, Current(), end, l)
      ensures !Active() ==> NoneAfter(m.mem, pt, end, l)
    {
      hide IsNext, NoneAfter, Pending, Closed, After, Span, Table, Exhausted, End, PageIndex, IsLink;
      var stop := 1;
      var skipping := skip;
      while true
        invariant OnPath() && 1 <= stop <= level
        invariant skipping ==> stop == 1 && IsLink(m.mem[slot.frame][slot.index])
                               && end == End(Current()) && l == Current().level
        invariant !skipping && stop == 1 ==> Pending(m.mem, pt, va, end, l)
        invariant stop > 1 ==> !skipping && IsNext(m.mem, pt, Node(stop - 1, va / Span(stop)), end, l)
        decreases if stop == 1 then 1 else 0, VA_NONCANONEND - va, level
      {
        PathLink(m.mem, pt, va, level, slot.frame);
        if stop > 1 {
          PathPresent(m.mem, pt, va, stop, level, end, l);
        }
        if IsLink(m.mem[slot.frame][slot.index]) && !skipping {
          if level == stop {
            if stop == 1 {
              FirstBottomTable(m.mem, pt, va, end, l);
            }
            break;
          } else {
            level := level - 1;
            slot := At(m.mem[slot.frame][slot.index].pfn, PageIndex(va, level));
          }
        } else {
          var next := (va / Span(level) + 1) * Span(level);
          BlockOrder(va, level);
          Exhaust(m.mem, pt, va, level, skipping, end, l);
          if next / Span(level + 1) != va / Span(level + 1) {
            // up one level
            if level == 3 {
              Finished(m.mem, pt, va, skipping, end, l);
              va := VA_NONCANONEND;
              break;
            }
            Climb(m.mem, pt, va, level, skipping, end, l);
            stop := level + 1;
            level := 3;
            slot := At(pt, PageIndex(va, level));
            RootOnPath(m.mem, pt, va);
          } else {
            Sibling(m.mem, pt, va, level, skipping, end, l);
            slot := At(slot.frame, slot.index + 1);
            va := next;
          }
          skipping := false;
        }
      }
    }
  }

  /** Everything not yet visited ends after `va`. */
  ghost predicate Pending(mem: seq<Frame>, pt: nat, va: nat, end: nat, l: nat) {
    && end <= va
    && forall k: Node :: Present(mem, pt, k) && After(k, end, l) ==> End(k) > va
  }

  /** At entry `va` of level `level`: either it was just visited, or it is no link and what is
      left ends after `va`. */
  ghost predicate Exhausted(mem: seq<Frame>, pt: nat, va: nat, level: nat, visited: bool, end: nat, l: nat)
    requires 1 <= level <= 3
  {
    if visited then end == End(Node(level - 1, va / Span(level))) && l == level - 1
    else Pending(mem, pt, va, end, l) && Table(mem, pt, level - 1, va / Span(level)) == None
  }

  lemma PathStep(va: nat, level: nat)
    requires 1 <= level <= 3 && va < VA_NONCANONEND
    ensures va / Span(level) / 512 == va / Span(level + 1) && va / Span(level) % 512 == PageIndex(va, level)
  {
    PrefixStep(va, level - 1);
  }

  lemma Exhaust(mem: seq<Frame>, pt: nat, va: nat, level: nat, visited: bool, end: nat, l: nat)
    requires 1 <= level <= 3
    requires visited ==> end == End(Node(level - 1, va / Span(level))) && l == level - 1
    requires !visited ==> Pending(mem, pt, va, end, l) && Table(mem, pt, level - 1, va / Span(level)) == None
    ensures Exhausted(mem, pt, va, level, visited, end, l)
  {
  }

  /** The entry for `va` decides whether the next table page on its path exists. */
  lemma PathLink(mem: seq<Frame>, pt: nat, va: nat, level: nat, t: nat)
    requires Closed(mem, pt) && 1 <= level <= 3 && va < VA_NONCANONEND
    requires IsTable(mem, pt, level, va / Span(level + 1), t)
    ensures var e := mem[t][PageIndex(va, level)];
            if IsLink(e)
            then e.pfn < |mem| && IsTable(mem, pt, level - 1, va / Span(level), e.pfn)
                 && Table(mem, pt, level - 1, va / Span(level)) == Some(e.pfn)
            else Table(mem, pt, level - 1, va / Span(level)) == None
  {
    PathStep(va, level);
  }

  lemma RootOnPath(mem: seq<Frame>, pt: nat, va: nat)
    requires Closed(mem, pt) && va < VA_NONCANONEND
    ensures pt < |mem| && IsTable(mem, pt, 3, va / Span(4), pt)
  {
  }

  // ----- Arithmetic of blocks: `d` is the size of a small block, `c d` that of a large one

  /** A small block ending inside the large block `x` is one of its blocks. */
  lemma SmallInLarge(q: nat, x: nat, c: nat, d: nat)
    requires c > 0 && d > 0 && x * (c * d) < (q + 1) * d <= (x + 1) * (c * d)
    ensures q / c == x
  {
    assert x * (c * d) == x * c * d && (x + 1) * (c * d) == (x + 1) * c * d;
    Cancel(x * c, q + 1, d);
    Cancel(q + 1, (x + 1) * c, d);
    assert (x + 1) * c == x * c + c;
    DivUnique(q, c, x, q - x * c);
  }

  /** A large block ending inside the small block `x` ends where that one does. */
  lemma LargeInSmall(q: nat, x: nat, c: nat, d: nat)
    requires c > 0 && d > 0 && x * d < (q + 1) * (c * d) <= (x + 1) * d
    ensures (q + 1) * c == x + 1 && (q + 1) * (c * d) == (x + 1) * d
  {
    assert (q + 1) * (c * d) == (q + 1) * c * d;
    Cancel(x, (q + 1) * c, d);
    Cancel((q + 1) * c, x + 1, d);
  }

  /** Where the block of an entry ends. */
  lemma BlockOrder(va: nat, level: nat)
    requires 1 <= level <= 3 && va < VA_NONCANONEND
    ensures var next := (va / Span(level) + 1) * Span(level);
            && va < next <= VA_NONCANONEND
            && (next / Span(level + 1) == va / Span(level + 1) ==>
                 && next < VA_NONCANONEND
                 && PageIndex(next, level) == PageIndex(va, level) + 1)
            && (next / Span(level + 1) != va / Span(level + 1) ==>
                 next == (va / Span(level + 1) + 1) * Span(level + 1))
            && (level == 3 ==> (next / Span(4) != va / Span(4) <==> next == VA_NONCANONEND))
  {
    var d := Span(level);
    InSpace(va, level);
    BlockEnds(va, d, VA_NONCANONEND / d);
    assert Span(level + 1) == d * 512;
  }

  /** Blocks of size `d` in blocks of size `512 d`, in a space of `n` small blocks. */
  lemma BlockEnds(va: nat, d: nat, n: nat)
    requires d > 0 && va / d < n && n % 512 == 0
    ensures var next := (va / d + 1) * d;
            && va < next <= n * d
            && (next / (d * 512) == va / (d * 512) ==> next < n * d && next / d % 512 == va / d % 512 + 1)
            && (next / (d * 512) != va / (d * 512) ==> next == (va / (d * 512) + 1) * (d * 512))
            && (n == 512 ==> (next / (d * 512) != va / (d * 512) <==> next == n * d))
  {
    var x := va / d;
    Floor(va, d);
    DivUnique((x + 1) * d, d, x + 1, 0);
    DivDiv(va, d, 512);
    DivDiv((x + 1) * d, d, 512);
    Scale(x + 1, n, d);
    Cancel(x + 1, n, d);
    SmallSteps(x, n);
    Rescale(x / 512 + 1, d);
  }

  lemma SmallSteps(x: nat, n: nat)
    requires x < n && n % 512 == 0
    ensures (x + 1) / 512 != x / 512 ==> x + 1 == (x / 512 + 1) * 512
    ensures (x + 1) / 512 == x / 512 ==> (x + 1) % 512 == x % 512 + 1 && x + 1 != n
    ensures n == 512 ==> ((x + 1) / 512 != x / 512 <==> x + 1 == n)
  {
  }

  lemma Rescale(k: nat, d: nat)
    ensures k * 512 * d == k * (d * 512)
  {
  }

  lemma InSpace(va: nat, level: nat)
    requires 1 <= level <= 3 && va < VA_NONCANONEND
    ensures va / Span(level) < VA_NONCANONEND / Span(level)
    ensures VA_NONCANONEND / Span(level) * Span(level) == VA_NONCANONEND && VA_NONCANONEND / Span(level) % 512 == 0
    ensures level == 3 ==> VA_NONCANONEND / Span(level) == 512
  {
  }

  /** The ancestors of a table page are on the path to every address it serves. */
  lemma PathPresent(mem: seq<Frame>, pt: nat, va: nat, stop: nat, level: nat, end: nat, l: nat)
    requires 1 <= stop <= level <= 3 && va < VA_NONCANONEND && IsNext(mem, pt, Node(stop - 1, va / Span(stop)), end, l)
    ensures Table(mem, pt, level - 1, va / Span(level)).Some?
  {
    hide After, Before, Table, Span;
    PathUp(mem, pt, va, stop, level);
  }

  lemma {:induction false} PathUp(mem: seq<Frame>, pt: nat, va: nat, stop: nat, level: nat)
    requires 1 <= stop <= level <= 3 && va < VA_NONCANONEND && Table(mem, pt, stop - 1, va / Span(stop)).Some?
    ensures Table(mem, pt, level - 1, va / Span(level)).Some?
    decreases level
  {
    hide Table, Span;
    if level > stop {
      PathUp(mem, pt, va, stop, level - 1);
      PathStep(va, level - 1);
      TableInRange(mem, pt, level - 2, va / Span(level - 1));
    }
  }

  /** The `c`-th ancestor of a table page that ends inside the block of an entry. */
  lemma SmallEnds(k: Node, va: nat, level: nat)
    requires k.level < level <= 3 && va < End(k) <= (va / Span(level) + 1) * Span(level)
    ensures k.level + 1 == level ==> k.q == va / Span(level)
    ensures k.level + 2 == level ==> k.q / 512 == va / Span(level)
    ensures k.level + 3 == level ==> k.q / 512 / 512 == va / Span(level)
  {
    var e, d := Span(k.level + 1), Span(level);
    Floor(va, d);
    assert d / e * e == d;
    SmallInLarge(k.q, va / d, d / e, e);
    DivDiv(k.q, 512, 512);
  }

  /** A table page that covers more than an entry and ends inside its block ends with it. */
  lemma LargeEnds(k: Node, va: nat, level: nat)
    requires 1 <= level <= k.level < 3 && va < End(k) <= (va / Span(level) + 1) * Span(level)
    ensures End(k) == (va / Span(level) + 1) * Span(level) == (va / Span(level + 1) + 1) * Span(level + 1)
    ensures k.level == level ==> k.q == va / Span(level + 1)
  {
    var d, x := Span(level), va / Span(level);
    var c := Span(k.level + 1) / d;
    Floor(va, d);
    assert c * d == Span(k.level + 1);
    LargeInSmall(k.q, x, c, d);
    DivDiv(va, d, 512);
    LastOfTable(k.q, x, c, d);
  }

  lemma LastOfTable(q: nat, x: nat, c: nat, d: nat)
    requires (q + 1) * c == x + 1 && (c == 512 || c == 512 * 512)
    ensures (x + 1) * d == (x / 512 + 1) * (d * 512) && (c == 512 ==> q == x / 512)
  {
    var y := if c == 512 then q + 1 else (q + 1) * 512;
    assert x + 1 == y * 512;
    DivUnique(x, 512, y - 1, 511);
    assert (y * 512) * d == y * (d * 512);
  }

  /** A table page whose range ends inside the block of an entry hangs from that entry, unless it
      ends together with the whole table page the entry is in. */
  lemma EndsInBlock(mem: seq<Frame>, pt: nat, k: Node, va: nat, level: nat)
    requires Present(mem, pt, k) && 1 <= level <= 3 && va < VA_NONCANONEND
    requires va < End(k) <= (va / Span(level) + 1) * Span(level)
    ensures k.level < level ==> Table(mem, pt, level - 1, va / Span(level)).Some?
    ensures k.level >= level ==>
              End(k) == (va / Span(level) + 1) * Span(level) == (va / Span(level + 1) + 1) * Span(level + 1)
    ensures k.level == level ==> k.q == va / Span(level + 1)
  {
    if k.level < level {
      SmallEnds(k, va, level);
      if k.level + 2 <= level {
        TableInRange(mem, pt, k.level, k.q);
      }
      if k.level + 3 == level {
        TableInRange(mem, pt, k.level + 1, k.q / 512);
      }
    } else {
      LargeEnds(k, va, level);
    }
  }

  lemma FirstBottomTable(mem: seq<Frame>, pt: nat, va: nat, end: nat, l: nat)
    requires va < VA_NONCANONEND && Pending(mem, pt, va, end, l)
    requires Table(mem, pt, 0, va / Span(1)).Some?
    ensures IsNext(mem, pt, Node(0, va / Span(1)), end, l)
  {
    hide Span, Table, End;
    var n := Node(0, va / Span(1));
    NodeEnd(va, 1);
    forall k: Node | Present(mem, pt, k) && After(k, end, l) ensures k == n || Before(n, k) {
      if End(k) <= End(n) {
        if k.level == 0 { SmallEnds(k, va, 1); } else { LargeEnds(k, va, 1); }
      }
    }
  }

  lemma NodeEnd(va: nat, level: nat)
    requires 1 <= level <= 3
    ensures End(Node(level - 1, va / Span(level))) == (va / Span(level) + 1) * Span(level) > va
  {
    Floor(va, Span(level));
  }

  /** The end of a block is not inside it. */
  lemma EndOutside(va: nat, d: nat)
    requires d > 0
    ensures (va / d + 1) * d / d != va / d
  {
    DivUnique((va / d + 1) * d, d, va / d + 1, 0);
  }

  lemma Climb(mem: seq<Frame>, pt: nat, va: nat, level: nat, visited: bool, end: nat, l: nat)
    requires 1 <= level < 3 && va < VA_NONCANONEND && Exhausted(mem, pt, va, level, visited, end, l)
    requires Table(mem, pt, level, va / Span(level + 1)).Some?
    requires (va / Span(level) + 1) * Span(level) == (va / Span(level + 1) + 1) * Span(level + 1)
    ensures IsNext(mem, pt, Node(level, va / Span(level + 1)), end, l)
  {
    var n := Node(level, va / Span(level + 1));
    assert End(n) == (va / Span(level) + 1) * Span(level) > va;
    forall k: Node | Present(mem, pt, k) && After(k, end, l) ensures k == n || Before(n, k) {
      if End(k) <= End(n) {
        assert End(k) > va;
        EndsInBlock(mem, pt, k, va, level);
      }
    }
  }

  lemma Sibling(mem: seq<Frame>, pt: nat, va: nat, level: nat, visited: bool, end: nat, l: nat)
    requires 1 <= level <= 3 && va < VA_NONCANONEND && Exhausted(mem, pt, va, level, visited, end, l)
    requires var next := (va / Span(level) + 1) * Span(level); next / Span(level + 1) == va / Span(level + 1)
    ensures Pending(mem, pt, (va / Span(level) + 1) * Span(level), end, l)
  {
    hide End, Span, Table, Present;
    var next := (va / Span(level) + 1) * Span(level);
    NodeEnd(va, level);
    EndOutside(va, Span(level + 1));
    forall k: Node | Present(mem, pt, k) && After(k, end, l) ensures End(k) > next {
      if End(k) <= next {
        EndsInBlock(mem, pt, k, va, level);
      }
    }
  }

  lemma Finished(mem: seq<Frame>, pt: nat, va: nat, visited: bool, end: nat, l: nat)
    requires va < VA_NONCANONEND && Exhausted(mem, pt, va, 3, visited, end, l)
    requires (va / Span(3) + 1) * Span(3) == VA_NONCANONEND
    ensures NoneAfter(mem, pt, end, l)
  {
    forall k: Node | Present(mem, pt, k) ensures !After(k, end, l) {
      TableInRange(mem, pt, k.level, k.q);
      assert End(k) <= VA_NONCANONEND;
      if After(k, end, l) && !visited {
        EndsInBlock(mem, pt, k, va, 3);
      }
    }
  }

  // ----- A whole traversal

  /** The nodes visited so far are all those up to the point `(end, level)`, in order. */
  ghost predicate VisitedTo(mem: seq<Frame>, pt: nat, nodes: seq<Node>, end: nat, level: nat) {
    && (forall a: nat, b: nat :: a < b < |nodes| ==> Before(nodes[a], nodes[b]))
    && (forall n: Node :: n in nodes <==> Present(mem, pt, n) && !After(n, end, level))
  }

  lemma VisitStep(mem: seq<Frame>, pt: nat, nodes: seq<Node>, n: Node, end: nat, level: nat)
    requires VisitedTo(mem, pt, nodes, end, level) && IsNext(mem, pt, n, end, level)
    ensures VisitedTo(mem, pt, nodes + [n], End(n), n.level)
    ensures End(n) <= VA_NONCANONEND && n.level < 3 && (End(n) > end || (End(n) == end && n.level > level))
  {
    hide End, Present;
    PresentInSpace(mem, pt, n);
    var more := nodes + [n];
    forall a: nat, b: nat | a < b < |more| ensures Before(more[a], more[b]) {
      assert more[a] in nodes;
    }
    forall k: Node ensures k in more <==> Present(mem, pt, k) && !After(k, End(n), n.level) {
      assert k in more <==> k in nodes || k == n;
    }
  }

  lemma PresentInSpace(mem: seq<Frame>, pt: nat, n: Node)
    requires Present(mem, pt, n)
    ensures n.level < 3 && End(n) <= VA_NONCANONEND
  {
    TableInRange(mem, pt, n.level, n.q);
  }

  lemma NothingVisited(mem: seq<Frame>, pt: nat)
    ensures VisitedTo(mem, pt, [], 0, 3)
  {
  }

  /** A loop over the iterator meets every table page below the root exactly once, children first. */
  method VisitAll(m: Machine, pt: nat) returns (nodes: seq<Node>)
    requires m.Sized() && Closed(m.mem, pt)
    ensures forall n: Node :: n in nodes <==> Present(m.mem, pt, n)
    ensures forall a: nat, b: nat :: a < b < |nodes| ==> Before(nodes[a], nodes[b]) && nodes[a] != nodes[b]
    ensures forall a: nat :: a < |nodes| && nodes[a].level < 2 ==>
              exists b: nat :: a < b < |nodes| && nodes[b] == Node(nodes[a].level + 1, nodes[a].q / 512)
  {
    hide Present, After, Before, IsNext, NoneAfter, Closed, VisitedTo;
    ghost var end: nat, level: nat := 0, 3;
    nodes := [];
    NothingVisited(m.mem, pt);
    var it := new Ptiter(m, pt);
    while it.Active()
      invariant it.m == m && it.pt == pt && m.mem == old(m.mem) && it.Valid() && VisitedTo(m.mem, pt, nodes, end, level)
      invariant if it.Active() then IsNext(m.mem, pt, it.Current(), end, level) else NoneAfter(m.mem, pt, end, level)
      invariant end <= VA_NONCANONEND && level <= 3
      decreases VA_NONCANONEND - end, 3 - level
    {
      VisitStep(m.mem, pt, nodes, it.Current(), end, level);
      nodes := nodes + [it.Current()];
      end, level := End(it.Current()), it.Current().level;
      it.Next();
    }
    AllVisited(m.mem, pt, nodes, end, level);
  }

  lemma AllVisited(mem: seq<Frame>, pt: nat, nodes: seq<Node>, end: nat, level: nat)
    requires VisitedTo(mem, pt, nodes, end, level) && NoneAfter(mem, pt, end, level)
    ensures forall n: Node :: n in nodes <==> Present(mem, pt, n)
    ensures forall a: nat, b: nat :: a < b < |nodes| ==> Before(nodes[a], nodes[b]) && nodes[a] != nodes[b]
    ensures forall a: nat :: a < |nodes| && nodes[a].level < 2 ==>
              exists b: nat :: a < b < |nodes| && nodes[b] == Node(nodes[a].level + 1, nodes[a].q / 512)
  {
    hide Present, End;
    forall a: nat | a < |nodes| && nodes[a].level < 2
      ensures exists b: nat :: a < b < |nodes| && nodes[b] == Node(nodes[a].level + 1, nodes[a].q / 512)
    {
      assert nodes[a] in nodes;
      ChildrenFirst(mem, pt, nodes[a]);
      var p := Node(nodes[a].level + 1, nodes[a].q / 512);
      assert p in nodes;
      var b: nat :| b < |nodes| && nodes[b] == p;
      BeforeIsStrictTotalOrder(nodes[a], p, nodes[a]);
    }
  }
}
