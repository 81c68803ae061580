/** x86-64 four-level page tables: the words they are made of, the arithmetic that
    splits an address, and the tree of table pages below a root frame. */
module Paging {
  import opened Arithmetic

  datatype Option<+T> = None | Some(value: T)

  /** The permission bits of an entry that the kernel looks at (PTE_P, PTE_W, PTE_U, PTE_PS). */
  datatype Perm = Perm(p: bool, w: bool, u: bool, ps: bool) {
    /** Bitwise AND. */
    function And(q: Perm): Perm {
      Perm(p && q.p, w && q.w, u && q.u, ps && q.ps)
    }

    /** Every bit of `q` is set here. */
    predicate Covers(q: Perm) {
      (q.p ==> p) && (q.w ==> w) && (q.u ==> u) && (q.ps ==> ps)
    }
  }

  const NO_PERM := Perm(false, false, false, false)
  /** `initial_perm`, that is 0xFFF. */
  const ALL_PERM := Perm(true, true, true, true)
  const PW := Perm(true, true, false, false)
  const PU := Perm(true, false, true, false)
  const PWU := Perm(true, true, true, false)

  /** A 64-bit word of physical memory, split the way the paging hardware reads it:
      the PTE_PAMASK field (as a frame number), the four permission bits, all other bits. */
  datatype Word = Word(pfn: nat, perm: Perm, rest: nat)

  const ZERO := Word(0, NO_PERM, 0)

  /** A physical page: 512 words. */
  type Frame = s: seq<Word> | |s| == 512 witness seq(512, _ => ZERO)

  /** A page filled with one word, as `memset` leaves it. */
  function Filled(w: Word): Frame {
    seq(512, _ => w)
  }

  // ----- Address arithmetic. The masks are powers of two minus one, so the AND, OR and
  // ----- XOR of the header are written with / and %.

  const PAGESIZE: nat := 0x1000
  const ADDRESS_SPACE: nat := 0x1_0000_0000_0000_0000
  const VA_LOWEND: nat := 0x0000_8000_0000_0000
  const VA_HIGHMIN: nat := 0xFFFF_8000_0000_0000
  const VA_NONCANONEND: nat := 0x0001_0000_0000_0000

  /** `pageoffmask(level) + 1`: the bytes covered by one entry of a level-`level` table. */
  function Span(level: nat): (r: nat)
    requires level <= 4
    ensures r > 0
  {
    if level == 0 then 0x1000
    else if level == 1 then 0x20_0000
    else if level == 2 then 0x4000_0000
    else if level == 3 then 0x80_0000_0000
    else VA_NONCANONEND
  }

  function PageIndex(va: nat, level: nat): (r: nat)
    requires level <= 3
    ensures r < 512
  {
    va / Span(level) % 512
  }

  predicate Canonical(va: nat) {
    va < VA_LOWEND || va >= VA_HIGHMIN
  }

  /** Which level-`level` table page serves `va`, counted from the left of that level. */
  function Prefix(va: nat, level: nat): nat
    requires level <= 3
  {
    va % VA_NONCANONEND / Span(level + 1)
  }

  lemma PrefixStep(va: nat, level: nat)
    requires level < 3
    ensures Prefix(va, level) / 512 == Prefix(va, level + 1)
    ensures Prefix(va, level) % 512 == PageIndex(va, level + 1)
  {
    Parts(va, VA_NONCANONEND);
    if level == 0 {
      PrefixDigit(va, Span(1), 512 * 512);
    } else if level == 1 {
      PrefixDigit(va, Span(2), 512);
    } else {
      PrefixDigit(va, Span(3), 1);
    }
  }

  lemma PrefixDigit(va: nat, d: nat, c: nat)
    requires d > 0 && VA_NONCANONEND == c * 512 * d
    ensures va % VA_NONCANONEND / d / 512 == va % VA_NONCANONEND / (d * 512)
    ensures va % VA_NONCANONEND / d % 512 == va / d % 512
  {
    var k, x := va / VA_NONCANONEND, va % VA_NONCANONEND;
    Parts(va, VA_NONCANONEND);
    DivDiv(x, d, 512);
    DigitOfSum(k, x, c, d);
  }

  // ----- The tree of table pages

  /** A present entry of a level >= 1 table that is not a large page. */
  predicate IsLink(e: Word) {
    e.perm.p && !e.perm.ps
  }

  /** The frame of the `q`-th level-`level` table page of the table rooted at `root`. */
  function Table(mem: seq<Frame>, root: nat, level: nat, q: nat): (r: Option<nat>)
    requires level <= 3
    ensures r.Some? ==> r.value < |mem|
    decreases 3 - level
  {
    if level == 3 then
      if q == 0 && root < |mem| then Some(root) else None
    else
      match Table(mem, root, level + 1, q / 512)
      case None => None
      case Some(t) =>
        var e := mem[t][q % 512];
        if IsLink(e) && e.pfn < |mem| then Some(e.pfn) else None
  }

  /** Frame `f` is the `q`-th level-`level` table page. */
  predicate IsTable(mem: seq<Frame>, root: nat, level: nat, q: nat, f: nat) {
    level <= 3 && Table(mem, root, level, q) == Some(f)
  }

  /** The root is a frame, every link stays inside memory, and no entry trips the
      uninitialised-memory check of the walk. */
  ghost predicate Closed(mem: seq<Frame>, root: nat) {
    && root < |mem|
    && forall level: nat, q: nat, f: nat, i: nat :: IsTable(mem, root, level, q, f) && i < 512 ==>
         && mem[f][i].pfn < 0x10_0000
         && (level > 0 && IsLink(mem[f][i]) ==> mem[f][i].pfn < |mem|)
  }

  /** No table page serves two positions. */
  ghost predicate TreeShaped(mem: seq<Frame>, root: nat) {
    forall l1: nat, q1: nat, l2: nat, q2: nat, f: nat ::
      IsTable(mem, root, l1, q1, f) && IsTable(mem, root, l2, q2, f) ==> l1 == l2 && q1 == q2
  }

  /** The entry that maps virtual page `v`; zero where no bottom-level table exists. */
  function Leaf(mem: seq<Frame>, root: nat, v: nat): Word {
    match Table(mem, root, 0, v / 512)
    case None => ZERO
    case Some(t) => mem[t][v % 512]
  }

  lemma {:induction false} TableInRange(mem: seq<Frame>, root: nat, level: nat, q: nat)
    requires level <= 3 && Table(mem, root, level, q).Some?
    ensures q < Span(4) / Span(level + 1)
    ensures level < 3 ==> Table(mem, root, level + 1, q / 512).Some?
    decreases 3 - level
  {
    if level < 3 {
      TableInRange(mem, root, level + 1, q / 512);
    }
  }

  // ----- How writes to memory change the tree

  /** Writing frames that are not tables of `root` leaves its tree and its leaves alone. */
  lemma {:induction false} TableFrame(m0: seq<Frame>, m1: seq<Frame>, root: nat, level: nat, q: nat)
    requires level <= 3 && |m0| == |m1|
    requires forall l: nat, p: nat, f: nat :: l > 0 && IsTable(m0, root, l, p, f) ==> m1[f] == m0[f]
    ensures Table(m1, root, level, q) == Table(m0, root, level, q)
    decreases 3 - level
  {
    if level < 3 {
      TableFrame(m0, m1, root, level + 1, q / 512);
      match Table(m0, root, level + 1, q / 512)
      case None =>
      case Some(t) => assert IsTable(m0, root, level + 1, q / 512, t);
    }
  }

  lemma TreeFrame(m0: seq<Frame>, m1: seq<Frame>, root: nat)
    requires |m0| == |m1|
    requires forall l: nat, p: nat, f: nat :: IsTable(m0, root, l, p, f) ==> m1[f] == m0[f]
    ensures forall l: nat, p: nat :: l <= 3 ==> Table(m1, root, l, p) == Table(m0, root, l, p)
    ensures forall l: nat, p: nat, f: nat :: IsTable(m1, root, l, p, f) <==> IsTable(m0, root, l, p, f)
    ensures forall v: nat :: Leaf(m1, root, v) == Leaf(m0, root, v)
  {
    forall l: nat, p: nat | l <= 3 ensures Table(m1, root, l, p) == Table(m0, root, l, p) {
      TableFrame(m0, m1, root, l, p);
    }
    forall v: nat ensures Leaf(m1, root, v) == Leaf(m0, root, v) {
      match Table(m0, root, 0, v / 512)
      case None =>
      case Some(t) => assert IsTable(m0, root, 0, v / 512, t);
    }
  }

  /** Writing entry `i` of the bottom-level table `q` changes exactly leaf `512 q + i`. */
  lemma LeafWrite(m0: seq<Frame>, m1: seq<Frame>, root: nat, q: nat, t: nat, i: nat, w: Word)
    requires TreeShaped(m0, root) && IsTable(m0, root, 0, q, t) && i < 512
    requires m1 == m0[t := m0[t][i := w]]
    ensures forall l: nat, p: nat :: l <= 3 ==> Table(m1, root, l, p) == Table(m0, root, l, p)
    ensures forall l: nat, p: nat, f: nat :: IsTable(m1, root, l, p, f) <==> IsTable(m0, root, l, p, f)
    ensures forall v: nat :: Leaf(m1, root, v) == if v == 512 * q + i then w else Leaf(m0, root, v)
  {
    forall l: nat, p: nat | l <= 3 ensures Table(m1, root, l, p) == Table(m0, root, l, p) {
      TableFrame(m0, m1, root, l, p);
    }
    forall v: nat ensures Leaf(m1, root, v) == if v == 512 * q + i then w else Leaf(m0, root, v) {
      match Table(m0, root, 0, v / 512)
      case None =>
      case Some(f) =>
        assert IsTable(m0, root, 0, v / 512, f);
        if f == t {
          assert v / 512 == q;
        }
    }
  }

  /** Memory after a zeroed frame `g` has been linked from entry `i` of table frame `t`. */
  function Linked(mem: seq<Frame>, t: nat, i: nat, g: nat): (r: seq<Frame>)
    requires t < |mem| && g < |mem| && t != g && i < 512
    ensures |r| == |mem|
  {
    mem[g := Filled(ZERO)][t := mem[t][i := Word(g, PWU, 0)]]
  }

  /** Linking a fresh zeroed frame where no link was adds exactly one table page. */
  lemma {:induction false} LinkTable(m0: seq<Frame>, root: nat, level: nat, q: nat, t: nat, g: nat, l: nat, p: nat)
    requires level < 3 && l <= 3 && TreeShaped(m0, root)
    requires IsTable(m0, root, level + 1, q / 512, t) && g < |m0| && g != t
    requires forall l: nat, p: nat :: !IsTable(m0, root, l, p, g)
    requires !IsLink(m0[t][q % 512])
    ensures Table(Linked(m0, t, q % 512, g), root, l, p) ==
            if l == level && p == q then Some(g) else Table(m0, root, l, p)
    decreases 3 - l
  {
    if l < 3 {
      LinkTable(m0, root, level, q, t, g, l + 1, p / 512);
      LinkTableStep(m0, root, level, q, t, g, l, p);
    } else {
      assert root < |m0| ==> !IsTable(m0, root, 3, 0, g);
    }
  }

  lemma LinkedEntries(mem: seq<Frame>, t: nat, i: nat, g: nat)
    requires t < |mem| && g < |mem| && t != g && i < 512
    ensures forall f: nat, j: nat :: f < |mem| && j < 512 ==>
              Linked(mem, t, i, g)[f][j] == if f == g then ZERO else if f == t
                  && j == i then Word(g, PWU, 0) else mem[f][j]
  {
  }

  lemma LinkTableStep(m0: seq<Frame>, root: nat, level: nat, q: nat, t: nat, g: nat, l: nat, p: nat)
    requires level < 3 && l < 3 && TreeShaped(m0, root)
    requires IsTable(m0, root, level + 1, q / 512, t) && g < |m0| && g != t
    requires forall l: nat, p: nat :: !IsTable(m0, root, l, p, g)
    requires !IsLink(m0[t][q % 512])
    requires Table(Linked(m0, t, q % 512, g), root, l + 1, p / 512) ==
             if l + 1 == level && p / 512 == q then Some(g) else Table(m0, root, l + 1, p / 512)
    ensures Table(Linked(m0, t, q % 512, g), root, l, p) ==
            if l == level && p == q then Some(g) else Table(m0, root, l, p)
  {
    hide Linked, Filled, Table, IsLink;
    LinkedEntries(m0, t, q % 512, g);
    TableStep(m0, root, l, p);
    TableStep(Linked(m0, t, q % 512, g), root, l, p);
    IsLinkOf(g);
    if l + 1 == level && p / 512 == q {
      TableStep(m0, root, level, q);
    } else {
      var f := Table(m0, root, l + 1, p / 512);
      assert f.Some? ==> IsTable(m0, root, l + 1, p / 512, f.value);
    }
  }

  lemma TableStep(mem: seq<Frame>, root: nat, l: nat, p: nat)
    requires l < 3
    ensures var f := Table(mem, root, l + 1, p / 512);
            Table(mem, root, l, p) == if f.Some? && IsLink(mem[f.value][p % 512]) && mem[f.value][p % 512].pfn < |mem|
                                      then Some(mem[f.value][p % 512].pfn) else None
  {
  }

  lemma IsLinkOf(g: nat)
    ensures IsLink(Word(g, PWU, 0)) && !IsLink(ZERO)
  {
  }

  lemma LinkTree(m0: seq<Frame>, root: nat, level: nat, q: nat, t: nat, g: nat)
    requires level < 3 && TreeShaped(m0, root)
    requires IsTable(m0, root, level + 1, q / 512, t) && g < |m0| && g != t
    requires forall l: nat, p: nat :: !IsTable(m0, root, l, p, g)
    requires !IsLink(m0[t][q % 512])
    ensures Table(m0, root, level, q) == None
    ensures var m1 := Linked(m0, t, q % 512, g);
            && TreeShaped(m1, root)
            && (forall l: nat, p: nat, f: nat :: IsTable(m1, root, l, p, f) <==>
                 IsTable(m0, root, l, p, f) || (l == level && p == q && f == g))
            && (forall v: nat :: Leaf(m1, root, v) == Leaf(m0, root, v))
  {
    var m1 := Linked(m0, t, q % 512, g);
    forall l: nat, p: nat, f: nat ensures IsTable(m1, root, l, p, f) <==>
                 IsTable(m0, root, l, p, f) || (l == level && p == q && f == g) {
      if l <= 3 { LinkTable(m0, root, level, q, t, g, l, p); }
    }
    forall v: nat ensures Leaf(m1, root, v) == Leaf(m0, root, v) {
      LinkTable(m0, root, level, q, t, g, 0, v / 512);
      match Table(m0, root, 0, v / 512)
      case None =>
      case Some(f) => assert IsTable(m0, root, 0, v / 512, f);
    }
  }
}
