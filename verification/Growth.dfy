/** How a table grows while one address is being mapped. */
module Growth {
  import opened Arithmetic
  import opened Paging
  import opened Physical
  import opened Walks

  /** `f` is some table page of the table at `root`. */
  ghost predicate Owns(mem: seq<Frame>, root: nat, f: nat) {
    exists l: nat, q: nat :: IsTable(mem, root, l, q, f)
  }

  /** No table page is free. */
  ghost predicate TablesHeld(mem: seq<Frame>, refcount: seq<nat>, root: nat)
    requires |mem| == |refcount| == NPAGES
  {
    forall l: nat, q: nat, f: nat :: IsTable(mem, root, l, q, f) ==> !Free(refcount, f)
  }

  /** Every present entry above the bottom level is a link with all permissions. */
  ghost predicate PlainLinks(mem: seq<Frame>, root: nat) {
    forall l: nat, q: nat, f: nat, i: nat ::
      IsTable(mem, root, l, q, f) && l > 0 && i < 512 && mem[f][i].perm.p ==> mem[f][i].perm == PWU
  }

  /** The table pages `g` (by level), all on the way to `va`, are the only new ones. */
  ghost predicate GrownTables(m0: seq<Frame>, m1: seq<Frame>, root: nat, va: nat, g: map<nat, nat>) {
    && (forall l: nat :: l in g ==> l < 3 && Table(m0, root, l, Prefix(va, l)) == None)
    && (forall l: nat, q: nat, f: nat :: IsTable(m1, root, l, q, f) <==>
          IsTable(m0, root, l, q, f) || (l in g && q == Prefix(va, l) && f == g[l]))
  }

  /** The frames of `g` are distinct, were free and now have one reference; no other count changed. */
  ghost predicate GrownCounts(r0: seq<nat>, r1: seq<nat>, g: map<nat, nat>) {
    && |r0| == |r1| == NPAGES
    && (forall l: nat :: l in g ==> Free(r0, g[l]) && r1[g[l]] == 1)
    && (forall l: nat, k: nat :: l in g && k in g && g[l] == g[k] ==> l == k)
    && (forall f: nat :: f < NPAGES && r1[f] != r0[f] ==> f in g.Values)
  }

  /** Frames in use that are not tables of this root keep their contents. */
  ghost predicate OthersKept(m0: seq<Frame>, r0: seq<nat>, m1: seq<Frame>, root: nat) {
    && |m0| == |m1| == |r0| == NPAGES
    && (forall f: nat :: f < NPAGES && !Free(r0, f) && !Owns(m0, root, f) ==> m1[f] == m0[f])
  }

  /** Exactly the table pages `g` were added, from free frames, on the way to `va`; nothing else
      in use changed except tables of this root. */
  ghost predicate Grown(m0: seq<Frame>, r0: seq<nat>, m1: seq<Frame>, r1: seq<nat>, root: nat, va: nat,
                        g: map<nat, nat>) {
    && GrownTables(m0, m1, root, va, g)
    && GrownCounts(r0, r1, g)
    && FreeCount(r1) + |g| == FreeCount(r0)
    && OthersKept(m0, r0, m1, root)
  }

  lemma GrownNot(m0: seq<Frame>, r0: seq<nat>, root: nat, va: nat)
    requires |m0| == |r0| == NPAGES
    ensures Grown(m0, r0, m0, r0, root, va, map[])
  {
  }

  lemma CountsLink(r0: seq<nat>, r1: seq<nat>, g: map<nat, nat>, level: nat, f: nat)
    requires GrownCounts(r0, r1, g) && Free(r1, f) && level !in g
    ensures GrownCounts(r0, r1[f := 1], g[level := f])
    ensures FreeCount(r1[f := 1]) == FreeCount(r1) - 1 && |g[level := f]| == |g| + 1
  {
    TakeFree(r1, f, 1);
    hide FreeCount;
    OneMore(g, level, f);
  }

  lemma OneMore(g: map<nat, nat>, level: nat, f: nat)
    requires level !in g
    ensures var h := g[level := f];
            && |h| == |g| + 1 && h[level] == f && (forall l: nat :: l in h <==> l in g || l == level)
            && (forall l: nat :: l in g ==> h[l] == g[l])
               && (forall x: nat :: x in h.Values <==> x in g.Values || x == f)
  {
    var h := g[level := f];
    assert h.Keys == g.Keys + {level};
    assert h[level] == f;
    forall x: nat | x in g.Values ensures x in h.Values {
      var l: nat :| l in g && g[l] == x;
      assert h[l] == x;
    }
  }

  /** A frame that is free now is no table page. */
  lemma FreeIsNoTable(m0: seq<Frame>, r0: seq<nat>, m1: seq<Frame>, r1: seq<nat>, root: nat, va: nat,
                      g: map<nat, nat>, f: nat)
    requires Grown(m0, r0, m1, r1, root, va, g) && TablesHeld(m0, r0, root) && Free(r1, f)
    ensures forall l: nat, q: nat :: !IsTable(m1, root, l, q, f)
    ensures Free(r0, f)
  {
    assert forall l: nat, q: nat :: IsTable(m0, root, l, q, f) ==> !Free(r0, f);
  }

  /** Writing a table page keeps the contents of all other frames in use. */
  lemma KeptWrite(m0: seq<Frame>, r0: seq<nat>, m1: seq<Frame>, r1: seq<nat>, root: nat, va: nat, g: map<nat, nat>,
                  level: nat, q: nat, t: nat, w: Frame)
    requires Grown(m0, r0, m1, r1, root, va, g) && IsTable(m1, root, level, q, t)
    ensures OthersKept(m0, r0, m1[t := w], root)
  {
    assert !Free(r0, t) ==> Owns(m0, root, t) by {
      assert IsTable(m0, root, level, q, t) || (level in g && g[level] == t);
    }
  }

  lemma GrownLink(m0: seq<Frame>, r0: seq<nat>, m1: seq<Frame>, r1: seq<nat>, root: nat, va: nat, g: map<nat, nat>,
                  level: nat, t: nat, f: nat)
    requires Grown(m0, r0, m1, r1, root, va, g) && TablesHeld(m0, r0, root) && TreeShaped(m1, root)
    requires level < 3 && IsTable(m1, root, level + 1, Prefix(va, level + 1), t)
    requires !IsLink(m1[t][PageIndex(va, level + 1)])
    requires Free(r1, f)
    ensures f != t && level !in g
    ensures var m2 := Linked(m1, t, PageIndex(va, level + 1), f);
            && Grown(m0, r0, m2, r1[f := 1], root, va, g[level := f])
            && TreeShaped(m2, root)
            && forall v: nat :: Leaf(m2, root, v) == Leaf(m1, root, v)
  {
    hide Linked, TreeShaped, Leaf, Table, Prefix, PageIndex, GrownTables, GrownCounts, IsLink, Owns;
    FreeIsNoTable(m0, r0, m1, r1, root, va, g, f);
    assert !IsTable(m1, root, level + 1, Prefix(va, level + 1), f);
    NoTableBelowEntry(m1, root, va, level, t);
    NoTableBefore(m0, m1, root, va, g, level);
    TablesLink(m0, m1, root, va, g, level, t, f);
    CountsLink(r0, r1, g, level, f);
    KeptLink(m0, r0, m1, r1, root, va, g, level + 1, Prefix(va, level + 1), t, PageIndex(va, level + 1), f);
  }

  /** So does linking a free frame from a table page. */
  lemma KeptLink(m0: seq<Frame>, r0: seq<nat>, m1: seq<Frame>, r1: seq<nat>, root: nat, va: nat, g: map<nat, nat>,
                 level: nat, q: nat, t: nat, i: nat, f: nat)
    requires Grown(m0, r0, m1, r1, root, va, g) && IsTable(m1, root, level, q, t) && i < 512
    requires f < |m1| && f != t && f < NPAGES && Free(r0, f)
    ensures OthersKept(m0, r0, Linked(m1, t, i, f), root)
  {
    hide GrownTables, GrownCounts, Table, FreeCount;
    KeptWrite(m0, r0, m1, r1, root, va, g, level, q, t, m1[t][i := Word(f, PWU, 0)]);
    assert Linked(m1, t, i, f) == m1[t := m1[t][i := Word(f, PWU, 0)]][f := Filled(ZERO)];
  }

  lemma NoTableBelowEntry(m: seq<Frame>, root: nat, va: nat, level: nat, t: nat)
    requires level < 3 && IsTable(m, root, level + 1, Prefix(va, level + 1), t)
    requires !IsLink(m[t][PageIndex(va, level + 1)])
    ensures Table(m, root, level, Prefix(va, level)) == None
  {
    PrefixStep(va, level);
  }

  lemma TablesLink(m0: seq<Frame>, m1: seq<Frame>, root: nat, va: nat, g: map<nat, nat>, level: nat, t: nat, f: nat)
    requires GrownTables(m0, m1, root, va, g) && TreeShaped(m1, root)
    requires level < 3 && level !in g && Table(m0, root, level, Prefix(va, level)) == None
    requires IsTable(m1, root, level + 1, Prefix(va, level + 1), t) && f < |m1| && f != t
    requires !IsLink(m1[t][PageIndex(va, level + 1)])
    requires forall l: nat, q: nat :: !IsTable(m1, root, l, q, f)
    ensures var m2 := Linked(m1, t, PageIndex(va, level + 1), f);
            && GrownTables(m0, m2, root, va, g[level := f])
            && TreeShaped(m2, root)
            && forall v: nat :: Leaf(m2, root, v) == Leaf(m1, root, v)
  {
    hide TreeShaped, IsTable, Leaf, Table, Linked, Prefix, PageIndex;
    PrefixStep(va, level);
    LinkTree(m1, root, level, Prefix(va, level), t, f);
  }

  lemma NoTableBefore(m0: seq<Frame>, m1: seq<Frame>, root: nat, va: nat, g: map<nat, nat>, level: nat)
    requires level < 3 && GrownTables(m0, m1, root, va, g) && Table(m1, root, level, Prefix(va, level)) == None
    ensures Table(m0, root, level, Prefix(va, level)) == None && level !in g
  {
    var q := Prefix(va, level);
    assert forall f: nat :: !IsTable(m1, root, level, q, f);
    assert forall f: nat :: !IsTable(m0, root, level, q, f);
    assert forall l: nat :: l in g ==> IsTable(m1, root, l, Prefix(va, l), g[l]);
    var x := Table(m0, root, level, q);
    assert x.Some? ==> IsTable(m0, root, level, q, x.value);
  }

  /** Writing a leaf keeps the growth relation. */
  lemma GrownWrite(m0: seq<Frame>, r0: seq<nat>, m1: seq<Frame>, r1: seq<nat>, root: nat, va: nat, g: map<nat, nat>,
                   t: nat, i: nat, w: Word)
    requires Grown(m0, r0, m1, r1, root, va, g) && TreeShaped(m1, root)
    requires IsTable(m1, root, 0, Prefix(va, 0), t) && i < 512
    ensures var m2 := m1[t := m1[t][i := w]];
            && Grown(m0, r0, m2, r1, root, va, g)
            && TreeShaped(m2, root)
            && forall v: nat :: Leaf(m2, root, v) == if v == 512 * Prefix(va, 0) + i then w else Leaf(m1, root, v)
  {
    LeafWrite(m1, m1[t := m1[t][i := w]], root, Prefix(va, 0), t, i, w);
    KeptWrite(m0, r0, m1, r1, root, va, g, 0, Prefix(va, 0), t, m1[t][i := w]);
  }

  // ----- Closed tables and plain links survive both kinds of write

  lemma LinkClosed(m: seq<Frame>, root: nat, level: nat, q: nat, t: nat, f: nat)
    requires Closed(m, root) && TreeShaped(m, root) && level < 3 && |m| <= 0x10_0000
    requires IsTable(m, root, level + 1, q / 512, t) && f < |m| && f != t
    requires forall l: nat, p: nat :: !IsTable(m, root, l, p, f)
    requires !IsLink(m[t][q % 512])
    ensures Closed(Linked(m, t, q % 512, f), root)
    ensures PlainLinks(m, root) ==> PlainLinks(Linked(m, t, q % 512, f), root)
  {
    LinkTree(m, root, level, q, t, f);
    var m2 := Linked(m, t, q % 512, f);
    forall l: nat, p: nat, x: nat, i: nat | IsTable(m2, root, l, p, x) && i < 512
      ensures m2[x][i] == Word(f, PWU, 0) || m2[x][i] == ZERO || (IsTable(m, root, l, p, x) && m2[x][i] == m[x][i])
    {
    }
  }

  lemma WriteClosed(m: seq<Frame>, root: nat, q: nat, t: nat, i: nat, w: Word)
    requires Closed(m, root) && TreeShaped(m, root)
    requires IsTable(m, root, 0, q, t) && i < 512 && w.pfn < 0x10_0000
    ensures Closed(m[t := m[t][i := w]], root)
    ensures PlainLinks(m, root) ==> PlainLinks(m[t := m[t][i := w]], root)
  {
    LeafWrite(m, m[t := m[t][i := w]], root, q, t, i, w);
  }

  // ----- Walks over changed memory

  /** Writes outside the upper tables of `root` do not change where a walk goes. */
  lemma {:induction false} DescendFrame(m0: seq<Frame>, m1: seq<Frame>, root: nat, level: nat, frame: nat,
                                        perm: Perm, va: nat)
    requires level <= 3 && |m0| == |m1| && IsTable(m0, root, level, Prefix(va, level), frame)
    requires forall l: nat, q: nat, f: nat :: l > 0 && IsTable(m0, root, l, q, f) ==> m1[f] == m0[f]
    ensures Descend(m1, level, frame, perm, va) == Descend(m0, level, frame, perm, va)
    decreases level
  {
    if level > 0 {
      PrefixStep(va, level - 1);
      var e := m0[frame][PageIndex(va, level)];
      if IsLink(e) && e.pfn < |m0| {
        DescendFrame(m0, m1, root, level - 1, e.pfn, perm.And(e.perm), va);
      }
    }
  }

  lemma WalkFrame(m0: seq<Frame>, m1: seq<Frame>, root: nat, va: nat)
    requires |m0| == |m1| && root < |m0|
    requires forall l: nat, q: nat, f: nat :: l > 0 && IsTable(m0, root, l, q, f) ==> m1[f] == m0[f]
    ensures Walk(m1, root, va) == Walk(m0, root, va)
  {
    if Canonical(va) {
      assert IsTable(m0, root, 3, Prefix(va, 3), root);
      DescendFrame(m0, m1, root, 3, root, ALL_PERM, va);
    }
  }

  /** After a zeroed frame is linked where the walk stopped, the walk goes exactly one level further. */
  lemma {:induction false} DescendLink(m: seq<Frame>, root: nat, level: nat, frame: nat, perm: Perm, va: nat, f: nat)
    requires level <= 3 && TreeShaped(m, root) && f < |m| && IsTable(m, root, level, Prefix(va, level), frame)
    requires forall l: nat, q: nat :: !IsTable(m, root, l, q, f)
    requires var c := Descend(m, level, frame, perm, va); c.level > 0 && c.slot.frame != f
    ensures var c := Descend(m, level, frame, perm, va);
            Descend(Linked(m, c.slot.frame, c.slot.index, f), level, frame, perm, va)
            == Cursor(c.level - 1, At(f, PageIndex(va, c.level - 1)), c.perm.And(PWU))
    decreases level
  {
    var c := Descend(m, level, frame, perm, va);
    var e := m[frame][PageIndex(va, level)];
    if level > 0 && IsLink(e) && e.pfn < |m| {
      PrefixStep(va, level - 1);
      LinkElsewhere(m, root, level, frame, perm, va, f);
      DescendLink(m, root, level - 1, e.pfn, perm.And(e.perm), va, f);
    } else {
      LinkHere(m, level, frame, perm, va, f);
    }
  }

  lemma LinkHere(m: seq<Frame>, level: nat, frame: nat, perm: Perm, va: nat, f: nat)
    requires 0 < level <= 3 && frame < |m| && f < |m| && frame != f
    ensures Descend(Linked(m, frame, PageIndex(va, level), f), level, frame, perm, va)
            == Cursor(level - 1, At(f, PageIndex(va, level - 1)), perm.And(PWU))
  {
    var m2 := Linked(m, frame, PageIndex(va, level), f);
    assert m2[frame][PageIndex(va, level)] == Word(f, PWU, 0);
    assert m2[f][PageIndex(va, level - 1)] == ZERO;
  }

  lemma LinkElsewhere(m: seq<Frame>, root: nat, level: nat, frame: nat, perm: Perm, va: nat, f: nat)
    requires 0 < level <= 3 && TreeShaped(m, root) && f < |m| && IsTable(m, root, level, Prefix(va, level), frame)
    requires forall l: nat, q: nat :: !IsTable(m, root, l, q, f)
    requires var c := Descend(m, level, frame, perm, va); c.level < level && c.slot.frame != f
    ensures var c := Descend(m, level, frame, perm, va);
            Linked(m, c.slot.frame, c.slot.index, f)[frame] == m[frame]
  {
    var c := Descend(m, level, frame, perm, va);
    DescendVisits(m, root, level, frame, perm, va);
    assert !IsTable(m, root, level, Prefix(va, level), f);
    assert IsTable(m, root, c.level, Prefix(va, c.level), c.slot.frame);
  }

  lemma WalkLink(m: seq<Frame>, root: nat, va: nat, f: nat)
    requires TreeShaped(m, root) && root < |m| && f < |m| && Canonical(va)
    requires forall l: nat, q: nat :: !IsTable(m, root, l, q, f)
    requires var c := Walk(m, root, va); c.level > 0 && c.slot.frame != f
    ensures var c := Walk(m, root, va);
            Walk(Linked(m, c.slot.frame, c.slot.index, f), root, va)
            == Cursor(c.level - 1, At(f, PageIndex(va, c.level - 1)), c.perm.And(PWU))
  {
    assert IsTable(m, root, 3, Prefix(va, 3), root);
    DescendLink(m, root, 3, root, ALL_PERM, va, f);
  }

  // ----- Hardware translation over changed memory

  /** The entry of table page `f` for `a` is unchanged, or an absent one now refers to a table page without an
      entry for `a`. */
  predicate EntryKept(m0: seq<Frame>, m1: seq<Frame>, f: nat, a: nat, level: nat)
    requires |m0| == |m1| && level <= 3 && f < |m0|
  {
    var e, e' := m0[f][PageIndex(a, level)], m1[f][PageIndex(a, level)];
    || e' == e
    || (level > 0 && !e.perm.p && IsLink(e') && e'.pfn < |m1| && m1[e'.pfn][PageIndex(a, level - 1)] == ZERO)
  }

  /** Every entry that translating `a` may look at is kept. */
  ghost predicate PathKept(m0: seq<Frame>, m1: seq<Frame>, root: nat, a: nat) {
    && |m0| == |m1| && root < |m0|
    && forall l: nat, f: nat :: l <= 3 && f < |m0| && IsTable(m0, root, l, Prefix(a, l), f) ==>
       EntryKept(m0, m1, f, a, l)
  }

  lemma PteKept(m0: seq<Frame>, m1: seq<Frame>, root: nat, f: nat, a: nat, w: bool, u: bool)
    requires PathKept(m0, m1, root, a) && f < |m0| && IsTable(m0, root, 0, Prefix(a, 0), f)
    ensures TranslatePte(m1, f, a, w, u) == TranslatePte(m0, f, a, w, u)
  {
    hide IsTable;
    assert EntryKept(m0, m1, f, a, 0);
  }

  lemma PdeKept(m0: seq<Frame>, m1: seq<Frame>, root: nat, f: nat, a: nat, w: bool, u: bool)
    requires PathKept(m0, m1, root, a) && f < |m0| && IsTable(m0, root, 1, Prefix(a, 1), f)
    ensures TranslatePde(m1, f, a, w, u) == TranslatePde(m0, f, a, w, u)
  {
    var e := m0[f][PageIndex(a, 1)];
    PrefixStep(a, 0);
    if IsLink(e) && e.pfn < |m0| {
      assert IsTable(m0, root, 0, Prefix(a, 0), e.pfn);
      PteKept(m0, m1, root, e.pfn, a, w && e.perm.w, u && e.perm.u);
    }
    hide IsTable, Table, Prefix;
    assert EntryKept(m0, m1, f, a, 1);
  }

  lemma PdpteKept(m0: seq<Frame>, m1: seq<Frame>, root: nat, f: nat, a: nat, w: bool, u: bool)
    requires PathKept(m0, m1, root, a) && f < |m0| && IsTable(m0, root, 2, Prefix(a, 2), f)
    ensures TranslatePdpte(m1, f, a, w, u) == TranslatePdpte(m0, f, a, w, u)
  {
    var e := m0[f][PageIndex(a, 2)];
    PrefixStep(a, 1);
    if IsLink(e) && e.pfn < |m0| {
      assert IsTable(m0, root, 1, Prefix(a, 1), e.pfn);
      PdeKept(m0, m1, root, e.pfn, a, w && e.perm.w, u && e.perm.u);
    }
    hide IsTable, Table, Prefix;
    assert EntryKept(m0, m1, f, a, 2);
  }

  lemma TranslateKept(m0: seq<Frame>, m1: seq<Frame>, root: nat, a: nat)
    requires PathKept(m0, m1, root, a)
    ensures Translate(m1, root, a) == Translate(m0, root, a)
  {
    if Canonical(a) {
      assert IsTable(m0, root, 3, Prefix(a, 3), root);
      var e := m0[root][PageIndex(a, 3)];
      PrefixStep(a, 2);
      if IsLink(e) && e.pfn < |m0| {
        assert IsTable(m0, root, 2, Prefix(a, 2), e.pfn);
        PdpteKept(m0, m1, root, e.pfn, a, e.perm.w, e.perm.u);
      }
      hide IsTable, Table, Prefix;
      assert EntryKept(m0, m1, root, a, 3);
    }
  }

  /** Two memories translate every address alike. */
  ghost predicate SameTranslation(m0: seq<Frame>, m1: seq<Frame>, root: nat) {
    root < |m0| && root < |m1| && forall a: nat :: Translate(m1, root, a) == Translate(m0, root, a)
  }

  /** Hanging an empty table page from an absent entry changes no translation. */
  lemma LinkTranslates(m: seq<Frame>, root: nat, va: nat, level: nat, t: nat, f: nat)
    requires TreeShaped(m, root) && root < |m| && f < |m| && f != t && level < 3 && t < |m|
    requires IsTable(m, root, level + 1, Prefix(va, level + 1), t)
    requires (forall l: nat, q: nat :: !IsTable(m, root, l, q, f)) && !m[t][PageIndex(va, level + 1)].perm.p
    ensures SameTranslation(m, Linked(m, t, PageIndex(va, level + 1), f), root)
  {
    hide Table, Prefix, PageIndex, Linked, Translate;
    var m1 := Linked(m, t, PageIndex(va, level + 1), f);
    LinkedEntries(m, t, PageIndex(va, level + 1), f);
    forall a: nat ensures Translate(m1, root, a) == Translate(m, root, a) {
      forall l: nat, x: nat | l <= 3 && x < |m| && IsTable(m, root, l, Prefix(a, l), x)
        ensures EntryKept(m, m1, x, a, l) {
        assert x == t ==> l == level + 1;
        assert x != f;
      }
      TranslateKept(m, m1, root, a);
    }
  }

  /** Writing a bottom entry changes the translation of its own page only. */
  lemma WriteTranslates(m: seq<Frame>, root: nat, va: nat, t: nat, w: Word, a: nat)
    requires TreeShaped(m, root) && root < |m| && t < |m| && IsTable(m, root, 0, Prefix(va, 0), t)
    requires Vpn(a) != Vpn(va)
    ensures Translate(m[t := m[t][PageIndex(va, 0) := w]], root, a) == Translate(m, root, a)
  {
    VpnSplit(a);
    VpnSplit(va);
    hide Table, Prefix, PageIndex, Translate, Vpn;
    var m1 := m[t := m[t][PageIndex(va, 0) := w]];
    forall l: nat, x: nat | l <= 3 && x < |m| && IsTable(m, root, l, Prefix(a, l), x)
      ensures EntryKept(m, m1, x, a, l) {
      assert x == t ==> l == 0 && Prefix(a, 0) == Prefix(va, 0);
    }
    TranslateKept(m, m1, root, a);
  }

  /** Different pages of canonical addresses have different numbers. */
  lemma PagesDiffer(a: nat, va: nat)
    requires a < ADDRESS_SPACE && va < ADDRESS_SPACE && Canonical(a) && Canonical(va)
    ensures a / PAGESIZE != va / PAGESIZE ==> Vpn(a) != Vpn(va)
  {
    CanonicalVpn(a);
    CanonicalVpn(va);
  }

  lemma CanonicalVpn(a: nat)
    requires a < ADDRESS_SPACE && Canonical(a)
    ensures Vpn(a) == a / PAGESIZE - if a < VA_LOWEND then 0 else 0xF_FFF0_0000_0000
    ensures a < VA_LOWEND <==> Vpn(a) < 0x8_0000_0000
  {
    if a < VA_LOWEND {
      DivUnique(a, VA_NONCANONEND, 0, a);
    } else {
      DivUnique(a, VA_NONCANONEND, 0xFFFF, a - 0xFFFF * VA_NONCANONEND);
    }
  }
}
