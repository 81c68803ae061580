/** `vmiter`: an iterator over the virtual addresses of a page table that reuses its last walk. */
module VmIter {
  import opened Arithmetic
  import opened Paging
  import opened Physical
  import opened Walks
  import opened Growth

  class Vmiter {
    const m: Machine
    const pt: nat
    var slot: Slot     // pep_
    var level: nat     // level_
    var perm: Perm     // perm_
    var va: nat        // va_

    function Cur(): Cursor
      reads this
    {
      Cursor(level, slot, perm)
    }

    /** The page table can be walked without leaving memory. */
    ghost predicate Ready()
      reads m
    {
      m.Sized() && Closed(m.mem, pt)
    }

    /** The iterator's state is that of a walk from the root. */
    ghost predicate Fresh()
      reads this, m
    {
      && Ready()
      && va < ADDRESS_SPACE
      && Cur() == Walk(m.mem, pt, va)
    }

    constructor (m: Machine, pt: nat, va: nat := 0)
      requires m.Sized() && Closed(m.mem, pt) && va < ADDRESS_SPACE
      ensures this.m == m && this.pt == pt && this.va == va && Fresh()
    {
      this.m, this.pt := m, pt;
      this.slot, this.level, this.perm, this.va := At(pt, 0), 3, ALL_PERM, 0;
      new;
      RealFind(va);
    }

    function CurrentPa(): (r: Option<nat>)
      requires Fresh()
      reads this, m
    {
      Pa(m.mem, Cur(), va)
    }

    function CurrentPerm(): Perm
      requires Fresh()
      reads this, m
    {
      EffectivePerm(m.mem, Cur())
    }

    /** `perm(p)`, of which `user()` and `writable()` are instances. */
    predicate Has(q: Perm)
      requires Fresh()
      reads this, m
    {
      Allows(m.mem, Cur(), q)
    }

    /** `last_va()`, with 64-bit wrap-around. */
    function LastVa(): (r: nat)
      requires level <= 3
      reads this
      ensures va < ADDRESS_SPACE ==>
                var span := [0x1000, 0x20_0000, 0x4000_0000, 0x80_0000_0000][level];
                r % span == 0 && if r == 0 then va + span >= ADDRESS_SPACE else va < r <= va + span
    {
      EntryEnd(va, level);
      EndOf(va, level) % ADDRESS_SPACE
    }

    /** `down()`: follow links to the entry that decides `va`. */
    method Down()
      requires Ready() && level <= 3 && va < ADDRESS_SPACE
      requires slot.At? ==>
                 IsTable(m.mem, pt, level, Prefix(va, level), slot.frame) && slot.index == PageIndex(va, level)
      modifies this`slot, this`level, this`perm
      ensures old(slot.ZeroEntry?) ==> Cur() == old(Cur())
      ensures old(slot.At?) ==> Cur() == Descend(m.mem, old(level), old(slot.frame), old(perm), va)
    {
      ghost var goal := if slot.At? then Descend(m.mem, level, slot.frame, perm, va) else Cur();
      while level > 0 && IsLink(Entry(m.mem, slot))
        invariant level <= 3
        invariant slot.At? ==>
                    IsTable(m.mem, pt, level, Prefix(va, level), slot.frame) && slot.index == PageIndex(va, level)
        invariant slot.ZeroEntry? ==> Cur() == goal
        invariant slot.At? ==> Descend(m.mem, level, slot.frame, perm, va) == goal
      {
        var e := Entry(m.mem, slot);
        perm := perm.And(e.perm);
        level := level - 1;
        PrefixStep(va, level);
        slot := At(e.pfn, PageIndex(va, level));
      }
      // the uninitialised-memory panic does not fire
      assert Entry(m.mem, slot).pfn < 0x10_0000;
    }

    /** `real_find(va)`, also `find`: reuse the current table page when it serves the new address. */
    method RealFind(newVa: nat)
      requires Ready() && newVa < ADDRESS_SPACE && va < ADDRESS_SPACE && (level == 3 || Fresh())
      modifies this
      ensures va == newVa && Fresh()
    {
      if level == 3 || va / Span(level + 1) != newVa / Span(level + 1) {
        level := 3;
        if Canonical(newVa) {
          perm := ALL_PERM;
          slot := At(pt, PageIndex(newVa, level));
        } else {
          perm := NO_PERM;
          slot := ZeroEntry;
        }
        assert IsTable(m.mem, pt, 3, Prefix(newVa, 3), pt);
      } else {
        WalkShared(m.mem, pt, va, newVa);
        WalkVisits(m.mem, pt, va);
        PrefixOfBlock(va, newVa, level);
        var curidx: int := slot.index;
        slot := At(slot.frame, curidx + (PageIndex(newVa, level) - curidx));
      }
      va := newVa;
      Down();
    }

    /** `operator+=`. */
    method Advance(delta: int)
      requires Fresh()
      modifies this
      ensures va == (old(va) + delta) % ADDRESS_SPACE && Fresh()
    {
      RealFind((va + delta) % ADDRESS_SPACE);
    }

    /** `next()`: skip a whole absent entry, or go to the next page. */
    method Next()
      requires Fresh()
      modifies this
      ensures Fresh()
      ensures va == NextVa(m.mem, pt, old(va))
      ensures va == if old(level) > 0 && !old(Entry(m.mem, slot).perm.p) then old(LastVa())
                    else (old(va) / 0x1000 + 1) * 0x1000 % ADDRESS_SPACE
    {
      var l := 0;
      if level > 0 && CurrentPerm() == NO_PERM {
        l := level;
      }
      RealFind(EndOf(va, l) % ADDRESS_SPACE);
    }

    /** `next_range()`. */
    method NextRange()
      requires Fresh()
      modifies this
      ensures Fresh() && va == old(LastVa())
    {
      RealFind(LastVa());
    }

    /** `perm(last_va, p)`: are all permissions enabled up to `lastVa`? If they are, the entry of the last address
        must end before the end of the address space, because the source would go on at address 0. */
    method RangePerm(lastVa: nat, q: Perm) returns (r: bool)
      requires Fresh() && lastVa < ADDRESS_SPACE
      requires va < lastVa && AllAllow(m.mem, pt, va, lastVa, q) ==>
                 EndOf(lastVa - 1, Walk(m.mem, pt, lastVa - 1).level) < ADDRESS_SPACE
      modifies this
      ensures Fresh()
      ensures r <==> AllAllow(m.mem, pt, old(va), lastVa, q)
    {
      hide EndOf, Span, Allows, Walk;
      ghost var first := va;
      while va < lastVa
        invariant Fresh() && first <= va
        invariant AllAllow(m.mem, pt, first, if va < lastVa then va else lastVa, q)
        decreases lastVa - va
      {
        if !Has(q) {
          assert !Allows(m.mem, Walk(m.mem, pt, va), q);
          return false;
        }
        ExtendAllow(m.mem, pt, first, va, lastVa, q);
        NextRange();
      }
      return true;
    }

    /** `low_perm(first, last, p)`. */
    method LowPerm(firstVa: nat, lastVa: nat, q: Perm) returns (r: bool)
      requires Fresh() && firstVa < ADDRESS_SPACE && lastVa < ADDRESS_SPACE
      modifies this
      ensures Fresh()
      ensures r <==> firstVa <= lastVa <= VA_LOWEND && AllAllow(m.mem, pt, firstVa, lastVa, q)
    {
      if !(firstVa <= lastVa && lastVa <= VA_LOWEND) {
        return false;
      }
      if firstVa == lastVa {
        return true;
      }
      RealFind(firstVa);
      BlockEnd(lastVa - 1, Walk(m.mem, pt, lastVa - 1).level);
      r := RangePerm(lastVa, q);
    }

    /** `try_map(pa, perm)`: `target` is the frame of `pa`, None for -1. The ghost result names
        the table pages that were added, by level. */
    method TryMap(target: Option<nat>, q: Perm) returns (ok: bool, ghost g: map<nat, nat>)
      requires Fresh() && TreeShaped(m.mem, pt) && TablesHeld(m.mem, m.refcount, pt)
      requires (Canonical(va) || q == NO_PERM) && va % PAGESIZE == 0
      requires q.p ==> target.Some?
      requires target.Some? ==> target.value < 0x10_0000
      requires target.None? ==> q == NO_PERM
      requires perm.Covers(q.And(PWU))
      requires level > 0 && q != NO_PERM ==> !Entry(m.mem, slot).perm.p
      modifies this, m
      ensures Fresh() && TreeShaped(m.mem, pt) && va == old(va)
      ensures PlainLinks(old(m.mem), pt) ==> PlainLinks(m.mem, pt)
      ensures Grown(old(m.mem), old(m.refcount), m.mem, m.refcount, pt, va, g)
      ensures forall v: nat :: Leaf(m.mem, pt, v) ==
                if ok && v == Vpn(va) && level == 0 then Word(if target.Some? then target.value else 0, q, 0)
                else Leaf(old(m.mem), pt, v)
      ensures forall a: nat :: a < ADDRESS_SPACE && (!ok || level > 0 || a / PAGESIZE != va / PAGESIZE) ==>
                Translate(m.mem, pt, a) == Translate(old(m.mem), pt, a)
      ensures ok && q.p ==> Translate(m.mem, pt, va) == Some(Access(target.value * PAGESIZE, q.w, q.u))
      ensures q == NO_PERM ==> ok && g == map[] && level == old(level)
      ensures q != NO_PERM && ok ==> level == 0 && |g| == old(level)
      ensures !ok ==> |g| < old(level) && FreeCount(m.refcount) == 0 && level > 0
      ensures old(level) == 0 ==>
                && ok && m.refcount == old(m.refcount) && old(slot.At?)
                && m.mem == old(m.mem)[old(slot.frame) :=
                     old(m.mem)[old(slot.frame)][old(slot.index) :=
                       Word(if target.Some? then target.value else 0, q, 0)]]
    {
      hide Translate, Grown, TreeShaped, PlainLinks, Leaf, Closed, TablesHeld, Progress;
      g := map[];
      ghost var m0, r0 := m.mem, m.refcount;
      ProgressBegins(m0, r0, pt, va);
      while level > 0 && q != NO_PERM
        invariant Fresh() && Progress(m0, r0, m.mem, m.refcount, pt, va, g)
        invariant va == old(va) && level + |g| == old(level)
        invariant old(level) == 0 ==> m.refcount == r0 && m.mem == m0 && slot == old(slot)
        invariant q == NO_PERM ==> g == map[]
        invariant level > 0 && q != NO_PERM ==> !Entry(m.mem, slot).perm.p
        invariant perm.Covers(q.And(PWU))
        decreases level
      {
        ok, g := AddTable(m0, r0, g);
        if !ok {
          ProgressMeans(m0, r0, m.mem, m.refcount, pt, va, g);
          return;
        }
      }
      ProgressMeans(m0, r0, m.mem, m.refcount, pt, va, g);
      if level == 0 {
        BottomIsCanonical(m.mem, pt, va);
        WriteStep(m0, r0, m.mem, m.refcount, pt, va, g, Word(if target.Some? then target.value else 0, q, 0));
        m.mem := m.mem[slot.frame := m.mem[slot.frame][slot.index :=
          Word(if target.Some? then target.value else 0, q, 0)]];
        OtherPagesSame(m0, m.mem, pt, va);
        if q.p { MappedTranslates(m.mem, pt, va, target.value, q); }
      }
      ok := true;
    }

    /** One pass of the loop of `try_map`: hang a zeroed table page from the absent entry and follow it. */
    method AddTable(ghost m0: seq<Frame>, ghost r0: seq<nat>, ghost g: map<nat, nat>)
      returns (ok: bool, ghost h: map<nat, nat>)
      requires Fresh() && Progress(m0, r0, m.mem, m.refcount, pt, va, g) && TablesHeld(m0, r0, pt)
      requires Canonical(va) && level > 0 && !Entry(m.mem, slot).perm.p
      modifies this, m
      ensures Fresh() && va == old(va) && Progress(m0, r0, m.mem, m.refcount, pt, va, h)
      ensures ok ==> level == old(level) - 1 && |h| == |g| + 1 && !Entry(m.mem, slot).perm.p
      ensures ok ==> perm == old(perm).And(PWU)
      ensures !ok ==> FreeCount(m.refcount) == 0 && level == old(level) && h == g
    {
      hide Grown, TreeShaped, PlainLinks, TablesHeld, Progress, Leaf, Linked, Descend, IsTable, Free, FreeCount;
      ghost var m1 := m.mem;
      ghost var r1 := m.refcount;
      var t := m.Kalloc(PAGESIZE);
      if t.None? {
        return false, g;
      }
      LinkStep(m0, r0, m1, r1, pt, va, g, t.value);
      LinkedOver(m1, slot.frame, slot.index, t.value, m.mem[t.value]);
      WriteLink(t.value);
      ghost var m2 := Linked(m1, slot.frame, slot.index, t.value);
      assert m.mem == m2;
      assert m.refcount == r1[t.value := 1];
      ProgressCloses(m0, r0, m2, m.refcount, pt, va, g[level - 1 := t.value]);
      Down();
      assert m.mem == m2;
      ok, h := true, g[old(level) - 1 := t.value];
    }

    /** Zero the new table page and let the entry refer to it with all permissions. */
    method WriteLink(t: nat)
      requires m.Sized() && slot.At? && slot.frame < NPAGES && slot.index < 512 && t < NPAGES && slot.frame != t
      modifies m`mem
      ensures m.mem == Linked(old(m.mem), slot.frame, slot.index, t)
    {
      m.mem := m.mem[t := Filled(ZERO)];
      m.mem := m.mem[slot.frame := m.mem[slot.frame][slot.index := Word(t, PWU, 0)]];
    }
  }

  /** The table has grown by `g` and maps what it did; its shape is kept. */
  ghost predicate Progress(m0: seq<Frame>, r0: seq<nat>, m1: seq<Frame>, r1: seq<nat>, pt: nat, va: nat,
                           g: map<nat, nat>) {
    && Grown(m0, r0, m1, r1, pt, va, g)
    && TreeShaped(m1, pt) && Closed(m1, pt)
    && (PlainLinks(m0, pt) ==> PlainLinks(m1, pt))
    && (forall v: nat :: Leaf(m1, pt, v) == Leaf(m0, pt, v))
    && SameTranslation(m0, m1, pt)
  }

  lemma ProgressBegins(m0: seq<Frame>, r0: seq<nat>, pt: nat, va: nat)
    requires |m0| == |r0| == NPAGES && Closed(m0, pt) && TreeShaped(m0, pt)
    ensures Progress(m0, r0, m0, r0, pt, va, map[])
  {
    GrownNot(m0, r0, pt, va);
  }

  /** What progress means where no entry was written. */
  lemma ProgressMeans(m0: seq<Frame>, r0: seq<nat>, m1: seq<Frame>, r1: seq<nat>, pt: nat, va: nat, g: map<nat, nat>)
    requires Progress(m0, r0, m1, r1, pt, va, g)
    ensures Grown(m0, r0, m1, r1, pt, va, g) && TreeShaped(m1, pt) && Closed(m1, pt) && pt < |m0| && pt < |m1|
    ensures (PlainLinks(m0, pt) ==> PlainLinks(m1, pt)) && forall v: nat :: Leaf(m1, pt, v) == Leaf(m0, pt, v)
    ensures forall a: nat :: Translate(m1, pt, a) == Translate(m0, pt, a)
  {
    hide Grown, TreeShaped, PlainLinks, Closed, Leaf, Translate;
  }

  lemma ProgressCloses(m0: seq<Frame>, r0: seq<nat>, m1: seq<Frame>, r1: seq<nat>, pt: nat, va: nat, g: map<nat, nat>)
    requires Progress(m0, r0, m1, r1, pt, va, g)
    ensures Closed(m1, pt)
  {
  }

  /** What the new table page held before it was zeroed does not matter. */
  lemma LinkedOver(m: seq<Frame>, t: nat, i: nat, f: nat, x: Frame)
    requires t < |m| && i < 512 && f < |m| && t != f
    ensures Linked(m[f := x], t, i, f) == Linked(m, t, i, f)
  {
  }

  /** Where `next()` goes. */
  function NextVa(mem: seq<Frame>, pt: nat, va: nat): nat
    requires pt < |mem|
  {
    NextEnd(mem, pt, va) % ADDRESS_SPACE
  }

  /** The same before the 64-bit wrap-around: the end of an absent entry, or of the page. */
  function NextEnd(mem: seq<Frame>, pt: nat, va: nat): nat
    requires pt < |mem|
  {
    var c := Walk(mem, pt, va);
    EndOf(va, if c.level > 0 && EffectivePerm(mem, c) == NO_PERM then c.level else 0)
  }

  lemma ModDiv(a: nat, c: nat, d: nat)
    requires c > 0 && d > 0
    ensures c * d > 0 && a / d == a / (c * d) * c + a % (c * d) / d
  {
    DivDiv(a, d, c);
    assert d * c == c * d;
    var k, x := a / (c * d), a % (c * d);
    var y, z := x / d, x % d;
    assert x == y * d + z;
    Distribute(k, c, d, y);
    DivUnique(a, d, k * c + y, z);
  }

  lemma Distribute(k: nat, c: nat, d: nat, y: nat)
    ensures k * (c * d) + y * d == (k * c + y) * d
  {
    assert k * (c * d) == k * c * d;
  }

  lemma PrefixOfBlock(a: nat, b: nat, level: nat)
    requires level <= 3 && a / Span(level + 1) == b / Span(level + 1)
    ensures Prefix(a, level) == Prefix(b, level)
  {
    if level < 3 {
      SameBlock(a, b, level + 1, 4);
      var c := VA_NONCANONEND / Span(level + 1);
      assert c * Span(level + 1) == VA_NONCANONEND;
      ModDiv(a, c, Span(level + 1));
      ModDiv(b, c, Span(level + 1));
    }
  }

  /** One past the last address covered by the level-`level` entry for `va`. */
  function EndOf(va: nat, level: nat): nat
    requires level <= 3
  {
    (va / Span(level) + 1) * Span(level)
  }

  /** The next multiple of the entry's span, 0 for the end of the address space. */
  lemma EntryEnd(va: nat, level: nat)
    requires level <= 3
    ensures va < ADDRESS_SPACE ==>
              var r, span := EndOf(va, level) % ADDRESS_SPACE, [0x1000, 0x20_0000, 0x4000_0000, 0x80_0000_0000][level];
              r % span == 0 && if r == 0 then va + span >= ADDRESS_SPACE else va < r <= va + span
  {
    if va < ADDRESS_SPACE {
      NextMultiple(va, Span(level), ADDRESS_SPACE / Span(level));
    }
  }

  lemma NextMultiple(va: nat, span: nat, c: nat)
    requires span > 0 && va < c * span
    ensures var e := (va / span + 1) * span; va < e <= va + span && e % span == 0 && e <= c * span
  {
    var k := va / span;
    Parts(va, span);
    More(k, span);
    DivUnique((k + 1) * span, span, k + 1, 0);
    if k >= c { Scale(c, k, span); }
    Scale(k + 1, c, span);
  }

  lemma BlockEnd(va: nat, level: nat)
    requires level <= 3
    ensures va < EndOf(va, level)
    ensures va < VA_LOWEND ==> EndOf(va, level) <= VA_LOWEND
  {
  }

  lemma BlockMember(va: nat, level: nat, a: nat)
    requires level <= 3 && va <= a < EndOf(va, level)
    ensures a / Span(level) == va / Span(level)
  {
    DivUnique(a, Span(level), va / Span(level), a - va / Span(level) * Span(level));
  }

  /** Every address up to the end of the entry's block is decided by the same entry. */
  lemma BlockWalk(mem: seq<Frame>, pt: nat, va: nat)
    requires pt < |mem|
    ensures var c := Walk(mem, pt, va); var end := EndOf(va, c.level);
            && va < end && (va < VA_LOWEND ==> end <= VA_LOWEND)
            && forall a :: va <= a < end ==> Walk(mem, pt, a) == c
  {
    var c := Walk(mem, pt, va);
    BlockEnd(va, c.level);
    forall a | va <= a < EndOf(va, c.level) ensures Walk(mem, pt, a) == c {
      BlockMember(va, c.level, a);
      WalkUniform(mem, pt, va, a);
    }
  }

  /** Every address of a range has the permissions `q`. */
  ghost predicate AllAllow(mem: seq<Frame>, pt: nat, first: nat, last: nat, q: Perm)
    requires pt < |mem|
  {
    forall a: nat :: first <= a < last ==> Allows(mem, Walk(mem, pt, a), q)
  }

  /** In terms of the hardware, where no walk stops at a reserved bit: every address of the range is mapped, for
      writing and for user code if that is asked for. */
  lemma AllAllowIff(mem: seq<Frame>, pt: nat, first: nat, last: nat, q: Perm)
    requires Closed(mem, pt) && q.p && !q.ps
    requires forall a: nat :: first <= a < last ==>
               !ReservedBitSet(Entry(mem, Walk(mem, pt, a).slot), Walk(mem, pt, a).level)
    ensures AllAllow(mem, pt, first, last, q) <==>
              forall a: nat :: first <= a < last ==>
                var x := Translate(mem, pt, a);
                x.Some? && (q.w ==> x.value.writable) && (q.u ==> x.value.user)
  {
    forall a: nat | first <= a < last
      ensures Allows(mem, Walk(mem, pt, a), q) <==>
                var x := Translate(mem, pt, a);
                x.Some? && (q.w ==> x.value.writable) && (q.u ==> x.value.user)
    {
      WalkMatchesHardware(mem, pt, a);
      hide Walk, Translate, Closed;
      AllowsByBits(mem, Walk(mem, pt, a), q);
    }
  }

  lemma AllowsByBits(mem: seq<Frame>, c: Cursor, q: Perm)
    requires InMemory(mem, c.slot) && q.p && !q.ps
    ensures Allows(mem, c, q) <==>
              && Allows(mem, c, Perm(true, false, false, false))
              && (q.w ==> Allows(mem, c, PW)) && (q.u ==> Allows(mem, c, PU))
    ensures Allows(mem, c, Perm(true, false, false, false)) ==> Entry(mem, c.slot).perm.p
    ensures c.perm.p && Entry(mem, c.slot).perm.p ==> Allows(mem, c, Perm(true, false, false, false))
  {
  }

  /** One entry decides a whole block of addresses. */
  lemma ExtendAllow(mem: seq<Frame>, pt: nat, first: nat, va: nat, last: nat, q: Perm)
    requires pt < |mem| && first <= va < last
    requires AllAllow(mem, pt, first, va, q) && Allows(mem, Walk(mem, pt, va), q)
    ensures var n := Walk(mem, pt, va).level; var end := EndOf(va, n);
            && va < end && AllAllow(mem, pt, first, if end < last then end else last, q)
            && (end >= last ==> end == EndOf(last - 1, Walk(mem, pt, last - 1).level))
  {
    BlockWalk(mem, pt, va);
    var n := Walk(mem, pt, va).level;
    if EndOf(va, n) >= last {
      BlockMember(va, n, last - 1);
    }
  }

  lemma {:induction false} DescendKeepsPresent(mem: seq<Frame>, level: nat, frame: nat, perm: Perm, va: nat)
    requires level <= 3 && frame < |mem| && perm.p
    ensures Descend(mem, level, frame, perm, va).perm.p
    decreases level
  {
    var e := mem[frame][PageIndex(va, level)];
    if level > 0 && IsLink(e) && e.pfn < |mem| {
      DescendKeepsPresent(mem, level - 1, e.pfn, perm.And(e.perm), va);
    }
  }

  /** `next()` moves forward, or from the end of the address space to 0, and skips no present page. */
  lemma NextSkipsNoPresentPage(mem: seq<Frame>, pt: nat, va: nat)
    requires pt < |mem| && va < ADDRESS_SPACE
    ensures va < NextEnd(mem, pt, va) <= ADDRESS_SPACE
    ensures NextVa(mem, pt, va) == if NextEnd(mem, pt, va) == ADDRESS_SPACE then 0 else NextEnd(mem, pt, va)
    ensures forall a :: va <= a < NextEnd(mem, pt, va) && a / PAGESIZE != va / PAGESIZE ==>
              !Entry(mem, Walk(mem, pt, a).slot).perm.p
  {
    hide EndOf, PageIndex, Descend, Canonical;
    var c := Walk(mem, pt, va);
    var skip := c.level > 0 && EffectivePerm(mem, c) == NO_PERM;
    var l := if skip then c.level else 0;
    BlockEnd(va, l);
    NextInSpace(va, l);
    if skip {
      BlockWalk(mem, pt, va);
      if Canonical(va) {
        DescendKeepsPresent(mem, 3, pt, ALL_PERM, va);
      }
      assert !Entry(mem, c.slot).perm.p;
    } else {
      forall a | va <= a < EndOf(va, 0) ensures a / PAGESIZE == va / PAGESIZE {
        BlockMember(va, 0, a);
      }
    }
  }

  lemma NextInSpace(va: nat, level: nat)
    requires level <= 3 && va < ADDRESS_SPACE
    ensures EndOf(va, level) <= ADDRESS_SPACE
  {
    assert ADDRESS_SPACE == ADDRESS_SPACE / Span(level) * Span(level);
  }

  /** What linking a fresh table page where the walk stopped keeps and what it changes. */
  lemma LinkStep(m0: seq<Frame>, r0: seq<nat>, m1: seq<Frame>, r1: seq<nat>, pt: nat, va: nat, g: map<nat, nat>, f: nat)
    requires Progress(m0, r0, m1, r1, pt, va, g) && TablesHeld(m0, r0, pt)
    requires Canonical(va) && Walk(m1, pt, va).level > 0 && !Entry(m1, Walk(m1, pt, va).slot).perm.p && Free(r1, f)
    ensures var c := Walk(m1, pt, va);
            && c.slot.frame != f && c.slot.index == PageIndex(va, c.level)
            && var m2 := Linked(m1, c.slot.frame, c.slot.index, f);
            && Progress(m0, r0, m2, r1[f := 1], pt, va, g[c.level - 1 := f])
            && |g[c.level - 1 := f]| == |g| + 1
            && IsTable(m2, pt, c.level, Prefix(va, c.level), c.slot.frame)
            && m2[f][PageIndex(va, c.level - 1)] == ZERO
            && Descend(m2, c.level, c.slot.frame, c.perm, va) == Walk(m2, pt, va)
            && Walk(m2, pt, va) == Cursor(c.level - 1, At(f, PageIndex(va, c.level - 1)), c.perm.And(PWU))
  {
    var c := Walk(m1, pt, va);
    WalkVisits(m1, pt, va);
    LinkProgress(m0, r0, m1, r1, pt, va, g, c.level - 1, c.slot.frame, f);
    WalkLink(m1, pt, va, f);
    LinkHere(m1, c.level, c.slot.frame, c.perm, va, f);
  }

  /** A walk that reaches the bottom is one of a canonical address. */
  lemma BottomIsCanonical(mem: seq<Frame>, pt: nat, va: nat)
    requires pt < |mem| && Walk(mem, pt, va).level == 0
    ensures Canonical(va)
  {
  }

  /** The hardware translates a page just mapped to its frame, with the permissions given. */
  lemma MappedTranslates(mem: seq<Frame>, pt: nat, va: nat, pfn: nat, q: Perm)
    requires Closed(mem, pt) && va % PAGESIZE == 0 && q.p
    requires var c := Walk(mem, pt, va);
             c.level == 0 && Entry(mem, c.slot) == Word(pfn, q, 0) && c.perm.Covers(q.And(PWU))
    ensures Translate(mem, pt, va) == Some(Access(pfn * PAGESIZE, q.w, q.u))
  {
    WalkMatchesHardware(mem, pt, va);
    hide Walk, Translate, Closed;
  }

  lemma OtherPagesSame(m0: seq<Frame>, m1: seq<Frame>, pt: nat, va: nat)
    requires pt < |m0| && pt < |m1| && Canonical(va) && va < ADDRESS_SPACE
    requires forall a: nat :: Vpn(a) != Vpn(va) ==> Translate(m1, pt, a) == Translate(m0, pt, a)
    ensures forall a: nat :: a < ADDRESS_SPACE && a / PAGESIZE != va / PAGESIZE ==>
              Translate(m1, pt, a) == Translate(m0, pt, a)
  {
    forall a: nat | a < ADDRESS_SPACE && a / PAGESIZE != va / PAGESIZE
      ensures Translate(m1, pt, a) == Translate(m0, pt, a) {
      if Canonical(a) { PagesDiffer(a, va); }
    }
  }

  lemma LinkProgress(m0: seq<Frame>, r0: seq<nat>, m1: seq<Frame>, r1: seq<nat>, pt: nat, va: nat, g: map<nat, nat>,
                     level: nat, t: nat, f: nat)
    requires Progress(m0, r0, m1, r1, pt, va, g) && TablesHeld(m0, r0, pt) && Free(r1, f)
    requires level < 3 && IsTable(m1, pt, level + 1, Prefix(va, level + 1), t)
    requires !m1[t][PageIndex(va, level + 1)].perm.p
    ensures f != t && (forall l: nat, q: nat :: !IsTable(m1, pt, l, q, f))
    ensures var m2 := Linked(m1, t, PageIndex(va, level + 1), f);
            && Progress(m0, r0, m2, r1[f := 1], pt, va, g[level := f])
            && |g[level := f]| == |g| + 1
            && IsTable(m2, pt, level + 1, Prefix(va, level + 1), t)
  {
    FreeIsNoTable(m0, r0, m1, r1, pt, va, g, f);
    GrownLink(m0, r0, m1, r1, pt, va, g, level, t, f);
    PrefixStep(va, level);
    LinkClosed(m1, pt, level, Prefix(va, level), t, f);
    LinkTree(m1, pt, level, Prefix(va, level), t, f);
    assert g[level := f].Keys == g.Keys + {level};
    LinkTranslates(m1, pt, va, level, t, f);
    hide Translate, Leaf, GrownTables, GrownCounts, OthersKept, TreeShaped, Closed;
    assert SameTranslation(m0, Linked(m1, t, PageIndex(va, level + 1), f), pt);
  }

  /** What writing the bottom-level entry the walk stopped at keeps and what it changes. */
  lemma WriteStep(m0: seq<Frame>, r0: seq<nat>, m1: seq<Frame>, r1: seq<nat>, pt: nat, va: nat, g: map<nat, nat>,
                  w: Word)
    requires Progress(m0, r0, m1, r1, pt, va, g) && w.pfn < 0x10_0000
    requires Canonical(va) && Walk(m1, pt, va).level == 0
    ensures var c := Walk(m1, pt, va); var m2 := m1[c.slot.frame := m1[c.slot.frame][c.slot.index := w]];
            && Grown(m0, r0, m2, r1, pt, va, g) && TreeShaped(m2, pt) && Closed(m2, pt)
            && (PlainLinks(m0, pt) ==> PlainLinks(m2, pt))
            && (forall v: nat :: Leaf(m2, pt, v) == if v == Vpn(va) then w else Leaf(m0, pt, v))
            && Walk(m2, pt, va) == c
            && (forall a: nat :: Vpn(a) != Vpn(va) ==> Translate(m2, pt, a) == Translate(m0, pt, a))
  {
    var c := Walk(m1, pt, va);
    WalkVisits(m1, pt, va);
    VpnSplit(va);
    forall a: nat | Vpn(a) != Vpn(va)
      ensures Translate(m1[c.slot.frame := m1[c.slot.frame][c.slot.index := w]], pt, a) == Translate(m0, pt, a)
    {
      WriteTranslates(m1, pt, va, c.slot.frame, w, a);
    }
    GrownWrite(m0, r0, m1, r1, pt, va, g, c.slot.frame, c.slot.index, w);
    WriteClosed(m1, pt, Prefix(va, 0), c.slot.frame, c.slot.index, w);
    WalkFrame(m1, m1[c.slot.frame := m1[c.slot.frame][c.slot.index := w]], pt, va);
  }
}
