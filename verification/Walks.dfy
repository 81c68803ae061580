/** What a walk of a page table finds: the walk from the root, the hardware's own
    translation, and the facts that let an iterator reuse a previous walk. */
module Walks {
  import opened Arithmetic
  import opened Paging

  /** `pep_`: an entry of a table page, or the constant zero entry. */
  datatype Slot = At(frame: nat, index: nat) | ZeroEntry

  /** `level_`, `pep_` and `perm_` of an iterator. */
  datatype Cursor = Cursor(level: nat, slot: Slot, perm: Perm)

  predicate InMemory(mem: seq<Frame>, slot: Slot) {
    slot.At? ==> slot.frame < |mem| && slot.index < 512
  }

  /** `*pep_`. */
  function Entry(mem: seq<Frame>, slot: Slot): Word
    requires InMemory(mem, slot)
  {
    match slot
    case At(f, i) => mem[f][i]
    case ZeroEntry => ZERO
  }

  /** The walk for `va` from table page `frame` at `level`, with `perm` collected so far. */
  function Descend(mem: seq<Frame>, level: nat, frame: nat, perm: Perm, va: nat): (c: Cursor)
    requires level <= 3 && frame < |mem|
    ensures c.level <= level && c.slot.At? && InMemory(mem, c.slot)
    decreases level
  {
    var e := mem[frame][PageIndex(va, level)];
    if level > 0 && IsLink(e) && e.pfn < |mem| then
      Descend(mem, level - 1, e.pfn, perm.And(e.perm), va)
    else
      Cursor(level, At(frame, PageIndex(va, level)), perm)
  }

  /** The walk for `va` from the root. */
  function Walk(mem: seq<Frame>, root: nat, va: nat): (c: Cursor)
    requires root < |mem|
    ensures c.level <= 3 && InMemory(mem, c.slot) && (c.slot.At? <==> Canonical(va))
  {
    if Canonical(va) then Descend(mem, 3, root, ALL_PERM, va) else Cursor(3, ZeroEntry, NO_PERM)
  }

  // ----- What a cursor reports (`pa`, `perm`, `present`, ...)

  function Pa(mem: seq<Frame>, c: Cursor, va: nat): Option<nat>
    requires InMemory(mem, c.slot) && c.level <= 3
  {
    var e := Entry(mem, c.slot);
    if e.perm.p then
      var pfn := if c.level > 0 then e.pfn - e.pfn % 2 else e.pfn;
      Some(pfn * PAGESIZE + va % Span(c.level))
    else None
  }

  function EffectivePerm(mem: seq<Frame>, c: Cursor): Perm
    requires InMemory(mem, c.slot)
  {
    var e := Entry(mem, c.slot);
    if e.perm.p then e.perm.And(c.perm) else NO_PERM
  }

  predicate Allows(mem: seq<Frame>, c: Cursor, q: Perm)
    requires InMemory(mem, c.slot)
  {
    Entry(mem, c.slot).perm.And(c.perm).Covers(q)
  }

  // ----- Hardware translation

  /** The result of translating an address: where it goes and what user code and writes may do. */
  datatype Access = Access(pa: nat, writable: bool, user: bool)

  /** The last step: a page-table entry maps a 4-KByte page. */
  function TranslatePte(mem: seq<Frame>, f: nat, va: nat, w: bool, u: bool): Option<Access>
    requires f < |mem|
  {
    var e := mem[f][va / 0x1000 % 512];
    if !e.perm.p then None
    else Some(Access(e.pfn * 0x1000 + va % 0x1000, w && e.perm.w, u && e.perm.u))
  }

  /** A page-directory entry maps a 2-MByte page or refers to a page table. */
  function TranslatePde(mem: seq<Frame>, f: nat, va: nat, w: bool, u: bool): Option<Access>
    requires f < |mem|
  {
    var e := mem[f][va / 0x20_0000 % 512];
    if !e.perm.p then None
    else if e.perm.ps then
      if e.pfn % 512 >= 2 then None
      else Some(Access(e.pfn / 512 * 0x20_0000 + va % 0x20_0000, w && e.perm.w, u && e.perm.u))
    else if e.pfn >= |mem| then None
    else TranslatePte(mem, e.pfn, va, w && e.perm.w, u && e.perm.u)
  }

  /** A page-directory-pointer-table entry maps a 1-GByte page or refers to a page directory. */
  function TranslatePdpte(mem: seq<Frame>, f: nat, va: nat, w: bool, u: bool): Option<Access>
    requires f < |mem|
  {
    var e := mem[f][va / 0x4000_0000 % 512];
    if !e.perm.p then None
    else if e.perm.ps then
      if e.pfn % 0x4_0000 >= 2 then None
      else Some(Access(e.pfn / 0x4_0000 * 0x4000_0000 + va % 0x4000_0000, w && e.perm.w, u && e.perm.u))
    else if e.pfn >= |mem| then None
    else TranslatePde(mem, e.pfn, va, w && e.perm.w, u && e.perm.u)
  }

  /** Address translation by 4-level paging, section 4.5 of the Intel SDM, Volume 3A;
      None is a page fault, including the fault for a set reserved bit. */
  function Translate(mem: seq<Frame>, cr3: nat, va: nat): Option<Access>
    requires cr3 < |mem|
  {
    if 0x8000_0000_0000 <= va < 0xFFFF_8000_0000_0000 then None else
    var e := mem[cr3][va / 0x80_0000_0000 % 512];
    if !e.perm.p || e.perm.ps || e.pfn >= |mem| then None
    else TranslatePdpte(mem, e.pfn, va, e.perm.w, e.perm.u)
  }

  /** The cursor reports what the hardware does. */
  predicate Reports(mem: seq<Frame>, c: Cursor, va: nat, a: Option<Access>)
    requires InMemory(mem, c.slot) && c.level <= 3
  {
    match a
    case None => Pa(mem, c, va) == None && !Allows(mem, c, Perm(true, false, false, false))
    case Some(x) =>
      && Pa(mem, c, va) == Some(x.pa)
      && Allows(mem, c, PW) == x.writable
      && Allows(mem, c, PU) == x.user
  }

  /** The entry a walk stopped at is a large page with a reserved bit set: a root entry may
      not be one, and the address bits below the page size, except the lowest, must be zero. */
  predicate ReservedBitSet(e: Word, level: nat) {
    e.perm.p && (level == 3 || (level == 2 && e.pfn % 0x4_0000 >= 2) || (level == 1 && e.pfn % 512 >= 2))
  }

  predicate Agrees(mem: seq<Frame>, c: Cursor, va: nat, a: Option<Access>)
    requires InMemory(mem, c.slot) && c.level <= 3
  {
    Reports(mem, c, va, a) <==> !ReservedBitSet(Entry(mem, c.slot), c.level)
  }

  lemma PteAgrees(mem: seq<Frame>, root: nat, f: nat, va: nat, perm: Perm)
    requires IsTable(mem, root, 0, Prefix(va, 0), f) && perm.p
    ensures Agrees(mem, Descend(mem, 0, f, perm, va), va, TranslatePte(mem, f, va, perm.w, perm.u))
  {
  }

  /** Clearing the lowest bit of an aligned large-page frame number. */
  lemma LargePage(pfn: nat, n: nat, off: nat)
    requires n > 0 && n % 2 == 0
    ensures pfn % n < 2 ==> pfn - pfn % 2 == pfn / n * n
  {
    assert pfn == pfn / n * n + pfn % n;
    assert pfn / n * n == 2 * (pfn / n * (n / 2));
  }

  lemma PdeAgrees(mem: seq<Frame>, root: nat, f: nat, va: nat, perm: Perm)
    requires IsTable(mem, root, 1, Prefix(va, 1), f) && perm.p && Closed(mem, root)
    ensures Agrees(mem, Descend(mem, 1, f, perm, va), va, TranslatePde(mem, f, va, perm.w, perm.u))
  {
    var e := mem[f][PageIndex(va, 1)];
    LargePage(e.pfn, 512, va);
    PrefixStep(va, 0);
    if IsLink(e) {
      PteAgrees(mem, root, e.pfn, va, perm.And(e.perm));
    }
  }

  lemma PdpteAgrees(mem: seq<Frame>, root: nat, f: nat, va: nat, perm: Perm)
    requires IsTable(mem, root, 2, Prefix(va, 2), f) && perm.p && Closed(mem, root)
    ensures Agrees(mem, Descend(mem, 2, f, perm, va), va, TranslatePdpte(mem, f, va, perm.w, perm.u))
  {
    var e := mem[f][PageIndex(va, 2)];
    LargePage(e.pfn, 0x4_0000, va);
    PrefixStep(va, 1);
    if IsLink(e) {
      PdeAgrees(mem, root, e.pfn, va, perm.And(e.perm));
    }
  }

  /** The iterator's answers are the hardware's, exactly when no reserved bit is set where the
      walk stops. */
  lemma WalkMatchesHardware(mem: seq<Frame>, root: nat, va: nat)
    requires Closed(mem, root)
    ensures Agrees(mem, Walk(mem, root, va), va, Translate(mem, root, va))
  {
    if Canonical(va) {
      assert IsTable(mem, root, 3, 0, root);
      var e := mem[root][PageIndex(va, 3)];
      PrefixStep(va, 2);
      if IsLink(e) {
        PdpteAgrees(mem, root, e.pfn, va, ALL_PERM.And(e.perm));
      }
    }
  }

  // ----- Walks and the tree

  /** A walk visits the table pages that serve its address. */
  lemma {:induction false} DescendVisits(mem: seq<Frame>, root: nat, level: nat, frame: nat, perm: Perm, va: nat)
    requires level <= 3 && frame < |mem| && IsTable(mem, root, level, Prefix(va, level), frame)
    ensures var c := Descend(mem, level, frame, perm, va);
            && IsTable(mem, root, c.level, Prefix(va, c.level), c.slot.frame)
            && c.slot.index == PageIndex(va, c.level)
            && (c.level == 0 || !IsLink(mem[c.slot.frame][c.slot.index])
               || mem[c.slot.frame][c.slot.index].pfn >= |mem|)
            && (c.level > 0 ==> Table(mem, root, c.level - 1, Prefix(va, c.level - 1)) == None)
    decreases level
  {
    hide Table, Prefix, PageIndex, IsLink;
    var e := mem[frame][PageIndex(va, level)];
    if level > 0 {
      BelowEntry(mem, root, level, frame, va);
      if IsLink(e) && e.pfn < |mem| {
        DescendVisits(mem, root, level - 1, e.pfn, perm.And(e.perm), va);
      }
    }
  }

  /** The entry for `va` decides which table page serves it one level down. */
  lemma BelowEntry(mem: seq<Frame>, root: nat, level: nat, frame: nat, va: nat)
    requires 0 < level <= 3 && frame < |mem| && IsTable(mem, root, level, Prefix(va, level), frame)
    ensures var e := mem[frame][PageIndex(va, level)];
            Table(mem, root, level - 1, Prefix(va, level - 1)) == if IsLink(e)
                && e.pfn < |mem| then Some(e.pfn) else None
  {
    PrefixStep(va, level - 1);
    hide Prefix, PageIndex;
  }

  lemma WalkVisits(mem: seq<Frame>, root: nat, va: nat)
    requires root < |mem| && Canonical(va)
    ensures var c := Walk(mem, root, va);
            && IsTable(mem, root, c.level, Prefix(va, c.level), c.slot.frame)
            && c.slot.index == PageIndex(va, c.level)
            && (c.level == 0 || !IsLink(mem[c.slot.frame][c.slot.index])
               || mem[c.slot.frame][c.slot.index].pfn >= |mem|)
            && (c.level > 0 ==> Table(mem, root, c.level - 1, Prefix(va, c.level - 1)) == None)
  {
    assert IsTable(mem, root, 3, Prefix(va, 3), root);
    DescendVisits(mem, root, 3, root, ALL_PERM, va);
  }

  /** Addresses in one block of a level are in one block of every higher level. */
  lemma SameBlock(a: nat, b: nat, lo: nat, hi: nat)
    requires lo <= hi <= 4 && a / Span(lo) == b / Span(lo)
    ensures a / Span(hi) == b / Span(hi)
    decreases hi - lo
  {
    if lo < hi {
      DivDiv(a, Span(lo), 512);
      DivDiv(b, Span(lo), 512);
      SameBlock(a, b, lo + 1, hi);
    }
  }

  /** Two addresses served by the table page where the first walk stops share the walk to it. */
  lemma {:induction false} DescendShared(mem: seq<Frame>, level: nat, frame: nat, perm: Perm, a: nat, b: nat)
    requires level <= 3 && frame < |mem|
    requires var c := Descend(mem, level, frame, perm, a); a / Span(c.level + 1) == b / Span(c.level + 1)
    ensures var c := Descend(mem, level, frame, perm, a);
            Descend(mem, level, frame, perm, b) == Descend(mem, c.level, c.slot.frame, c.perm, b)
    decreases level
  {
    var c := Descend(mem, level, frame, perm, a);
    var e := mem[frame][PageIndex(a, level)];
    if level > 0 && IsLink(e) && e.pfn < |mem| {
      SameBlock(a, b, c.level + 1, level);
      DescendShared(mem, level - 1, e.pfn, perm.And(e.perm), a, b);
    }
  }

  lemma CanonicalBlock(a: nat, b: nat)
    requires a / Span(3) == b / Span(3)
    ensures Canonical(a) == Canonical(b)
  {
  }

  /** The same from the root: the incremental walk is the walk from the root. */
  lemma WalkShared(mem: seq<Frame>, root: nat, a: nat, b: nat)
    requires root < |mem|
    requires var c := Walk(mem, root, a); c.level < 3 && a / Span(c.level + 1) == b / Span(c.level + 1)
    ensures Canonical(a) && Canonical(b)
    ensures var c := Walk(mem, root, a); Walk(mem, root, b) == Descend(mem, c.level, c.slot.frame, c.perm, b)
  {
    var c := Walk(mem, root, a);
    SameBlock(a, b, c.level + 1, 3);
    CanonicalBlock(a, b);
    DescendShared(mem, 3, root, ALL_PERM, a, b);
  }

  lemma {:induction false} DescendUniform(mem: seq<Frame>, level: nat, frame: nat, perm: Perm, a: nat, b: nat)
    requires level <= 3 && frame < |mem|
    requires var n := Descend(mem, level, frame, perm, a).level; a / Span(n) == b / Span(n)
    ensures Descend(mem, level, frame, perm, b) == Descend(mem, level, frame, perm, a)
    decreases level
  {
    var e := mem[frame][PageIndex(a, level)];
    SameBlock(a, b, Descend(mem, level, frame, perm, a).level, level);
    if level > 0 && IsLink(e) && e.pfn < |mem| {
      DescendUniform(mem, level - 1, e.pfn, perm.And(e.perm), a, b);
    }
  }

  /** All addresses of the block an entry covers have the same cursor. */
  lemma WalkUniform(mem: seq<Frame>, root: nat, a: nat, b: nat)
    requires root < |mem|
    requires a / Span(Walk(mem, root, a).level) == b / Span(Walk(mem, root, a).level)
    ensures Walk(mem, root, b) == Walk(mem, root, a)
  {
    SameBlock(a, b, Walk(mem, root, a).level, 3);
    CanonicalBlock(a, b);
    if Canonical(a) {
      DescendUniform(mem, 3, root, ALL_PERM, a, b);
    }
  }

  /** The virtual page number of an address, within the 48 bits that are translated. */
  function Vpn(va: nat): nat {
    va % VA_NONCANONEND / PAGESIZE
  }

  lemma VpnSplit(va: nat)
    ensures Vpn(va) / 512 == Prefix(va, 0) && Vpn(va) % 512 == PageIndex(va, 0)
  {
    DivDiv(va % VA_NONCANONEND, PAGESIZE, 512);
    assert Span(3) / PAGESIZE * 512 * PAGESIZE == VA_NONCANONEND;
    DigitOfSum(va / VA_NONCANONEND, va % VA_NONCANONEND, Span(3) / PAGESIZE, PAGESIZE);
  }

  /** Where a bottom-level table exists the walk ends in it. */
  lemma WalkToLeaf(mem: seq<Frame>, root: nat, va: nat)
    requires root < |mem| && Canonical(va)
    ensures var c := Walk(mem, root, va);
            && (c.level == 0 <==> Table(mem, root, 0, Vpn(va) / 512).Some?)
            && (c.level == 0 ==> c.slot == At(Table(mem, root, 0, Vpn(va) / 512).value, Vpn(va) % 512)
                                 && Entry(mem, c.slot) == Leaf(mem, root, Vpn(va)))
            && (c.level > 0 ==> Leaf(mem, root, Vpn(va)) == ZERO)
  {
    var c := Walk(mem, root, va);
    WalkVisits(mem, root, va);
    VpnSplit(va);
    if c.level > 0 {
      NoTableBelow(mem, root, va, c.level - 1);
    }
  }

  lemma {:induction false} NoTableBelow(mem: seq<Frame>, root: nat, va: nat, level: nat)
    requires level <= 3 && Table(mem, root, level, Prefix(va, level)) == None
    ensures Table(mem, root, 0, Prefix(va, 0)) == None
    decreases level
  {
    if level > 0 {
      PrefixStep(va, level - 1);
      NoTableBelow(mem, root, va, level - 1);
    }
  }
}
