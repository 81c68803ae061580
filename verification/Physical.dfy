/** Physical memory: its layout, the reference counts of its frames, and the page allocator. */
module Physical {
  import opened Paging

  const NPAGES: nat := 512
  const KERNEL_START_PFN: nat := 0x40
  const STACK_PFN: nat := 0x7F
  const IOPHYS_PFN: nat := 0xA0
  const EXTPHYS_PFN: nat := 0x100
  const CONSOLE_PFN: nat := 0xB8

  /** Where the linker ends the kernel image: any frame below the kernel stack that leaves
      room for the kernel's own five table pages. */
  type KernelEnd = k: nat | KERNEL_START_PFN + 5 < k <= STACK_PFN witness 0x60
  const KERNEL_END_PFN: KernelEnd

  /** `kernel_pagetable`: five consecutive frames inside the kernel image. */
  type KernelRoot = k: nat | KERNEL_START_PFN <= k && k + 5 <= KERNEL_END_PFN witness KERNEL_START_PFN
  const KERNEL_PT: KernelRoot

  /** `exception_entry`: code inside the kernel image. */
  type KernelCode = a: nat | KERNEL_START_PFN * PAGESIZE <= a < KERNEL_END_PFN * PAGESIZE
    witness KERNEL_START_PFN * PAGESIZE
  const EXCEPTION_ENTRY: KernelCode

  predicate Reserved(f: nat) {
    f < 1 || IOPHYS_PFN <= f < EXTPHYS_PFN
  }

  predicate Allocatable(f: nat) {
    && !Reserved(f)
    && (f < KERNEL_START_PFN || f >= KERNEL_END_PFN)
    && (f < STACK_PFN || f >= STACK_PFN + 1)
    && f < NPAGES
  }

  /** In terms of the layout: all of the 2 MBytes but page 0, I/O memory, the kernel image and the kernel stack. */
  lemma AllocatableIff()
    ensures forall f: nat ::
              Allocatable(f) <==>
                (0 < f < 0xA0 || 0x100 <= f < 0x200) && !(0x40 <= f < KERNEL_END_PFN) && f != 0x7F
  {
  }

  /** The word 0xCCCCCCCCCCCCCCCC that `kalloc` fills a page with. */
  const INT3 := Word(0xCCCCCCCCCC, Perm(false, false, true, true), 0xCCC)

  /** A frame `kalloc` may hand out. */
  predicate Free(refcount: seq<nat>, f: nat)
    requires |refcount| == NPAGES
  {
    Allocatable(f) && refcount[f] == 0
  }

  function FreeFrames(refcount: seq<nat>): set<nat>
    requires |refcount| == NPAGES
  {
    set f: nat | f < NPAGES && Free(refcount, f)
  }

  /** How many frames `kalloc` could still hand out. */
  function FreeCount(refcount: seq<nat>): nat
    requires |refcount| == NPAGES
  {
    |FreeFrames(refcount)|
  }

  lemma TakeFree(refcount: seq<nat>, f: nat, n: nat)
    requires |refcount| == NPAGES && Free(refcount, f) && n > 0
    ensures FreeCount(refcount[f := n]) == FreeCount(refcount) - 1
  {
    assert FreeFrames(refcount) == FreeFrames(refcount[f := n]) + {f};
  }

  lemma KeepFree(r0: seq<nat>, r1: seq<nat>)
    requires |r0| == |r1| == NPAGES
    requires forall f :: 0 <= f < NPAGES ==> (r0[f] == 0 <==> r1[f] == 0)
    ensures FreeCount(r1) == FreeCount(r0)
  {
    assert FreeFrames(r0) == FreeFrames(r1);
  }

  class Machine {
    /** The contents of every frame. */
    var mem: seq<Frame>
    /** `pages[]`: the 8-bit reference count of every frame. */
    var refcount: seq<nat>

    predicate Sized()
      reads this
    {
      |mem| == NPAGES && |refcount| == NPAGES
    }

    constructor (contents: seq<Frame>)
      requires |contents| == NPAGES
      ensures Sized() && mem == contents && refcount == seq(NPAGES, _ => 0)
    {
      mem := contents;
      refcount := seq(NPAGES, _ => 0);
    }

    /** `kalloc`: the lowest free allocatable frame, filled with 0xCC; None is nullptr. */
    method Kalloc(sz: nat) returns (r: Option<nat>)
      requires Sized()
      modifies this
      ensures Sized()
      ensures r.None? ==> mem == old(mem) && refcount == old(refcount)
      ensures r.None? <==> sz > PAGESIZE || FreeCount(old(refcount)) == 0
      ensures r.Some? ==>
                && Free(old(refcount), r.value)
                && (forall f :: 0 <= f < r.value ==> !Free(old(refcount), f))
                && refcount == old(refcount)[r.value := 1]
                && mem == old(mem)[r.value := Filled(INT3)]
      // in terms of the layout: never page 0, I/O memory, the kernel image or its stack, and no other free frame
      // is passed over
      ensures r.Some? ==>
                && (0 < r.value < 0xA0 || 0x100 <= r.value < 0x200)
                && !(0x40 <= r.value < KERNEL_END_PFN) && r.value != 0x7F
      ensures forall f: nat ::
                && f < 0x200 && old(refcount)[f] == 0
                && (0 < f < 0xA0 || 0x100 <= f) && !(0x40 <= f < KERNEL_END_PFN) && f != 0x7F ==>
                  sz > PAGESIZE || (r.Some? && r.value <= f)
    {
      AllocatableIff();
      if sz > PAGESIZE {
        return None;
      }
      var f := 0;
      while f < NPAGES
        invariant f <= NPAGES
        invariant forall g: nat :: g < f && refcount[g] == 0 ==> !Allocatable(g)
      {
        if Allocatable(f) && refcount[f] == 0 {
          assert f in FreeFrames(refcount);
          refcount := refcount[f := 1];
          mem := mem[f := Filled(INT3)];
          return Some(f);
        }
        f := f + 1;
      }
      assert FreeFrames(refcount) == {};
      return None;
    }

    /** `kfree`: drop one reference. */
    method Kfree(kptr: Option<nat>)
      requires Sized() && (kptr.Some? ==> kptr.value < NPAGES)
      modifies this`refcount
      ensures Sized()
      ensures kptr.None? ==> refcount == old(refcount)
      ensures kptr.Some? ==> refcount == old(refcount)[kptr.value :=
                if old(refcount)[kptr.value] > 0 then old(refcount)[kptr.value] - 1 else 0]
    {
      if kptr.None? {
        return;
      }
      if refcount[kptr.value] > 0 {
        refcount := refcount[kptr.value := refcount[kptr.value] - 1];
      }
    }
  }
}
