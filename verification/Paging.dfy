/** 32-bit paging as kernel/memory.c uses it (section 4.3, "32-Bit Paging", of the Intel 64 and IA-32
    Architectures Software Developer's Manual, Volume 3A): the MMU's two-level walk as an independent
    specification, and the kernel's own accesses, which go through the recursive directory entry 1023.

    Addresses are unsigned 32-bit numbers written as `nat`; a mask of low or high bits is written as
    the division or remainder it performs.  Physical memory is addressed by 4 KiB frame and word. */
module Paging {
  import opened Wrappers

  const PAGE_SIZE: nat := 4096
  const ENTRIES: nat := 1024

  /** The first virtual page of directory entry 1023, the self-map window 0xffc00000. */
  const WINDOW: nat := 0xffc00

  /** A 32-bit word of physical memory: word `index` of frame `frame`. */
  datatype Slot = Slot(frame: nat, index: nat)

  /** Physical memory.  A word that was never written reads as zero. */
  type Mem = map<Slot, nat>

  function Load(m: Mem, frame: nat, index: nat): nat {
    if Slot(frame, index) in m then m[Slot(frame, index)] else 0
  }

  function Store(m: Mem, frame: nat, index: nat, word: nat): Mem {
    m[Slot(frame, index) := word]
  }

  /** memset of one whole frame to zero. */
  function ZeroFrame(m: Mem, frame: nat): (r: Mem)
    ensures forall f, i :: Load(r, f, i) == if f == frame then 0 else Load(m, f, i)
  {
    map s | s in m && s.frame != frame :: m[s]
  }

  /** The entry installed for a frame: present, writable, user (PG_P_1 | PG_RW_W | PG_US_U). */
  function Entry(frame: nat): nat { frame * PAGE_SIZE + 7 }

  predicate Present(entry: nat) { entry % 2 == 1 }

  function FrameOf(entry: nat): nat { entry / PAGE_SIZE }

  /** Bits 1 and 2 of an entry, R/W and U/S: writes are allowed, and accesses in user mode. */
  predicate Grants(entry: nat) { entry / 2 % 2 == 1 && entry / 4 % 2 == 1 }

  /** All other flags are clear: bits 0 to 11 of the entry are 7. */
  lemma EntryFields(frame: nat)
    ensures Present(Entry(frame)) && FrameOf(Entry(frame)) == frame && Grants(Entry(frame))
    ensures Entry(frame) % 4096 == 7
  {
    OddHalf(frame * 2048 + 3);
    OddHalf(frame * 1024 + 1);
    OddHalf(frame * 512);
    Quarter(Entry(frame));
  }

  lemma OddHalf(x: nat)
    ensures (2 * x + 1) % 2 == 1 && (2 * x + 1) / 2 == x
  {
  }

  lemma Quarter(x: nat)
    ensures x / 4 == x / 2 / 2
  {
  }

  // ---- The MMU ----

  /** The frame that directory `dir` gives virtual page `page`, or None for a page fault. */
  function WalkPage(m: Mem, dir: nat, page: nat): Option<nat> {
    var pde := Load(m, dir, page / ENTRIES);
    if !Present(pde) then None
    else
      var pte := Load(m, FrameOf(pde), page % ENTRIES);
      if !Present(pte) then None else Some(FrameOf(pte))
  }

  /** The frame a write in user mode to virtual page `page` reaches, or None for a page fault: both levels must
      be present and grant it (section 4.6, "Access Rights", of the same volume). */
  function UserWrite(m: Mem, dir: nat, page: nat): Option<nat> {
    var pde := Load(m, dir, page / ENTRIES);
    if !Present(pde) || !Grants(pde) then None
    else
      var pte := Load(m, FrameOf(pde), page % ENTRIES);
      if !Present(pte) || !Grants(pte) then None else Some(FrameOf(pte))
  }

  /** The physical address of virtual address `va`. */
  function Walk(m: Mem, dir: nat, va: nat): Option<nat> {
    match WalkPage(m, dir, va / PAGE_SIZE)
    case None => None
    case Some(f) => Some(f * PAGE_SIZE + va % PAGE_SIZE)
  }

  /** The word a 4-byte aligned virtual pointer designates. */
  function Target(m: Mem, dir: nat, ptr: nat): Option<Slot> {
    match WalkPage(m, dir, ptr / PAGE_SIZE)
    case None => None
    case Some(f) => Some(Slot(f, ptr % PAGE_SIZE / 4))
  }

  // ---- The kernel's pointers into the tables ----

  function PdeIdx(va: nat): nat { va / 0x400000 }

  function PteIdx(va: nat): nat { va / PAGE_SIZE % ENTRIES }

  /** pte_ptr: the virtual address of the page-table entry of `va`. */
  function PtePtr(va: nat): nat { 0xffc00000 + PdeIdx(va) * PAGE_SIZE + PteIdx(va) * 4 }

  /** pde_ptr: the virtual address of the directory entry of `va`. */
  function PdePtr(va: nat): nat { 0xfffff000 + PdeIdx(va) * 4 }

  /** Directory entry 1023 points at the directory itself. */
  ghost predicate SelfMap(m: Mem, dir: nat) {
    Present(Load(m, dir, 1023)) && FrameOf(Load(m, dir, 1023)) == dir
  }

  /** The slots the MMU reads when it translates `va`. */
  function PdeSlot(dir: nat, va: nat): Slot { Slot(dir, va / PAGE_SIZE / ENTRIES) }

  function PteSlot(m: Mem, dir: nat, va: nat): Slot {
    Slot(FrameOf(Load(m, dir, va / PAGE_SIZE / ENTRIES)), va / PAGE_SIZE % ENTRIES)
  }

  lemma PdeIdxIsPageIndex(va: nat)
    ensures PdeIdx(va) == va / PAGE_SIZE / ENTRIES
  {
  }

  /** Walking the tables on pde_ptr(va) lands on the directory entry the MMU uses for `va`. */
  lemma PdePtrHitsPde(m: Mem, dir: nat, va: nat)
    requires va < 0x1_0000_0000 && SelfMap(m, dir)
    ensures Target(m, dir, PdePtr(va)) == Some(PdeSlot(dir, va))
  {
    var d := PdeIdx(va);
    PdeIdxIsPageIndex(va);
    assert d < 1024;
    assert PdePtr(va) == 0xfffff * PAGE_SIZE + d * 4;
    assert PdePtr(va) / PAGE_SIZE == 0xfffff;
    assert PdePtr(va) % PAGE_SIZE == d * 4;
  }

  /** Walking the tables on pte_ptr(va) lands on the page-table entry the MMU uses for `va`, and
      faults exactly when the MMU finds no page table for `va`. */
  lemma PtePtrHitsPte(m: Mem, dir: nat, va: nat)
    requires va < 0x1_0000_0000 && SelfMap(m, dir)
    ensures Target(m, dir, PtePtr(va)) ==
            if Present(Load(m, dir, va / PAGE_SIZE / ENTRIES)) then Some(PteSlot(m, dir, va)) else None
  {
    var d, t := PdeIdx(va), PteIdx(va);
    PdeIdxIsPageIndex(va);
    assert d < 1024 && t < 1024;
    assert PtePtr(va) == (0xffc00 + d) * PAGE_SIZE + t * 4;
    assert PtePtr(va) / PAGE_SIZE == 0xffc00 + d;
    assert PtePtr(va) % PAGE_SIZE == t * 4;
    assert (0xffc00 + d) / ENTRIES == 1023 && (0xffc00 + d) % ENTRIES == d;
  }

  /** vaddr_to_phy: reads the entry through pte_ptr; None is a page fault on that read. */
  function VaddrToPhy(m: Mem, dir: nat, va: nat): Option<nat> {
    match Target(m, dir, PtePtr(va))
    case None => None
    case Some(s) => Some(FrameOf(Load(m, s.frame, s.index)) * PAGE_SIZE + va % PAGE_SIZE)
  }

  /** vaddr_to_phy agrees with the MMU on every mapped address, and on every address without a page
      table (both fault); on an address whose table exists but whose entry is absent it still
      returns a number, so it is exact if and only if one of those two cases holds. */
  lemma VaddrToPhyAgreesWithWalk(m: Mem, dir: nat, va: nat)
    requires va < 0x1_0000_0000 && SelfMap(m, dir)
    ensures VaddrToPhy(m, dir, va) == Walk(m, dir, va) <==>
            Walk(m, dir, va).Some? || !Present(Load(m, dir, va / PAGE_SIZE / ENTRIES))
  {
    PtePtrHitsPte(m, dir, va);
  }
}
