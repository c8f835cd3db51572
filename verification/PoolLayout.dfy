/** mem_pool_init: how physical memory is split into two pools and where their bitmaps lie. */
module PoolLayout {
  import opened Wrappers
  import opened Paging
  import opened Pages
  import opened PageTables

  const WORD: nat := 0x1_0000_0000

  /** MEM_BITMAP_BASE, and the end of the four pages reserved there. */
  const BITMAP_BASE: nat := 0xc009a000
  const BITMAP_END: nat := 0xc009e000

  /** Page tables and the low megabyte: page_table_size + 0x100000. */
  const USED_MEM: nat := 0x200000

  /** One pool: its first physical address, its size, and its bitmap's address and length in bytes. */
  datatype PoolRecord = PoolRecord(phyStart: nat, size: nat, bits: nat, length: nat)

  datatype Plan = Plan(kern: PoolRecord, user: PoolRecord, vbits: nat, vlength: nat, vstart: nat)

  /** The arithmetic of mem_pool_init on unsigned 32-bit numbers; the page count is 16 bits wide. */
  function MemPoolInit(allMem: nat): Plan {
    var freeMem := (allMem + WORD - USED_MEM) % WORD;
    var allFreePages := freeMem / PAGE_SIZE % 0x10000;
    var kernFreePages := allFreePages / 2;
    var userFreePages := allFreePages - kernFreePages;
    var kbmLength := kernFreePages / 8;
    var ubmLength := userFreePages / 8;
    var upStart := USED_MEM + kernFreePages * PAGE_SIZE;
    Plan(PoolRecord(USED_MEM, kernFreePages * PAGE_SIZE, BITMAP_BASE, kbmLength),
         PoolRecord(upStart, userFreePages * PAGE_SIZE, BITMAP_BASE + kbmLength, ubmLength),
         BITMAP_BASE + kbmLength + ubmLength, kbmLength, 0xc0100000)
  }

  /** The address palloc returns for a bit of the pool's bitmap. */
  function FrameAddress(r: PoolRecord, pos: nat): nat { pos * PAGE_SIZE + r.phyStart }

  /** The three bitmaps follow one another inside the four reserved pages, whatever the memory size. */
  lemma BitmapsFit(allMem: nat)
    requires allMem < WORD
    ensures var l := MemPoolInit(allMem);
            BITMAP_BASE == l.kern.bits && l.kern.bits + l.kern.length == l.user.bits
            && l.user.bits + l.user.length == l.vbits && l.vbits + l.vlength <= BITMAP_END
    ensures var l := MemPoolInit(allMem);
            l.vstart + 8 * l.vlength * PAGE_SIZE <= 0xc8100000
  {
  }

  /** The pages of memory above 2 MiB, as a 16-bit number. */
  function PagesAbove(allMem: nat): (n: nat)
    ensures n < 0x10000 && (allMem - 0x200000 - n * 4096) % 0x1000_0000 < 4096
    ensures 0x200000 <= allMem < 0x1020_0000 ==> n * 4096 <= allMem - 0x200000 < (n + 1) * 4096
  {
    (allMem - 0x200000) % 0x1000_0000 / 4096
  }

  /** The split: the pools share out the free pages, the user pool directly behind the kernel pool and at most one
      page larger; each bitmap is the longest whose bits all stand for pages of the pool. */
  lemma MemSplit(allMem: nat)
    requires allMem < WORD
    ensures var l := MemPoolInit(allMem);
            && l.kern.size + l.user.size == PagesAbove(allMem) * 4096 && l.kern.size % 4096 == 0
            && (l.user.size == l.kern.size || l.user.size == l.kern.size + 4096)
            && l.kern.phyStart == 0x200000 && l.user.phyStart == 0x200000 + l.kern.size
            && 8 * l.kern.length <= l.kern.size / 4096 < 8 * (l.kern.length + 1)
            && 8 * l.user.length <= l.user.size / 4096 < 8 * (l.user.length + 1)
            && l.vlength == l.kern.length && l.vstart == 0xc0100000 && l.kern.bits == 0xc009a000
  {
    var l := MemPoolInit(allMem);
    hide PagesAbove;
    FreePages(allMem, (allMem + WORD - USED_MEM) % WORD);
    var n := PagesAbove(allMem);
    WholeBytes(n / 2);
    WholeBytes(n - n / 2);
  }

  lemma WholeBytes(pages: nat)
    ensures pages * PAGE_SIZE % 4096 == 0 && 8 * (pages / 8) <= pages * PAGE_SIZE / 4096 < 8 * (pages / 8 + 1)
  {
  }

  /** Counting in 32 bits and then in 16 is counting modulo 256 MiB. */
  lemma FreePages(allMem: nat, free: nat)
    requires allMem < WORD && free == (allMem + WORD - USED_MEM) % WORD
    ensures free / PAGE_SIZE % 0x10000 == PagesAbove(allMem)
  {
    WrapsTo(allMem - USED_MEM, free);
    Modulo(free);
  }

  lemma WrapsTo(x: int, free: nat)
    requires 0 <= x + WORD < 2 * WORD && free == (x + WORD) % WORD
    ensures free % 0x1000_0000 == x % 0x1000_0000
  {
    assert free == x || free == x + 16 * 0x1000_0000;
  }

  lemma Modulo(free: nat)
    ensures free / PAGE_SIZE % 0x10000 == free % 0x1000_0000 / PAGE_SIZE
  {
    var k, r := free / 0x1000_0000, free % 0x1000_0000;
    assert free / PAGE_SIZE == k * 0x10000 + r / PAGE_SIZE;
  }

  /** All of memory above 2 MiB but for less than a page is in the pools exactly when there are at least 2 MiB and
      less than 258 MiB. */
  lemma AllMemoryIff(allMem: nat)
    requires allMem < WORD
    ensures var l := MemPoolInit(allMem);
            (0x200000 + l.kern.size + l.user.size <= allMem < 0x201000 + l.kern.size + l.user.size)
            <==> 0x200000 <= allMem < 0x1020_0000
  {
    MemSplit(allMem);
  }

  /** 32 MiB: 3840 pages each, the user pool from 0x1100000. */
  lemma SplitOf32M()
    ensures var l := MemPoolInit(0x2000000);
            && l.kern.size == l.user.size == 3840 * 4096 && l.user.phyStart == 0x1100000
            && l.kern.length == l.user.length == l.vlength == 480
  {
    MemSplit(0x2000000);
  }

  /** A frame of the kernel pool lies inside it and below every frame of the user pool. */
  lemma PoolsDisjoint(allMem: nat, k: nat, u: nat)
    requires allMem < WORD
    requires k < 8 * MemPoolInit(allMem).kern.length && u < 8 * MemPoolInit(allMem).user.length
    ensures var l := MemPoolInit(allMem);
            && l.kern.phyStart <= FrameAddress(l.kern, k)
            && FrameAddress(l.kern, k) + PAGE_SIZE <= l.kern.phyStart + l.kern.size == l.user.phyStart
            && l.user.phyStart <= FrameAddress(l.user, u)
            && FrameAddress(l.user, u) + PAGE_SIZE <= l.user.phyStart + l.user.size
  {
    FrameInPool(allMem, k, MemPoolInit(allMem).kern);
    FrameInPool(allMem, u, MemPoolInit(allMem).user);
  }

  /** A bit of a pool's bitmap stands for a frame inside the pool. */
  lemma FrameInPool(allMem: nat, pos: nat, r: PoolRecord)
    requires allMem < WORD && r in {MemPoolInit(allMem).kern, MemPoolInit(allMem).user} && pos < 8 * r.length
    ensures r.phyStart <= FrameAddress(r, pos) && FrameAddress(r, pos) + PAGE_SIZE <= r.phyStart + r.size
    ensures MemPoolInit(allMem).kern.phyStart + MemPoolInit(allMem).kern.size == MemPoolInit(allMem).user.phyStart
  {
    assert exists pages: nat :: r.size == pages * PAGE_SIZE && r.length == pages / 8;
    var pages: nat :| r.size == pages * PAGE_SIZE && r.length == pages / 8;
    assert pos + 1 <= pages;
  }

  /** Below 2 MiB the kernel pool is not empty, and starts past the end of memory. */
  lemma WrappedSize(allMem: nat)
    requires allMem < USED_MEM
    ensures MemPoolInit(allMem).kern.length > 0 && FrameAddress(MemPoolInit(allMem).kern, 0) == USED_MEM
  {
    var free := allMem + WORD - USED_MEM;
    assert free % WORD == free;
    assert 0xffe00 <= free / PAGE_SIZE <= 0xfffff;
    assert free / PAGE_SIZE % 0x10000 >= 0xfe00;
  }

  /** Every frame either pool can hand out lies in real memory. */
  ghost predicate FramesReal(allMem: nat) {
    var l := MemPoolInit(allMem);
    && (forall k: nat :: k < 8 * l.kern.length ==> FrameAddress(l.kern, k) + PAGE_SIZE <= allMem)
    && (forall u: nat :: u < 8 * l.user.length ==> FrameAddress(l.user, u) + PAGE_SIZE <= allMem)
  }

  lemma PagesInMemory(allMem: nat)
    requires USED_MEM <= allMem < WORD
    ensures var l := MemPoolInit(allMem); l.user.phyStart + l.user.size <= allMem
  {
    var pages := (allMem - USED_MEM) / PAGE_SIZE % 0x10000;
    assert (allMem + WORD - USED_MEM) % WORD == allMem - USED_MEM;
    assert pages <= (allMem - USED_MEM) / PAGE_SIZE;
    assert pages * PAGE_SIZE <= allMem - USED_MEM;
  }

  /** That holds if and only if there are at least 2 MiB: below that the subtraction wraps round. */
  lemma FramesAreRealIff(allMem: nat)
    requires allMem < WORD
    ensures FramesReal(allMem) <==> USED_MEM <= allMem
  {
    hide MemPoolInit;
    var l := MemPoolInit(allMem);
    if USED_MEM <= allMem {
      PagesInMemory(allMem);
      forall k: nat | k < 8 * l.kern.length ensures FrameAddress(l.kern, k) + PAGE_SIZE <= allMem {
        FrameInPool(allMem, k, l.kern);
      }
      forall u: nat | u < 8 * l.user.length ensures FrameAddress(l.user, u) + PAGE_SIZE <= allMem {
        FrameInPool(allMem, u, l.user);
      }
    } else {
      WrappedSize(allMem);
      assert FrameAddress(l.kern, 0) > allMem;
    }
  }
  // ---- The state mem_init starts from ----

  /** The page directory and first page table the loader leaves: the directory at 1 MiB, entries 0 and
      768 on the first page table, 769 to 1022 on the next 254, entry 1023 on the directory; the first
      table maps the low megabyte. */
  function BootEntry(i: nat): nat {
    if i == 0 then Entry(0x101)
    else if 768 <= i < 1023 then Entry(0x101 + (i - 768))
    else if i == 1023 then Entry(0x100)
    else 0
  }

  function BootMem(): Mem {
    (map i: nat | i < 1024 :: Slot(0x100, i) := BootEntry(i))
    + (map i: nat | i < 256 :: Slot(0x101, i) := Entry(i))
  }

  predicate BootTable(f: nat) { 0x101 <= f < 0x200 }

  function BootOwn(): map<nat, Use> {
    map f: nat | f < 0x200 && BootTable(f) :: TableOf(f - 0x101 + 768)
  }

  function Clear(length: nat): seq<bool> { seq(8 * length, _ => false) }

  /** Right after mem_init, with a user range of `userLength` bitmap bytes. */
  function BootState(allMem: nat, userLength: nat): State {
    var l := MemPoolInit(allMem);
    State(0x100, BootMem(),
          Region(Clear(l.kern.length), l.kern.phyStart / PAGE_SIZE),
          Region(Clear(l.user.length), l.user.phyStart / PAGE_SIZE),
          Region(Clear(l.vlength), l.vstart / PAGE_SIZE), Region(Clear(userLength), 0x8048),
          {}, 0)
  }

  predicate AllClear(bits: seq<bool>) { forall k :: 0 <= k < |bits| ==> !bits[k] }

  /** n bits rounded down to whole bytes, all clear. */
  predicate Empty(bits: seq<bool>, n: nat) { |bits| % 8 == 0 && |bits| <= n < |bits| + 8 && AllClear(bits) }

  /** The pools and ranges of the state: half of the free pages to the kernel, rounded down, from frame 0x200; the
      rest to the user pool behind them; as many virtual kernel pages from 0xc0100000 as the kernel pool has bits;
      and the user range from 0x8048000. */
  lemma BootPools(allMem: nat, userLength: nat)
    requires allMem < WORD
    ensures var p := BootState(allMem, userLength);
            var n := PagesAbove(allMem);
            && Empty(p.kpool.bits, n / 2) && p.kpool.start == 0x200
            && Empty(p.upool.bits, n - n / 2) && p.upool.start == 0x200 + n / 2
            && p.kvirt.bits == p.kpool.bits && p.kvirt.start == 0xc0100
            && Empty(p.uvirt.bits, 8 * userLength) && p.uvirt.start == 0x8048
            && p.dir == 0x100 && p.lost == {} && p.nullTables == 0
  {
    MemSplit(allMem);
  }

  lemma BootLoad(frame: nat, i: nat)
    requires i < 1024
    ensures Load(BootMem(), frame, i) ==
            if frame == 0x100 then BootEntry(i) else if frame == 0x101 && i < 256 then Entry(i) else 0
  {
  }

  /** What the loader has mapped: the low megabyte at 0 and at 3 GiB; and, through entry 1023, the tables of
      entries 0 and 768 to 1022 at 0xffc00000 on, and the directory itself in the last page. */
  lemma BootTranslation(allMem: nat, userLength: nat, page: nat)
    requires allMem < WORD && page < 0x100000
    ensures PageOf(BootState(allMem, userLength), page) ==
            if page < 0x100 then Some(page) else if 0xc0000 <= page < 0xc0100 then Some(page - 0xc0000)
            else if page == 0xffc00 then Some(0x101)
            else if 0xfff00 <= page < 0xfffff then Some(0x101 + (page - 0xfff00))
            else if page == 0xfffff then Some(0x100) else None
  {
    var d, i := page / 1024, page % 1024;
    BootLoad(0x100, d);
    EntryFields(0x100);
    if d < 1023 {
      var table := 0x101 + (if d >= 768 then d - 768 else 0);
      EntryFields(table);
      BootLoad(table, i);
      EntryFields(i);
    } else {
      BootLoad(0x100, i);
      EntryFields(0x101 + (if i >= 768 then i - 768 else 0));
    }
  }

  /** mem_init establishes the page layer's invariant.  (USER_VADDR_START to 3 GiB is 94199 bytes.) */
  lemma BootInv(allMem: nat, userLength: nat)
    requires allMem < WORD && userLength <= 94199
    ensures Inv(BootState(allMem, userLength), BootOwn(), {})
  {
    var p := BootState(allMem, userLength);
    BitmapsFit(allMem);
    forall d: nat | d < 1024 ensures Load(p.mem, p.dir, d) == BootEntry(d) {
      BootLoad(0x100, d);
    }
    forall d: nat | d < 1024
      ensures HasTable(p, d) == (d == 0 || 768 <= d)
      ensures HasTable(p, d) ==>
        Table(p, d) == if d == 0 then 0x101 else if d == 1023 then 0x100 else 0x101 + (d - 768)
    {
      EntryFields(0x101);
      EntryFields(0x100);
      if 768 <= d < 1023 { EntryFields(0x101 + (d - 768)); }
    }
    forall n: nat | InHeap(p, n) ensures PageOf(p, n).None? {
      var d := n / ENTRIES;
      assert 32 <= d < 1023;
      if HasTable(p, d) {
        assert Owns(p.kvirt, n);
        BootLoad(Table(p, d), n % ENTRIES);
      }
    }
    BootAgrees(p);
  }

  lemma BootAgrees(p: State)
    requires Layout(p) && p.dir == 0x100 && p.kpool.start == 0x200 && p.lost == {} && p.nullTables == 0
    requires forall d: nat :: d < 1024 ==> HasTable(p, d) == (d == 0 || 768 <= d)
    requires forall d: nat :: d < 1024 && HasTable(p, d) ==>
        Table(p, d) == if d == 0 then 0x101 else if d == 1023 then 0x100 else 0x101 + (d - 768)
    requires forall n: nat :: InHeap(p, n) ==> PageOf(p, n).None?
    requires forall n: nat :: !Taken(p.kpool, n) && !Taken(p.upool, n) && !Reserved(p, n)
    ensures Inv(p, BootOwn(), {})
  {
    hide WalkPage;
    assert HasTable(p, 1023) && Table(p, 1023) == p.dir;
  }

  /** Directory entries 0 and 768 share their table, so the first page of the kernel heap, once mapped,
      also appears at virtual address 0x100000, which was not mapped before. */
  lemma BootDirectoryAliases(allMem: nat, userLength: nat, frame: nat)
    requires allMem < WORD
    ensures var p := BootState(allMem, userLength);
            PageOf(p, 0x100) == None && PageTableAdd(p, 0xc0100, frame).Some?
            && PageOf(PageTableAdd(p, 0xc0100, frame).value, 0x100) == Some(frame)
  {
    var p := BootState(allMem, userLength);
    assert 0xc0100 / ENTRIES == 768 && 0xc0100 % ENTRIES == 0x100;
    BootLoad(0x100, 0);
    BootLoad(0x100, 768);
    BootLoad(0x100, 1023);
    BootLoad(0x101, 0x100);
    EntryFields(0x101);
    EntryFields(0x100);
    forall d: nat | d < 1023 && HasTable(p, d) ensures Table(p, d) != p.dir {
      BootLoad(0x100, d);
      EntryFields(0x101 + (if d >= 768 then d - 768 else 0));
    }
    AddTranslation(p, 0xc0100, frame, 0x100);
  }
}
