/** The page layer of kernel/memory.c: two pools of physical frames, two ranges of virtual pages and one
    address space, as a value that the functions below transform the way the C functions do.

    Page-aligned addresses are written as page numbers: `page` for address page * 4096. */
module Pages {
  import opened Wrappers
  import opened Bitmaps
  import opened Paging

  /** pool_flags. */
  datatype Flag = Kernel | User

  /** A bitmap and the page number its first bit stands for: a physical pool or a virtual_addr. */
  datatype Region = Region(bits: seq<bool>, start: nat)

  predicate Owns(r: Region, page: nat) { r.start <= page < r.start + |r.bits| }

  predicate Taken(r: Region, page: nat) { Owns(r, page) && r.bits[page - r.start] }

  function Mark(r: Region, page: nat, cnt: nat, value: bool): Region
    requires r.start <= page && page + cnt <= r.start + |r.bits|
  {
    r.(bits := SetRun(r.bits, page - r.start, cnt, value))
  }

  /** The page layer's state.  `lost` and `nullTables` are history: the virtual pages reserved by a
      malloc_page that has not (or not yet) succeeded, and how many page tables page_table_add put at
      physical address 0 because it does not check palloc for NULL. */
  datatype State = State(
    dir: nat, mem: Mem,
    kpool: Region, upool: Region,
    kvirt: Region, uvirt: Region,
    lost: set<nat>, nullTables: nat)

  function Pool(p: State, t: Flag): Region { if t.Kernel? then p.kpool else p.upool }

  function Virt(p: State, t: Flag): Region { if t.Kernel? then p.kvirt else p.uvirt }

  function WithPool(p: State, t: Flag, r: Region): State {
    if t.Kernel? then p.(kpool := r) else p.(upool := r)
  }

  function WithVirt(p: State, t: Flag, r: Region): State {
    if t.Kernel? then p.(kvirt := r) else p.(uvirt := r)
  }

  /** Result of an allocation: a page, NULL, or a failed assertion or page fault that stops the kernel. */
  datatype Alloc = Page(page: nat) | Null | Halt {
    function PageOr(default: nat): nat { if Page? then page else default }
  }

  function PageSet(page: nat, cnt: nat): (s: set<nat>)
    ensures forall n: nat :: n in s <==> page <= n < page + cnt
  {
    if cnt == 0 then {} else PageSet(page, cnt - 1) + {page + cnt - 1}
  }

  // ---- The C functions ----

  ghost function VaddrGet(p: State, t: Flag, cnt: nat): (State, Alloc) {
    match ScanSpec(Virt(p, t).bits, cnt)
    case NotFound => (p, Null)
    case Panic => (p, Halt)
    case Found(pos) => assert Run(Virt(p, t).bits, pos, cnt); Reserve(p, t, pos, cnt)
  }

  /** vaddr_get once it has found a run; a user run may not start at the last page below 3 GiB. */
  function Reserve(p: State, t: Flag, pos: nat, cnt: nat): (State, Alloc)
    requires pos + cnt <= |Virt(p, t).bits|
  {
    var v := Virt(p, t);
    var p1 := WithVirt(p, t, v.(bits := SetRun(v.bits, pos, cnt, true)));
    var page := v.start + pos;
    if t.User? && page * PAGE_SIZE >= 0xc0000000 - PAGE_SIZE then (p1, Halt)
    else (p1.(lost := p1.lost + PageSet(page, cnt)), Page(page))
  }

  ghost function Palloc(p: State, t: Flag): (State, Option<nat>) {
    var r := Pool(p, t);
    match ScanSpec(r.bits, 1)
    case Found(pos) => (WithPool(p, t, r.(bits := r.bits[pos := true])), Some(r.start + pos))
    case _ => (p, None)
  }

  /** Some(the next state), or None where the kernel stops. */
  ghost function PageTableAdd(p: State, page: nat, frame: nat): Option<State> {
    var va := page * PAGE_SIZE;
    match Target(p.mem, p.dir, PdePtr(va))
    case None => None
    case Some(pde) =>
      if Present(Load(p.mem, pde.frame, pde.index)) then SetEntry(p, va, frame)
      else
        var (p1, table) := Palloc(p, Kernel);
        var m1 := Store(p.mem, pde.frame, pde.index, Entry(if table.Some? then table.value else 0));
        match Target(m1, p.dir, PtePtr(va))
        case None => None
        case Some(pte) =>
          SetEntry(p1.(mem := ZeroFrame(m1, pte.frame),
                       nullTables := if table.Some? then p.nullTables else p.nullTables + 1), va, frame)
  }

  /** ASSERT(!(*pte & 0x1)); *pte = frame address | flags. */
  ghost function SetEntry(p: State, va: nat, frame: nat): Option<State> {
    match Target(p.mem, p.dir, PtePtr(va))
    case None => None
    case Some(pte) =>
      if Present(Load(p.mem, pte.frame, pte.index)) then None
      else Some(p.(mem := Store(p.mem, pte.frame, pte.index, Entry(frame))))
  }

  /** The loop of malloc_page from one page on: a frame for each page, entered in the page table. */
  ghost function MapPages(p: State, t: Flag, page: nat, cnt: nat): (State, Alloc)
    decreases cnt
  {
    if cnt == 0 then (p, Page(page))
    else
      var (p1, frame) := Palloc(p, t);
      if frame.None? then (p1, Null)
      else match PageTableAdd(p1, page, frame.value)
           case None => (p1, Halt)
           case Some(p2) => MapPages(p2, t, page + 1, cnt - 1)
  }

  ghost function MallocPage(p: State, t: Flag, cnt: nat): (State, Alloc) {
    if !(0 < cnt < 3840) then (p, Halt)
    else
      var (p1, v) := VaddrGet(p, t, cnt);
      if !v.Page? then (p1, v)
      else
        var (p2, r) := MapPages(p1, t, v.page, cnt);
        if r.Page? then (p2.(lost := p2.lost - PageSet(v.page, cnt)), v) else (p2, r)
  }

  ghost function Pfree(p: State, t: Flag, frame: nat): Option<State> {
    var r := Pool(p, t);
    if !Owns(r, frame) then None
    else Some(WithPool(p, t, r.(bits := r.bits[frame - r.start := false])))
  }

  ghost function PageTableRemove(p: State, page: nat): Option<State> {
    var va := page * PAGE_SIZE;
    match (Target(p.mem, p.dir, PdePtr(va)), Target(p.mem, p.dir, PtePtr(va)))
    case (Some(pde), Some(pte)) =>
      if !Present(Load(p.mem, pde.frame, pde.index)) then None
      else
        var word := Load(p.mem, pte.frame, pte.index);
        Some(p.(mem := Store(p.mem, pte.frame, pte.index, word - word % 2)))
    case _ => None
  }

  /** One round of the loop of free_page. */
  ghost function UnmapOne(p: State, t: Flag, page: nat): Option<State> {
    match VaddrToPhy(p.mem, p.dir, page * PAGE_SIZE)
    case None => None
    case Some(paddr) =>
      match Pfree(p, t, paddr / PAGE_SIZE)
      case None => None
      case Some(p1) => PageTableRemove(p1, page)
  }

  ghost function UnmapPages(p: State, t: Flag, page: nat, cnt: nat): Option<State>
    decreases cnt
  {
    if cnt == 0 then Some(p)
    else match UnmapOne(p, t, page)
         case None => None
         case Some(p1) => UnmapPages(p1, t, page + 1, cnt - 1)
  }

  /** free_page: None where an assertion of vaddr_remove, bitmap_clear or page_table_remove fails. */
  ghost function FreePage(p: State, t: Flag, page: nat, cnt: nat): Option<State> {
    var v := Virt(p, t);
    if !(0 < cnt < 3840) || page < v.start || page + cnt > v.start + |v.bits| then None
    else UnmapPages(WithVirt(p, t, Mark(v, page, cnt, false)), t, page, cnt)
  }

  // ---- The invariant ----

  /** The first directory entry a heap can use (0x8048000), and the first of the kernel's quarter. */
  const FIRST_DIR: nat := 32
  const KERNEL_DIR: nat := 768

  function HasTable(p: State, d: nat): bool { Present(Load(p.mem, p.dir, d)) }

  function Table(p: State, d: nat): nat { FrameOf(Load(p.mem, p.dir, d)) }

  function PageOf(p: State, n: nat): Option<nat> { WalkPage(p.mem, p.dir, n) }

  predicate InHeap(p: State, n: nat) { Owns(p.kvirt, n) || Owns(p.uvirt, n) }

  predicate Reserved(p: State, n: nat) { Taken(p.kvirt, n) || Taken(p.uvirt, n) }

  /** What a frame in use serves: a heap page, the page table of a directory entry, or something
      outside this address space (another process's pages and tables). */
  datatype Use = Data(page: nat) | TableOf(d: nat) | Pinned

  ghost predicate Layout(p: State) {
    && p.kvirt.start == 0xc0100 && p.kvirt.start + |p.kvirt.bits| <= WINDOW
    && p.uvirt.start == 0x8048 && p.uvirt.start + |p.uvirt.bits| <= 0xc0000
    && 0 < p.dir && 0 < p.kpool.start
    && p.kpool.start + |p.kpool.bits| <= p.upool.start
  }

  /** The directory is the loader's, below the pools, or a frame of a pool that backs a heap page, as a
      process's is; it is never used as a page table. */
  ghost predicate DirOk(p: State, own: map<nat, Use>) {
    (p.dir in own ==> own[p.dir].Data?) && (p.dir >= p.kpool.start ==> p.dir in own)
  }

  /** No page table is at physical address 0. */
  ghost predicate TablesOk(p: State, own: map<nat, Use>) {
    && SelfMap(p.mem, p.dir) && DirOk(p, own) && 0 !in own
    && (forall d: nat :: d < FIRST_DIR && HasTable(p, d) ==> Table(p, d) != p.dir && Table(p, d) < p.kpool.start)
    && (forall d: nat :: FIRST_DIR <= d < 1023 && HasTable(p, d) ==>
          Table(p, d) in own && own[Table(p, d)] == TableOf(d))
    && (forall d: nat :: KERNEL_DIR <= d < 1023 ==> HasTable(p, d))
  }

  /** `own` is exactly the use of every frame whose pool bit is set (and of the boot page tables). */
  ghost predicate OwnExact(p: State, own: map<nat, Use>) {
    && (forall f: nat :: f >= p.kpool.start ==> (f in own <==> Taken(p.kpool, f) || Taken(p.upool, f)))
    && (forall f: nat :: f in own && own[f].Data? ==> InHeap(p, own[f].page) && PageOf(p, own[f].page) == Some(f))
    && (forall f: nat :: f in own && own[f].Data? ==> Owns(if Owns(p.kvirt, own[f].page) then p.kpool else p.upool, f))
    && (forall f: nat :: f in own && own[f].TableOf? ==>
          FIRST_DIR <= own[f].d < 1023 && HasTable(p, own[f].d) && Table(p, own[f].d) == f && f < p.upool.start)
  }

  /** Pages in `limbo` are being freed: their virtual bit is cleared before their entry is. */
  ghost predicate PagesOk(p: State, own: map<nat, Use>, limbo: set<nat>) {
    && (forall n: nat :: InHeap(p, n) && PageOf(p, n).Some? ==>
          PageOf(p, n).value in own && own[PageOf(p, n).value] == Data(n))
    && (forall n: nat :: InHeap(p, n) && PageOf(p, n).Some? && n !in limbo ==> Reserved(p, n))
    && (forall n: nat :: Reserved(p, n) && n !in p.lost ==> PageOf(p, n).Some?)
    && (forall n: nat :: n in p.lost ==> Reserved(p, n))
  }

  ghost predicate Inv(p: State, own: map<nat, Use>, limbo: set<nat>) {
    Layout(p) && TablesOk(p, own) && OwnExact(p, own) && PagesOk(p, own, limbo)
  }
}
