/** The arena heap of kernel/memory.c: sys_malloc and sys_free over the page layer.

    Block addresses are byte addresses; an arena is named by its page.  Each arena is described by the
    header the C code keeps in its first 12 bytes. */
module Heap {
  import opened Wrappers
  import opened Paging
  import opened Pages

  const MEM_BLOCK_DESC_CNT: nat := 7

  /** sizeof(arena). */
  const HEADER: nat := 12

  /** The block size of descriptor i, and how many blocks fit in a page after the header. */
  function BlockSize(i: nat): nat
    requires i < MEM_BLOCK_DESC_CNT
  {
    if i == 0 then 16 else if i == 1 then 32 else if i == 2 then 64 else if i == 3 then 128
    else if i == 4 then 256 else if i == 5 then 512 else 1024
  }

  function BlocksCnt(i: nat): nat
    requires i < MEM_BLOCK_DESC_CNT
  {
    (PAGE_SIZE - HEADER) / BlockSize(i)
  }

  /** A block descriptor: entry idx of the kernel's or of the process's array. */
  type Index = i: nat | i < MEM_BLOCK_DESC_CNT

  datatype Desc = Desc(flag: Flag, idx: Index)

  datatype Arena = Small(desc: Desc, cnt: nat) | Large(cnt: nat)

  datatype HeapState = HeapState(
    pages: State, ksize: nat, usize: nat,
    arenas: map<nat, Arena>, free: map<Desc, seq<nat>>)

  function FreeList(h: HeapState, d: Desc): seq<nat> { if d in h.free then h.free[d] else [] }

  function WithFree(h: HeapState, d: Desc, blocks: seq<nat>): HeapState { h.(free := h.free[d := blocks]) }

  /** arena_to_block, with the arena given by its page. */
  function Block(page: nat, i: Index, k: nat): nat { page * PAGE_SIZE + HEADER + k * BlockSize(i) }

  /** block_to_arena: the page whose number masking the low 12 bits leaves. */
  function ArenaOf(ptr: nat): nat { ptr / PAGE_SIZE }

  /** The first descriptor whose blocks are large enough. */
  function SizeClass(size: nat): (i: Index)
    requires size <= 1024
    ensures size <= BlockSize(i) && forall j: Index :: j < i ==> BlockSize(j) < size
  {
    if size <= 16 then 0 else if size <= 32 then 1 else if size <= 64 then 2 else if size <= 128 then 3
    else if size <= 256 then 4 else if size <= 512 then 5 else 6
  }

  /** DIV_ROUND_UP(size + sizeof(arena), PAGE_SIZE). */
  function LargePages(size: nat): nat { (size + HEADER + PAGE_SIZE - 1) / PAGE_SIZE }

  datatype Ptr = Ptr(addr: nat) | Null | Halt

  // ---- The C functions ----

  function PoolSize(h: HeapState, t: Flag): nat { if t.Kernel? then h.ksize else h.usize }

  /** The loop that cuts a new arena into blocks; None where its assertion fails. */
  function CutBlocks(blocks: seq<nat>, page: nat, i: Index, k: nat): Option<seq<nat>>
    requires k <= BlocksCnt(i)
    decreases BlocksCnt(i) - k
  {
    if k == BlocksCnt(i) then Some(blocks)
    else if Block(page, i, k) in blocks then None
    else CutBlocks(blocks + [Block(page, i, k)], page, i, k + 1)
  }

  /** A fresh arena for descriptor d. */
  ghost function NewArena(h: HeapState, d: Desc): (HeapState, Ptr) {
    var (p, r) := MallocPage(h.pages, d.flag, 1);
    match r
    case Null => (h.(pages := p), Ptr.Null)
    case Halt => (h.(pages := p), Ptr.Halt)
    case Page(page) =>
      match CutBlocks(FreeList(h, d), page, d.idx, 0)
      case None => (h.(pages := p), Ptr.Halt)
      case Some(blocks) =>
        (WithFree(h.(pages := p, arenas := h.arenas[page := Small(d, BlocksCnt(d.idx))]), d, blocks),
         Ptr(page * PAGE_SIZE))
  }

  /** Take the first block of a descriptor's list and count it off its arena.  (Halt stands for a
      header that is not there or counts no block; the invariant rules both out.) */
  function TakeBlock(h: HeapState, d: Desc): (HeapState, Ptr)
    requires FreeList(h, d) != []
  {
    var mb := FreeList(h, d)[0];
    var a := ArenaOf(mb);
    if a !in h.arenas || h.arenas[a].cnt == 0 then (h, Ptr.Halt)
    else
      (WithFree(h, d, FreeList(h, d)[1..]).(arenas := h.arenas[a := h.arenas[a].(cnt := h.arenas[a].cnt - 1)]), Ptr(mb))
  }

  ghost function SysMalloc(h: HeapState, t: Flag, size: nat): (HeapState, Ptr) {
    if size > PoolSize(h, t) then (h, Ptr.Null)
    else if size > 1024 then
      var n := LargePages(size);
      var (p, r) := MallocPage(h.pages, t, n);
      match r
      case Null => (h.(pages := p), Ptr.Null)
      case Halt => (h.(pages := p), Ptr.Halt)
      case Page(page) => (h.(pages := p, arenas := h.arenas[page := Large(n)]), Ptr(page * PAGE_SIZE + HEADER))
    else
      var d := Desc(t, SizeClass(size));
      if FreeList(h, d) != [] then TakeBlock(h, d)
      else
        var (h1, r) := NewArena(h, d);
        if !r.Ptr? then (h1, r) else if FreeList(h1, d) == [] then (h1, Ptr.Halt) else TakeBlock(h1, d)
  }

  /** list_remove. */
  function RemoveOne(s: seq<nat>, x: nat): seq<nat> {
    if s == [] then [] else if s[0] == x then s[1..] else [s[0]] + RemoveOne(s[1..], x)
  }

  /** The loop that takes every block of an arena off the free list. */
  function RemoveBlocks(s: seq<nat>, page: nat, i: Index, k: nat): seq<nat>
    requires k <= BlocksCnt(i)
    decreases BlocksCnt(i) - k
  {
    if k == BlocksCnt(i) then s
    else RemoveBlocks(if Block(page, i, k) in s then RemoveOne(s, Block(page, i, k)) else s, page, i, k + 1)
  }

  /** Put a block back at the end of its descriptor's list. */
  function PutBlock(h: HeapState, ptr: nat): HeapState
    requires ArenaOf(ptr) in h.arenas && h.arenas[ArenaOf(ptr)].Small?
  {
    var a := ArenaOf(ptr);
    var d := h.arenas[a].desc;
    WithFree(h, d, FreeList(h, d) + [ptr]).(arenas := h.arenas[a := Small(d, h.arenas[a].cnt + 1)])
  }

  /** Give the page of a wholly free arena back. */
  ghost function Reclaim(h: HeapState, t: Flag, a: nat): Option<HeapState>
    requires a in h.arenas && h.arenas[a].Small?
  {
    var d := h.arenas[a].desc;
    match FreePage(h.pages, t, a, 1)
    case None => None
    case Some(p) =>
      Some(WithFree(h, d, RemoveBlocks(FreeList(h, d), a, d.idx, 0)).(pages := p, arenas := h.arenas - {a}))
  }

  /** None where the kernel stops or reads a header that is not there. */
  ghost function SysFree(h: HeapState, t: Flag, ptr: nat): Option<HeapState> {
    var a := ArenaOf(ptr);
    if a !in h.arenas then None
    else match h.arenas[a]
      case Large(cnt) =>
        (match FreePage(h.pages, t, a, cnt)
         case None => None
         case Some(p) => Some(h.(pages := p, arenas := h.arenas - {a})))
      case Small(d, cnt) =>
        var h1 := PutBlock(h, ptr);
        if cnt + 1 == BlocksCnt(d.idx) then Reclaim(h1, t, a) else Some(h1)
  }

  // ---- The invariant ----

  /** What a client holds: an object of the given size, allocated in a context. */
  datatype Object = Object(flag: Flag, size: nat)

  function Span(a: Arena): nat { if a.Large? then a.cnt else 1 }

  /** The pages of every arena are mapped, in its context's range, not lost, not the page directory, and
      nobody else's. */
  ghost predicate ArenasOk(h: HeapState) {
    && (forall a: nat :: a in h.arenas ==> ArenaOk(h.pages, a, h.arenas[a]))
    && (forall a: nat, b: nat :: a in h.arenas && b in h.arenas && a != b ==>
          a + Span(h.arenas[a]) <= b || b + Span(h.arenas[b]) <= a)
  }

  predicate InContext(p: State, t: Flag, page: nat, cnt: nat) {
    Virt(p, t).start <= page && page + cnt <= Virt(p, t).start + |Virt(p, t).bits|
  }

  ghost predicate ArenaOk(p: State, a: nat, r: Arena) {
    && (r.Small? ==> InContext(p, r.desc.flag, a, 1) && r.cnt <= BlocksCnt(r.desc.idx))
    && (r.Large? ==> 0 < r.cnt < 3840 && (InContext(p, Kernel, a, r.cnt) || InContext(p, User, a, r.cnt)))
    && (forall n: nat :: a <= n < a + Span(r) ==> PageOf(p, n).Some? && PageOf(p, n) != Some(p.dir) && n !in p.lost)
  }

  ghost predicate NoDup(s: seq<nat>) { forall i, j :: 0 <= i < j < |s| ==> s[i] != s[j] }

  /** ptr is block k of small arena a. */
  predicate IsBlock(h: HeapState, a: nat, k: nat, ptr: nat) {
    a in h.arenas && h.arenas[a].Small? && k < BlocksCnt(h.arenas[a].desc.idx)
    && ptr == Block(a, h.arenas[a].desc.idx, k)
  }

  /** The blocks of small arena a on its descriptor's free list. */
  ghost function FreeOf(h: HeapState, a: nat): set<nat>
    requires a in h.arenas && h.arenas[a].Small?
  {
    var d := h.arenas[a].desc;
    set k: nat | k < BlocksCnt(d.idx) && Block(a, d.idx, k) in FreeList(h, d)
  }

  ghost predicate ListsNoDup(h: HeapState) { forall d: Desc :: NoDup(FreeList(h, d)) }

  /** Every node of a free list is a block of an arena of that descriptor. */
  ghost predicate ListsOwn(h: HeapState) {
    forall d: Desc, x: nat :: x in FreeList(h, d) ==> OwnBlock(h, d, x)
  }

  ghost predicate OwnBlock(h: HeapState, d: Desc, x: nat) {
    ArenaOf(x) in h.arenas && h.arenas[ArenaOf(x)].Small? && h.arenas[ArenaOf(x)].desc == d
    && exists k: nat :: IsBlock(h, ArenaOf(x), k, x)
  }

  /** Each small arena's `cnt` is the number of its blocks on the free list. */
  ghost predicate Counts(h: HeapState) {
    forall a: nat :: a in h.arenas && h.arenas[a].Small? ==> h.arenas[a].cnt == |FreeOf(h, a)|
  }

  ghost predicate FreeOk(h: HeapState) { ListsNoDup(h) && ListsOwn(h) && Counts(h) }

  /** The live objects are exactly the large arenas and the blocks that are not free. */
  ghost predicate LiveOk(h: HeapState, live: map<nat, Object>) {
    LiveHeld(h, live) && BlocksHeld(h, live) && LargeHeld(h, live)
  }

  ghost predicate LiveHeld(h: HeapState, live: map<nat, Object>) {
    forall x: nat :: x in live ==> LiveObject(h, x, live[x])
  }

  ghost predicate BlocksHeld(h: HeapState, live: map<nat, Object>) {
    forall a: nat, k: nat, x: nat :: IsBlock(h, a, k, x) ==> x in FreeList(h, h.arenas[a].desc) || x in live
  }

  ghost predicate LargeHeld(h: HeapState, live: map<nat, Object>) {
    forall a: nat :: a in h.arenas && h.arenas[a].Large? ==> a * PAGE_SIZE + HEADER in live
  }

  ghost predicate LiveObject(h: HeapState, x: nat, o: Object) {
    var a := ArenaOf(x);
    a in h.arenas &&
    match h.arenas[a]
    case Small(d, _) =>
      o.flag == d.flag && o.size <= BlockSize(d.idx) && x !in FreeList(h, d) && exists k: nat :: IsBlock(h, a, k, x)
    case Large(cnt) =>
      x == a * PAGE_SIZE + HEADER && HEADER + o.size <= cnt * PAGE_SIZE && InContext(h.pages, o.flag, a, cnt)
  }

  /** Everything but the last clause also holds between the steps of one operation. */
  ghost predicate Core(h: HeapState, own: map<nat, Use>, live: map<nat, Object>) {
    Inv(h.pages, own, {}) && ArenasOk(h) && FreeOk(h) && LiveOk(h, live)
  }

  /** Between operations every small arena has a live block. */
  ghost predicate HeapInv(h: HeapState, own: map<nat, Use>, live: map<nat, Object>) {
    && Core(h, own, live)
    && (forall a: nat :: a in h.arenas && h.arenas[a].Small? ==> h.arenas[a].cnt < BlocksCnt(h.arenas[a].desc.idx))
  }
}
