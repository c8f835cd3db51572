/** What sys_malloc and sys_free answer and change, exactly: which block or page a call gets, when it gets NULL,
    and what happens to the free lists. */
module HeapAnswers {
  import opened Wrappers
  import opened Bitmaps
  import opened Paging
  import opened Pages
  import opened PagesInvariant
  import opened PageCounts
  import opened PageAlloc
  import opened Heap
  import opened HeapBlocks
  import opened HeapArenas
  import opened HeapInvariant
  import PoolLayout
  import HeapSafety

  // ---- NULL ----

  /** Descriptor i is the one of the smallest blocks that hold size bytes. */
  predicate Fits(i: Index, size: nat) { size <= BlockSize(i) && forall j: Index :: j < i ==> BlockSize(j) < size }

  lemma FitsIsClass(i: Index, size: nat)
    requires Fits(i, size)
    ensures size <= 1024 && i == SizeClass(size)
  {
    assert BlockSize(i) <= 1024;
    var j := SizeClass(size);
  }

  /** The call needs n pages: as few as hold the object behind a header of 12 bytes, or one to cut into blocks when
      none of the right size is free. */
  ghost predicate Wants(h: HeapState, t: Flag, size: nat, n: nat) {
    if size > 1024 then n > 0 && (n - 1) * 4096 < size + 12 <= n * 4096
    else n == 1 && exists i: Index :: Fits(i, size) && FreeList(h, Desc(t, i)) == []
  }

  lemma WantsIs(h: HeapState, t: Flag, size: nat, n: nat)
    requires size <= PoolSize(h, t)
    ensures Wants(h, t, size, n) <==> PagesWanted(h, t, size) == Some(n)
  {
    if size <= 1024 {
      var c := SizeClass(size);
      assert Fits(c, size);
      forall i: Index | Fits(i, size) ensures i == c { FitsIsClass(i, size); }
    }
  }

  ghost predicate NoRun(bits: seq<bool>, n: nat) { forall p: nat :: !Run(bits, p, n) }

  /** malloc_page gives no page, if it does not stop the kernel, exactly when its virtual range has no run of n
      clear bits or its pool has fewer than n. */
  lemma PageNullIff(p: State, own: map<nat, Use>, t: Flag, n: nat)
    requires Inv(p, own, {}) && !MallocPage(p, t, n).1.Halt?
    ensures MallocPage(p, t, n).1.Null? <==> NoRun(Virt(p, t).bits, n) || FreeFrames(Pool(p, t)) < n
  {
    hide Inv, MallocPage, FreeFrames, TablesCovered, Run;
    MallocCounts(p, own, t, n);
    var bits := Virt(p, t).bits;
    if Full(bits) {
      forall q: nat ensures !Run(bits, q, n) { FullNoRun(bits, q, n); }
    }
  }

  /** When malloc_page stops the kernel: on a count its assertions exclude; on a range that is not full but has no
      run of n pages, which its search runs past; and in a user context where every run starts in the last page
      below 3 GiB or beyond. */
  lemma PageHaltsIff(p: State, own: map<nat, Use>, t: Flag, n: nat)
    requires Inv(p, own, {})
    ensures var v := Virt(p, t);
            MallocPage(p, t, n).1.Halt? <==>
            || n == 0 || n >= 3840 || (NoRun(v.bits, n) && !Full(v.bits))
            || (t.User? && !NoRun(v.bits, n) && forall q: nat :: Run(v.bits, q, n) ==> v.start + q >= 0xbffff)
  {
    hide Inv, MallocPage, FreeFrames, TablesCovered, Run;
    MallocCounts(p, own, t, n);
    var bits := Virt(p, t).bits;
    if Full(bits) && n > 0 {
      forall q: nat ensures !Run(bits, q, n) { FullNoRun(bits, q, n); }
    }
  }

  /** And when free_page does, on pages that are mapped: on a count out of range or a run that is not in its range. */
  lemma FreeHaltsIff(p: State, own: map<nat, Use>, t: Flag, page: nat, n: nat)
    requires Inv(p, own, {}) && Mapped(p, page, n) && PageSet(page, n) !! p.lost && SparesDir(p, page, n)
    ensures var v := Virt(p, t);
            FreePage(p, t, page, n).None? <==>
            n == 0 || n >= 3840 || page < v.start || page + n > v.start + |v.bits|
  {
    hide Inv, UnmapPages;
    var v := Virt(p, t);
    if 0 < n < 3840 && v.start <= page && page + n <= v.start + |v.bits| { var o := FreePageKeeps(p, own, t, page, n); }
  }

  /** One round of free_page, on any page, stops the kernel exactly when the page has no page table, so that reading
      its entry faults, or the frame in its entry, present or not, is not of the pool. */
  lemma UnmapHaltsIff(p: State, t: Flag, page: nat)
    requires SelfMap(p.mem, p.dir) && page < WINDOW
    ensures UnmapOne(p, t, page).None? <==>
            || !HasTable(p, page / 1024)
            || !Owns(Pool(p, t), FrameOf(Load(p.mem, Table(p, page / 1024), page % 1024)))
  {
    var va := page * 4096;
    assert va / PAGE_SIZE == page && va % PAGE_SIZE == 0;
    PdePtrHitsPde(p.mem, p.dir, va);
    PtePtrHitsPte(p.mem, p.dir, va);
    hide PtePtr, PdePtr, Target;
  }

  lemma FullNoRun(bits: seq<bool>, q: nat, n: nat)
    requires Full(bits) && n > 0
    ensures !Run(bits, q, n)
  {
    if q + n <= |bits| { assert bits[q]; }
  }

  /** sys_malloc returns NULL, if it does not stop the kernel, exactly when the size exceeds that of the pool, or
      the call needs n pages and there is no run of n free virtual pages or the pool has fewer than n free
      frames. */
  lemma NullIff(h: HeapState, own: map<nat, Use>, t: Flag, size: nat)
    requires Inv(h.pages, own, {}) && !SysMalloc(h, t, size).1.Halt?
    ensures SysMalloc(h, t, size).1.Null? <==>
            || size > (if t.Kernel? then h.ksize else h.usize)
            || (exists n: nat :: Wants(h, t, size, n)
                  && (NoRun(Virt(h.pages, t).bits, n) || FreeFrames(Pool(h.pages, t)) < n))
  {
    hide Inv, MallocPage, FreeFrames, NoRun, CutBlocks, Wants;
    if size <= PoolSize(h, t) {
      forall n: nat ensures Wants(h, t, size, n) <==> PagesWanted(h, t, size) == Some(n) { WantsIs(h, t, size, n); }
      if PagesWanted(h, t, size).Some? { PageNullIff(h.pages, own, t, PagesWanted(h, t, size).value); }
    }
  }

  // ---- What is given ----

  /** Only the list of d is another. */
  ghost predicate OtherLists(h: HeapState, q: HeapState, d: Desc) {
    forall e: Desc :: e != d ==> FreeList(q, e) == FreeList(h, e)
  }

  /** With a free block of the smallest size that will do, the answer is the first on that list; exactly that one
      leaves the list, its arena counts it off, and nothing else changes. */
  lemma TakesFirst(h: HeapState, own: map<nat, Use>, live: map<nat, Object>, t: Flag, size: nat, i: Index)
    requires HeapInv(h, own, live) && size <= PoolSize(h, t) && Fits(i, size) && FreeList(h, Desc(t, i)) != []
    ensures var d := Desc(t, i);
            var (q, r) := SysMalloc(h, t, size);
            var a := FreeList(h, d)[0] / 4096;
            && r == Ptr(FreeList(h, d)[0]) && FreeList(q, d) == FreeList(h, d)[1..] && OtherLists(h, q, d)
            && q.pages == h.pages && q.ksize == h.ksize && q.usize == h.usize
            && a in h.arenas && h.arenas[a].cnt > 0
            && q.arenas == h.arenas[a := h.arenas[a].(cnt := h.arenas[a].cnt - 1)]
  {
    FitsIsClass(i, size);
    var d := Desc(t, i);
    hide Inv, FreeOk, ArenasOk, LiveOk, BlocksCnt, Block, NewArena;
    FirstCounted(h, d);
  }

  lemma FirstCounted(h: HeapState, d: Desc)
    requires FreeOk(h) && FreeList(h, d) != []
    ensures var a := ArenaOf(FreeList(h, d)[0]); a in h.arenas && h.arenas[a].Small? && h.arenas[a].cnt > 0
  {
    var a, k := TakeShape(h, d);
    assert k in FreeOf(h, a);
    hide FreeOf;
  }

  /** With none free, the answer is the first block of a new arena, 12 bytes into the page malloc_page gives; the
      others come on the list in ascending order. */
  lemma TakesNew(h: HeapState, own: map<nat, Use>, live: map<nat, Object>, t: Flag, size: nat, i: Index)
    requires HeapInv(h, own, live) && size <= PoolSize(h, t) && Fits(i, size) && FreeList(h, Desc(t, i)) == []
    requires MallocPage(h.pages, t, 1).1.Page?
    ensures var d := Desc(t, i);
            var (q, r) := SysMalloc(h, t, size);
            var page := MallocPage(h.pages, t, 1).1.page;
            && r == Ptr(page * 4096 + 12) && OtherLists(h, q, d) && q.pages == MallocPage(h.pages, t, 1).0
            && |FreeList(q, d)| == 4084 / BlockSize(i) - 1
            && (forall k: nat :: k < |FreeList(q, d)| ==>
                  FreeList(q, d)[k] == page * 4096 + 12 + (k + 1) * BlockSize(i))
            && page !in h.arenas && q.arenas == h.arenas[page := Small(d, 4084 / BlockSize(i) - 1)]
  {
    hide Inv, ArenasOk, LiveOk, FreeOk, MallocPage, CutBlocks, BlockSeq, BlocksCnt, Block;
    FitsIsClass(i, size);
    var page := MallocPage(h.pages, t, 1).1.page;
    NewPage(h, own, t, page);
    CutNew(page, i);
    assert ArenaOf(page * PAGE_SIZE) == page == ArenaOf(page * 4096 + 12);
    FirstBlocks(page, i);
  }

  /** A page malloc_page gives was not an arena. */
  lemma NewPage(h: HeapState, own: map<nat, Use>, t: Flag, page: nat)
    requires Inv(h.pages, own, {}) && ArenasOk(h) && MallocPage(h.pages, t, 1).1 == Page(page)
    ensures page !in h.arenas
  {
    LowestPages(h.pages, t, 1);
    hide MallocPage, ArenasOk, TablesOk, OwnExact, PagesOk;
    if page in h.arenas {
      SpanPositive(h, page);
      SpanReserved(h, own, page, page);
    }
  }

  lemma CutNew(page: nat, i: Index)
    ensures CutBlocks([], page, i, 0) == Some(BlockSeq(page, i, 0))
  {
    CutAppends([], page, i, 0);
    assert [] + BlockSeq(page, i, 0) == BlockSeq(page, i, 0);
  }

  lemma FirstBlocks(page: nat, i: Index)
    ensures var s := BlockSeq(page, i, 0);
            && |s| == BlocksCnt(i) == 4084 / BlockSize(i) && |s| > 0 && s[0] == page * 4096 + 12
            && forall k: nat :: k < |s| - 1 ==> s[1..][k] == page * 4096 + 12 + (k + 1) * BlockSize(i)
  {
    var s := BlockSeq(page, i, 0);
    assert forall k: nat :: k < |s| ==> s[k] == Block(page, i, k);
    forall k: nat | k < |s| - 1 ensures s[1..][k] == page * 4096 + 12 + (k + 1) * BlockSize(i) {
      assert s[1..][k] == s[k + 1] == Block(page, i, k + 1);
    }
  }

  /** A large object is 12 bytes into the first of as few pages as hold it; no list changes. */
  lemma TakesPages(h: HeapState, t: Flag, size: nat, n: nat)
    requires 1024 < size <= PoolSize(h, t) && Wants(h, t, size, n) && MallocPage(h.pages, t, n).1.Page?
    ensures var (q, r) := SysMalloc(h, t, size);
            var page := MallocPage(h.pages, t, n).1.page;
            && r == Ptr(page * 4096 + 12) && q.pages == MallocPage(h.pages, t, n).0 && q.free == h.free
            && q.arenas == h.arenas[page := Large(n)]
  {
    WantsIs(h, t, size, n);
    hide MallocPage;
  }

  /** The pages malloc_page gives are the lowest run of its range that is free. */
  lemma LowestPages(p: State, t: Flag, n: nat)
    requires MallocPage(p, t, n).1.Page?
    ensures var v := Virt(p, t);
            var page := MallocPage(p, t, n).1.page;
            && page >= v.start && Run(v.bits, page - v.start, n)
            && forall k: nat :: k < page - v.start ==> !Run(v.bits, k, n)
  {
    hide MapPages, Run;
  }

  /** sys_malloc stops the kernel exactly when it needs pages and malloc_page stops on them. */
  lemma HaltIff(h: HeapState, own: map<nat, Use>, live: map<nat, Object>, t: Flag, size: nat)
    requires HeapInv(h, own, live)
    ensures SysMalloc(h, t, size).1.Halt? <==>
            && size <= (if t.Kernel? then h.ksize else h.usize)
            && exists n: nat :: Wants(h, t, size, n) && MallocPage(h.pages, t, n).1.Halt?
  {
    hide Inv, ArenasOk, LiveOk, FreeOk, MallocPage, Wants, CutBlocks, TakeBlock, OtherLists, BlocksCnt;
    if size <= PoolSize(h, t) {
      forall n: nat ensures Wants(h, t, size, n) <==> PagesWanted(h, t, size) == Some(n) { WantsIs(h, t, size, n); }
      if size <= 1024 {
        var i := SizeClass(size);
        assert Fits(i, size);
        if FreeList(h, Desc(t, i)) != [] {
          TakesFirst(h, own, live, t, size, i);
        } else if MallocPage(h.pages, t, 1).1.Page? {
          TakesNew(h, own, live, t, size, i);
        }
      }
    }
  }

  // ---- sys_free ----

  /** sys_free of NULL fails its assertion. */
  lemma FreeNullStops(h: HeapState, own: map<nat, Use>, live: map<nat, Object>, t: Flag)
    requires HeapInv(h, own, live)
    ensures SysFree(h, t, 0).None?
  {
    hide FreeOk, LiveOk, TablesOk, OwnExact, PagesOk;
    assert 0 in h.arenas ==> ArenaOk(h.pages, 0, h.arenas[0]);
  }

  /** A block that leaves others of its arena in use goes to the end of its list, and nothing else changes but the
      count of its arena. */
  lemma PutsLast(h: HeapState, own: map<nat, Use>, live: map<nat, Object>, t: Flag, ptr: nat, other: nat)
    requires HeapInv(h, own, live) && ptr in live && live[ptr].flag == t
    requires other in live && other != ptr && other / 4096 == ptr / 4096
    ensures var a := ptr / 4096;
            a in h.arenas && h.arenas[a].Small? &&
            var d := h.arenas[a].desc;
            var r := SysFree(h, t, ptr);
            && r.Some? && FreeList(r.value, d) == FreeList(h, d) + [ptr] && OtherLists(h, r.value, d)
            && r.value.pages == h.pages && r.value.arenas == h.arenas[a := Small(d, h.arenas[a].cnt + 1)]
            && d.flag == t
  {
    hide Inv, FreeOk, LiveOk, ArenasOk, BlocksCnt, Block, Reclaim, PutBlock, LiveObject, FreeList, OtherLists;
    SharedIsSmall(h, live, ptr, other);
    var a := ArenaOf(ptr);
    PutArena(h, live, ptr);
    PutLists(h, ptr);
    if h.arenas[a].cnt + 1 == BlocksCnt(h.arenas[a].desc.idx) { var o := FreeLast(h, own, live, t, ptr); }
  }

  lemma SharedIsSmall(h: HeapState, live: map<nat, Object>, ptr: nat, other: nat)
    requires LiveOk(h, live) && ptr in live && other in live && other != ptr && ArenaOf(other) == ArenaOf(ptr)
    ensures ArenaOf(ptr) in h.arenas && h.arenas[ArenaOf(ptr)].Small?
  {
    assert LiveObject(h, ptr, live[ptr]) && LiveObject(h, other, live[other]);
  }

  /** The nodes of a list that are not in page a, in their order. */
  function Outside(s: seq<nat>, a: nat): seq<nat> {
    if s == [] then [] else if s[0] / 4096 == a then Outside(s[1..], a) else [s[0]] + Outside(s[1..], a)
  }

  /** The last block of a small arena in use takes the page and all its blocks with it; the others stay on the list
      in their order. */
  lemma GivesArena(h: HeapState, own: map<nat, Use>, live: map<nat, Object>, t: Flag, ptr: nat)
    requires HeapInv(h, own, live) && ptr in live && live[ptr].flag == t
    requires ptr / 4096 in h.arenas && h.arenas[ptr / 4096].Small?
    requires forall x: nat :: x in live && x != ptr ==> x / 4096 != ptr / 4096
    ensures var a := ptr / 4096;
            var d := h.arenas[a].desc;
            var r := SysFree(h, t, ptr);
            && r.Some? && FreePage(h.pages, t, a, 1) == Some(r.value.pages) && r.value.arenas == h.arenas - {a}
            && FreeList(r.value, d) == Outside(FreeList(h, d), a) && OtherLists(h, r.value, d)
  {
    hide Inv, ArenasOk, FreeOk, LiveOk, BlocksCnt, FreePage, Block, Released, Reclaim, PutBlock;
    var a := ArenaOf(ptr);
    var d := h.arenas[a].desc;
    if h.arenas[a].cnt + 1 != BlocksCnt(d.idx) { FreeOneOfMany(h, own, live, t, ptr); }
    PutArena(h, live, ptr);
    PutKeeps(h, own, live, ptr);
    var h1 := PutBlock(h, ptr);
    var o := ReclaimKeeps(h1, own, live - {ptr}, t, a);
    ReclaimIs(h1, t, a);
    PutLists(h, ptr);
    OutsideIs(h1, FreeList(h, d), ptr);
  }

  lemma ReclaimIs(h: HeapState, t: Flag, a: nat)
    requires a in h.arenas && h.arenas[a].Small? && Reclaim(h, t, a).Some?
    ensures FreePage(h.pages, t, a, 1) == Some(Reclaim(h, t, a).value.pages)
  {
    hide FreePage, RemoveBlocks;
  }

  lemma PutLists(h: HeapState, ptr: nat)
    requires ptr / 4096 in h.arenas && h.arenas[ptr / 4096].Small?
    ensures var d := h.arenas[ptr / 4096].desc;
            FreeList(PutBlock(h, ptr), d) == FreeList(h, d) + [ptr] && OtherLists(h, PutBlock(h, ptr), d)
            && PutBlock(h, ptr).arenas[ptr / 4096] == Small(d, h.arenas[ptr / 4096].cnt + 1)
  {
  }

  lemma OutsideIs(h: HeapState, s: seq<nat>, ptr: nat)
    requires FreeOk(h) && ptr / 4096 in h.arenas && h.arenas[ptr / 4096].Small?
    requires FreeList(h, h.arenas[ptr / 4096].desc) == s + [ptr]
    ensures Without(s + [ptr], BlockSet(ptr / 4096, h.arenas[ptr / 4096].desc.idx, 0)) == Outside(s, ptr / 4096)
  {
    hide BlockSet, Block, BlocksCnt, Counts, ListsNoDup;
    var a := ptr / 4096;
    var b := BlockSet(a, h.arenas[a].desc.idx, 0);
    forall x | x in s + [ptr] ensures x in b <==> x / 4096 == a { BlockSetIsArena(h, a, x); }
    WithoutIsOutside(s + [ptr], b, a);
    OutsideLast(s, ptr);
  }

  lemma {:induction false} WithoutIsOutside(s: seq<nat>, b: set<nat>, a: nat)
    requires forall x :: x in s ==> (x in b <==> x / 4096 == a)
    ensures Without(s, b) == Outside(s, a)
  {
    if s != [] { WithoutIsOutside(s[1..], b, a); }
  }

  lemma {:induction false} OutsideLast(s: seq<nat>, x: nat)
    ensures Outside(s + [x], x / 4096) == Outside(s, x / 4096)
  {
    if s != [] {
      assert (s + [x])[1..] == s[1..] + [x];
      OutsideLast(s[1..], x);
    }
  }

  /** A large object takes its pages with it and nothing else. */
  lemma GivesPages(h: HeapState, own: map<nat, Use>, live: map<nat, Object>, t: Flag, ptr: nat)
    requires HeapInv(h, own, live) && ptr in live && live[ptr].flag == t
    requires ptr / 4096 in h.arenas && h.arenas[ptr / 4096].Large?
    ensures var a := ptr / 4096;
            var r := SysFree(h, t, ptr);
            && r.Some? && FreePage(h.pages, t, a, h.arenas[a].cnt) == Some(r.value.pages)
            && r.value.arenas == h.arenas - {a} && r.value.free == h.free
  {
    hide Inv, ArenasOk, FreeOk, LiveOk, FreePage, Released;
    var o := FreeLarge(h, own, live, t, ptr);
  }

  // ---- From boot ----

  /** The call after one that made a new arena gets its second block. */
  lemma SecondBlock(h: HeapState, own: map<nat, Use>, live: map<nat, Object>, t: Flag, size: nat, size': nat, i: Index)
    requires HeapInv(h, own, live) && Fits(i, size) && Fits(i, size') && FreeList(h, Desc(t, i)) == []
    requires size <= PoolSize(h, t) && size' <= PoolSize(h, t)
    requires MallocPage(h.pages, t, 1).1.Page? && TablesCovered(h.pages, t, 1)
    ensures var page := MallocPage(h.pages, t, 1).1.page;
            var (q, r) := SysMalloc(h, t, size);
            r == Ptr(page * 4096 + 12) && SysMalloc(q, t, size').1 == Ptr(page * 4096 + 12 + BlockSize(i))
  {
    hide HeapInv, MallocPage, TablesCovered, SysMalloc, OtherLists;
    FitsIsClass(i, size);
    TakesNew(h, own, live, t, size, i);
    var (q, r) := SysMalloc(h, t, size);
    var own' := SysMallocKeeps(h, own, live, t, size);
    KeepsSizes(h, t, size);
    TakesFirst(q, own', live[r.addr := Object(t, size)], t, size', i);
  }

  lemma KeepsSizes(h: HeapState, t: Flag, size: nat)
    ensures var q := SysMalloc(h, t, size).0; q.ksize == h.ksize && q.usize == h.usize
  {
    hide MallocPage, CutBlocks;
  }

  /** After mem_init each pool counts the pages of its half as its size, and nothing is allocated or on a list. */
  lemma BootSizes(allMem: nat, userLength: nat)
    requires allMem < PoolLayout.WORD
    ensures var h := HeapSafety.BootHeap(allMem, userLength);
            var n := PoolLayout.PagesAbove(allMem);
            && h.ksize == n / 2 * 4096 && h.usize == (n - n / 2) * 4096
            && h.arenas == map[] && forall d: Desc :: FreeList(h, d) == []
  {
    hide PoolLayout.PagesAbove, PoolLayout.MemPoolInit;
    PoolLayout.MemSplit(allMem);
  }

  /** The first two objects of one size class, from boot with at least 16 free pages: 0xc010000c, and a block on. */
  lemma FirstObjects(allMem: nat, userLength: nat, size: nat, size': nat, i: Index)
    requires allMem < PoolLayout.WORD && userLength <= 94199 && PoolLayout.PagesAbove(allMem) >= 16
    requires Fits(i, size) && Fits(i, size')
    ensures var (q, r) := SysMalloc(HeapSafety.BootHeap(allMem, userLength), Kernel, size);
            && r == Ptr(0xc010000c) && SysMalloc(q, Kernel, size').1 == Ptr(0xc010000c + BlockSize(i))
  {
    var h := HeapSafety.BootHeap(allMem, userLength);
    hide Inv, MallocPage, PoolLayout.BootState, PoolLayout.MemPoolInit, PoolLayout.PagesAbove, SysMalloc;
    FitsIsClass(i, size);
    FitsIsClass(i, size');
    HeapSafety.BootHeapInv(allMem, userLength);
    BootSizes(allMem, userLength);
    FirstPage(allMem, userLength);
    SecondBlock(h, PoolLayout.BootOwn(), map[], Kernel, size, size', i);
  }

  lemma FirstPage(allMem: nat, userLength: nat)
    requires allMem < PoolLayout.WORD && userLength <= 94199 && PoolLayout.PagesAbove(allMem) >= 16
    ensures var p := PoolLayout.BootState(allMem, userLength);
            MallocPage(p, Kernel, 1).1 == Page(0xc0100) && TablesCovered(p, Kernel, 1)
  {
    var p := PoolLayout.BootState(allMem, userLength);
    PoolLayout.BootPools(allMem, userLength);
    PoolLayout.BootInv(allMem, userLength);
    hide Inv, MallocPage, PoolLayout.BootState, PoolLayout.MemPoolInit, PoolLayout.PagesAbove;
    assert 0 in ClearBits(p.kpool);
    assert Run(p.kvirt.bits, 0, 1);
    MallocCounts(p, PoolLayout.BootOwn(), Kernel, 1);
    LowestPages(p, Kernel, 1);
  }

  /** With 32 MiB. */
  lemma FirstOf32M()
    ensures var (q, r) := SysMalloc(HeapSafety.BootHeap(0x2000000, 0), Kernel, 16);
            r == Ptr(0xc010000c) && SysMalloc(q, Kernel, 16).1 == Ptr(0xc010001c)
  {
    hide SysMalloc;
    assert Fits(0, 16);
    FirstObjects(0x2000000, 0, 16, 16, 0);
  }
}
