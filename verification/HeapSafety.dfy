/** What the heap promises over every sequence of sys_malloc and sys_free calls. */
module HeapSafety {
  import opened Wrappers
  import opened Paging
  import opened Pages
  import opened PageAlloc
  import opened Heap
  import opened HeapBlocks
  import opened HeapArenas
  import opened HeapInvariant
  import PoolLayout

  // ---- What the invariant says about objects ----

  /** The bytes a live object may use: its block, or the rest of its large arena. */
  function Extent(h: HeapState, x: nat): int
    requires ArenaOf(x) in h.arenas
  {
    match h.arenas[ArenaOf(x)]
    case Small(d, _) => BlockSize(d.idx)
    case Large(cnt) => cnt * PAGE_SIZE - HEADER
  }

  /** A live object is at least as long as requested, starts at or after its arena's header, ends inside
      its arena, and masking its address gives the arena back. */
  lemma ObjectInArena(h: HeapState, own: map<nat, Use>, live: map<nat, Object>, x: nat)
    requires HeapInv(h, own, live) && x in live
    ensures ArenaOf(x) in h.arenas
    ensures live[x].size <= Extent(h, x)
    ensures ArenaOf(x) * PAGE_SIZE + HEADER <= x
    ensures x + Extent(h, x) <= (ArenaOf(x) + Span(h.arenas[ArenaOf(x)])) * PAGE_SIZE
  {
    assert LiveObject(h, x, live[x]);
    var a: nat := ArenaOf(x);
    if h.arenas[a].Small? {
      var k: nat :| IsBlock(h, a, k, x);
      BlockInPage(a, h.arenas[a].desc.idx, k);
    }
  }

  /** Every byte of a live object lies in a mapped page. */
  lemma ObjectMapped(h: HeapState, own: map<nat, Use>, live: map<nat, Object>, x: nat, byte: nat)
    requires HeapInv(h, own, live) && x in live && byte < live[x].size
    ensures PageOf(h.pages, (x + byte) / PAGE_SIZE).Some?
  {
    ObjectInArena(h, own, live, x);
    var a: nat := ArenaOf(x);
    var n := (x + byte) / PAGE_SIZE;
    assert a <= n < a + Span(h.arenas[a]);
    SpanReserved(h, own, a, n);
  }

  /** Two different blocks of one arena do not overlap. */
  lemma SameArenaApart(h: HeapState, a: nat, x: nat, y: nat)
    requires x != y && (exists k: nat :: IsBlock(h, a, k, x)) && exists k: nat :: IsBlock(h, a, k, y)
    ensures x + BlockSize(h.arenas[a].desc.idx) <= y || y + BlockSize(h.arenas[a].desc.idx) <= x
  {
    var k: nat :| IsBlock(h, a, k, x);
    var l: nat :| IsBlock(h, a, l, y);
    if k < l { BlocksApart(a, h.arenas[a].desc.idx, k, l); } else { BlocksApart(a, h.arenas[a].desc.idx, l, k); }
  }

  /** Ranges inside different arenas do not overlap. */
  lemma OtherArenaApart(h: HeapState, a: nat, b: nat, x: nat, y: nat, m: int, n: int)
    requires ArenasOk(h) && a in h.arenas && b in h.arenas && a != b
    requires a * PAGE_SIZE <= x && x + m <= (a + Span(h.arenas[a])) * PAGE_SIZE
    requires b * PAGE_SIZE <= y && y + n <= (b + Span(h.arenas[b])) * PAGE_SIZE
    ensures x + m <= y || y + n <= x
  {
    assert a + Span(h.arenas[a]) <= b || b + Span(h.arenas[b]) <= a;
  }

  /** Live objects are pairwise disjoint. */
  lemma ObjectsDisjoint(h: HeapState, own: map<nat, Use>, live: map<nat, Object>, x: nat, y: nat)
    requires HeapInv(h, own, live) && x in live && y in live && x != y
    ensures ArenaOf(x) in h.arenas && ArenaOf(y) in h.arenas
    ensures x + Extent(h, x) <= y || y + Extent(h, y) <= x
  {
    ObjectInArena(h, own, live, x);
    ObjectInArena(h, own, live, y);
    assert LiveObject(h, x, live[x]) && LiveObject(h, y, live[y]);
    hide Inv, ArenasOk, FreeOk, LiveOk, Block, BlocksCnt;
    if ArenaOf(x) == ArenaOf(y) {
      if h.arenas[ArenaOf(x)].Small? { SameArenaApart(h, ArenaOf(x), x, y); }
    } else {
      OtherArenaApart(h, ArenaOf(x), ArenaOf(y), x, y, Extent(h, x), Extent(h, y));
    }
  }

  lemma NodeInPage(h: HeapState, d: Desc, x: nat)
    requires ListsOwn(h) && x in FreeList(h, d)
    ensures ArenaOf(x) in h.arenas && h.arenas[ArenaOf(x)].Small? && h.arenas[ArenaOf(x)].desc == d
    ensures exists k: nat :: IsBlock(h, ArenaOf(x), k, x)
    ensures ArenaOf(x) * PAGE_SIZE + HEADER <= x && x + 8 <= (ArenaOf(x) + 1) * PAGE_SIZE
  {
    assert OwnBlock(h, d, x);
    var k: nat :| IsBlock(h, ArenaOf(x), k, x);
    BlockInPage(ArenaOf(x), d.idx, k);
  }

  /** A free-list node (8 bytes at the start of a free block) lies in a mapped page of a small arena. */
  lemma NodeMapped(h: HeapState, own: map<nat, Use>, live: map<nat, Object>, d: Desc, x: nat)
    requires HeapInv(h, own, live) && x in FreeList(h, d)
    ensures ArenaOf(x) in h.arenas && h.arenas[ArenaOf(x)].Small?
    ensures ArenaOf(x) * PAGE_SIZE + HEADER <= x && x + 8 <= (ArenaOf(x) + 1) * PAGE_SIZE
    ensures PageOf(h.pages, ArenaOf(x)).Some?
  {
    hide Inv, ArenasOk, ListsOwn, Counts, ListsNoDup, LiveOk, Block, BlocksCnt, WalkPage;
    NodeInPage(h, d, x);
    SpanReserved(h, own, ArenaOf(x), ArenaOf(x));
  }

  /** No byte of a live object belongs to an arena header or to a free-list node, so clients that stay
      inside their objects cannot disturb the heap's own data. */
  lemma ObjectsApartFromMetadata(h: HeapState, own: map<nat, Use>, live: map<nat, Object>, x: nat)
    requires HeapInv(h, own, live) && x in live
    ensures forall a: nat :: a in h.arenas ==>
              x + Extent(h, x) <= a * PAGE_SIZE || a * PAGE_SIZE + HEADER <= x
    ensures forall d: Desc, y: nat :: y in FreeList(h, d) ==> x + Extent(h, x) <= y || y + 8 <= x
  {
    ObjectInArena(h, own, live, x);
    var b: nat := ArenaOf(x);
    forall a: nat | a in h.arenas ensures x + Extent(h, x) <= a * PAGE_SIZE || a * PAGE_SIZE + HEADER <= x {
      if a != b {
        assert a + Span(h.arenas[a]) <= b || b + Span(h.arenas[b]) <= a;
        SpanPositive(h, a);
      }
    }
    forall d: Desc, y: nat | y in FreeList(h, d) ensures x + Extent(h, x) <= y || y + 8 <= x {
      NodeApart(h, own, live, x, d, y);
    }
  }

  lemma NodeApart(h: HeapState, own: map<nat, Use>, live: map<nat, Object>, x: nat, d: Desc, y: nat)
    requires HeapInv(h, own, live) && x in live && y in FreeList(h, d)
    ensures ArenaOf(x) in h.arenas && (x + Extent(h, x) <= y || y + 8 <= x)
  {
    hide Inv, ArenasOk, ListsOwn, Counts, ListsNoDup, LiveOk, Block, BlocksCnt;
    ObjectInArena(h, own, live, x);
    NodeInPage(h, d, y);
    if ArenaOf(x) == ArenaOf(y) {
      LiveIsBlock(h, live, d, x, y);
      SameArenaApart(h, ArenaOf(x), x, y);
    } else {
      OtherArenaApart(h, ArenaOf(x), ArenaOf(y), x, y, Extent(h, x), 8);
    }
  }

  lemma LiveIsBlock(h: HeapState, live: map<nat, Object>, d: Desc, x: nat, y: nat)
    requires LiveOk(h, live) && x in live && y in FreeList(h, d) && ArenaOf(x) in h.arenas
    requires h.arenas[ArenaOf(x)].Small? && h.arenas[ArenaOf(x)].desc == d
    ensures x != y && exists k: nat :: IsBlock(h, ArenaOf(x), k, x)
  {
    assert LiveObject(h, x, live[x]);
  }

  // ---- Runs ----

  datatype Call = Malloc(t: Flag, size: nat) | Free(t: Flag, ptr: nat)

  /** A run of the heap from one state to another.  A client frees only what it holds, in the context
      it was allocated in; no call of the run stops the kernel. */
  ghost predicate Run(h: HeapState, live: map<nat, Object>, calls: seq<Call>, h': HeapState, live': map<nat, Object>)
    decreases |calls|
  {
    if calls == [] then h' == h && live' == live
    else match calls[0]
      case Malloc(t, size) =>
        var (h1, r) := SysMalloc(h, t, size);
        (match r
         case Halt => false
         case Null => Run(h1, live, calls[1..], h', live')
         case Ptr(x) => Run(h1, live[x := Object(t, size)], calls[1..], h', live'))
      case Free(t, ptr) =>
        ptr in live && live[ptr].flag == t && SysFree(h, t, ptr).Some?
        && Run(SysFree(h, t, ptr).value, live - {ptr}, calls[1..], h', live')
  }

  /** Before each sys_malloc of the run that takes user pages, the kernel pool covers the page tables they
      lack.  Kernel-context calls always pass. */
  ghost predicate Covered(h: HeapState, live: map<nat, Object>, calls: seq<Call>)
    decreases |calls|
  {
    calls != [] ==>
      match calls[0]
      case Malloc(t, size) =>
        SysMallocCovered(h, t, size) &&
        var (h1, r) := SysMalloc(h, t, size);
        Covered(h1, if r.Ptr? then live[r.addr := Object(t, size)] else live, calls[1..])
      case Free(t, ptr) =>
        SysFree(h, t, ptr).Some? ==> Covered(SysFree(h, t, ptr).value, live - {ptr}, calls[1..])
  }

  lemma {:induction false} KernelCovered(h: HeapState, live: map<nat, Object>, calls: seq<Call>)
    requires forall c :: c in calls ==> c.t.Kernel?
    ensures Covered(h, live, calls)
    decreases |calls|
  {
    hide SysMalloc, SysFree;
    if calls != [] {
      assert calls[0] in calls;
      match calls[0]
      case Malloc(t, size) =>
        var (h1, r) := SysMalloc(h, t, size);
        KernelCovered(h1, if r.Ptr? then live[r.addr := Object(t, size)] else live, calls[1..]);
      case Free(t, ptr) =>
        if SysFree(h, t, ptr).Some? { KernelCovered(SysFree(h, t, ptr).value, live - {ptr}, calls[1..]); }
    }
  }

  /** Heap safety: every state such a run reaches satisfies the invariant, and no frame has gone to another
      address space. */
  lemma {:induction false} RunKeeps(h: HeapState, own: map<nat, Use>, live: map<nat, Object>, calls: seq<Call>,
                                    h': HeapState, live': map<nat, Object>) returns (own': map<nat, Use>)
    requires HeapInv(h, own, live) && Run(h, live, calls, h', live') && Covered(h, live, calls)
    ensures HeapInv(h', own', live') && SamePinned(own, own')
    decreases |calls|
  {
    hide SysMalloc, SysFree, HeapInv, SysMallocCovered, SamePinned;
    if calls == [] {
      own' := own;
      PinnedRefl(own);
    } else {
      match calls[0]
      case Malloc(t, size) =>
        var (h1, r) := SysMalloc(h, t, size);
        var live1 := if r.Ptr? then live[r.addr := Object(t, size)] else live;
        var own1 := SysMallocKeeps(h, own, live, t, size);
        own' := RunKeeps(h1, own1, live1, calls[1..], h', live');
        PinnedTrans(own, own1, own');
      case Free(t, ptr) =>
        var own1 := SysFreeKeeps(h, own, live, t, ptr);
        own' := RunKeeps(SysFree(h, t, ptr).value, own1, live - {ptr}, calls[1..], h', live');
        PinnedTrans(own, own1, own');
    }
  }

  lemma PinnedRefl(a: map<nat, Use>)
    ensures SamePinned(a, a)
  {
  }

  lemma PinnedTrans(a: map<nat, Use>, b: map<nat, Use>, c: map<nat, Use>)
    requires SamePinned(a, b) && SamePinned(b, c)
    ensures SamePinned(a, c)
  {
  }

  /** The heap right after mem_init. */
  function BootHeap(allMem: nat, userLength: nat): HeapState {
    var l := PoolLayout.MemPoolInit(allMem);
    HeapState(PoolLayout.BootState(allMem, userLength), l.kern.size, l.user.size, map[], map[])
  }

  lemma BootHeapInv(allMem: nat, userLength: nat)
    requires allMem < PoolLayout.WORD && userLength <= 94199
    ensures HeapInv(BootHeap(allMem, userLength), PoolLayout.BootOwn(), map[])
  {
    hide Inv;
    PoolLayout.BootInv(allMem, userLength);
  }

  /** sys_malloc in kernel context keeps the heap invariant unconditionally: every kernel heap page has its
      page table from boot on. */
  lemma KernelMallocKeeps(h: HeapState, own: map<nat, Use>, live: map<nat, Object>, size: nat)
          returns (own': map<nat, Use>)
    requires HeapInv(h, own, live)
    ensures var (h', r) := SysMalloc(h, Kernel, size);
            match r
            case Halt => SysMallocHalts(h, Kernel, size)
            case Null => HeapInv(h', own', live) && SamePinned(own, own')
            case Ptr(x) => x !in live && HeapInv(h', own', live[x := Object(Kernel, size)]) && SamePinned(own, own')
  {
    hide SysMalloc, HeapInv, SamePinned;
    own' := SysMallocKeeps(h, own, live, Kernel, size);
  }

  /** Heap safety over kernel-context calls, with no proviso. */
  lemma KernelRunKeeps(h: HeapState, own: map<nat, Use>, live: map<nat, Object>, calls: seq<Call>,
                       h': HeapState, live': map<nat, Object>) returns (own': map<nat, Use>)
    requires HeapInv(h, own, live) && Run(h, live, calls, h', live')
    requires forall c :: c in calls ==> c.t.Kernel?
    ensures HeapInv(h', own', live') && SamePinned(own, own')
  {
    KernelCovered(h, live, calls);
    own' := RunKeeps(h, own, live, calls, h', live');
  }

  lemma BootKernelRunSafe(allMem: nat, userLength: nat, calls: seq<Call>, h': HeapState, live': map<nat, Object>)
    requires allMem < PoolLayout.WORD && userLength <= 94199
    requires Run(BootHeap(allMem, userLength), map[], calls, h', live')
    requires forall c :: c in calls ==> c.t.Kernel?
    ensures exists own': map<nat, Use> ::
              HeapInv(h', own', live') && forall f: nat :: f in own' ==> !own'[f].Pinned?
  {
    hide Run, Covered, HeapInv;
    BootHeapInv(allMem, userLength);
    var own' := KernelRunKeeps(BootHeap(allMem, userLength), PoolLayout.BootOwn(), map[], calls, h', live');
    BootUnpinned();
  }

  lemma BootUnpinned()
    ensures forall f: nat :: f in PoolLayout.BootOwn() ==> !PoolLayout.BootOwn()[f].Pinned?
  {
  }

  /** Heap safety in whole, after any run from boot: a live object is as long as asked for, lies behind its
      arena's header in the arena that masking gives back, in mapped pages, apart from every other live
      object; and every small arena counts its blocks on the free list, which is all of them that are not
      live. */
  lemma HeapSafe(allMem: nat, userLength: nat, calls: seq<Call>, h: HeapState, live: map<nat, Object>, x: nat, y: nat)
    requires allMem < PoolLayout.WORD && userLength <= 94199
    requires Run(BootHeap(allMem, userLength), map[], calls, h, live)
    requires Covered(BootHeap(allMem, userLength), map[], calls)
    ensures x in live ==>
              && ArenaOf(x) in h.arenas && live[x].size <= Extent(h, x)
              && ArenaOf(x) * PAGE_SIZE + HEADER <= x
              && x + Extent(h, x) <= (ArenaOf(x) + Span(h.arenas[ArenaOf(x)])) * PAGE_SIZE
              && (forall n: nat :: x <= n < x + live[x].size ==> PageOf(h.pages, n / PAGE_SIZE).Some?)
    ensures x in live && y in live && x != y ==>
              ArenaOf(x) in h.arenas && ArenaOf(y) in h.arenas && (x + Extent(h, x) <= y || y + Extent(h, y) <= x)
    ensures forall a: nat :: a in h.arenas && h.arenas[a].Small? ==> h.arenas[a].cnt == |FreeOf(h, a)|
    ensures forall a: nat, k: nat :: IsBlock(h, a, k, x) ==> (x in live <==> x !in FreeList(h, h.arenas[a].desc))
  {
    BootHeapInv(allMem, userLength);
    var own := RunKeeps(BootHeap(allMem, userLength), PoolLayout.BootOwn(), map[], calls, h, live);
    Safe(h, own, live, x, y);
  }

  /** No frame is lost track of: after any run from boot a kernel-pool frame is taken exactly when it backs a
      mapped kernel heap page or is the table of a directory entry, and a user-pool frame exactly when it
      backs a mapped user heap page. */
  lemma FramesFromBoot(allMem: nat, userLength: nat, calls: seq<Call>, h: HeapState, live: map<nat, Object>, f: nat)
    requires allMem < PoolLayout.WORD && userLength <= 94199
    requires Run(BootHeap(allMem, userLength), map[], calls, h, live)
    requires Covered(BootHeap(allMem, userLength), map[], calls)
    ensures Owns(h.pages.kpool, f) ==>
              (Taken(h.pages.kpool, f) <==>
                 || (exists n: nat :: Owns(h.pages.kvirt, n) && PageOf(h.pages, n) == Some(f))
                 || (exists d: nat :: FIRST_DIR <= d < 1023 && HasTable(h.pages, d) && Table(h.pages, d) == f))
    ensures Owns(h.pages.upool, f) ==>
              (Taken(h.pages.upool, f) <==> exists n: nat :: Owns(h.pages.uvirt, n) && PageOf(h.pages, n) == Some(f))
  {
    hide Inv, Run, Covered, ArenasOk, FreeOk, LiveOk;
    BootHeapInv(allMem, userLength);
    var own := RunKeeps(BootHeap(allMem, userLength), PoolLayout.BootOwn(), map[], calls, h, live);
    BootUnpinned();
    assert !(f in own && own[f].Pinned?);
    if Owns(h.pages.kpool, f) { KernelFramesAccounted(h.pages, own, f); }
    if Owns(h.pages.upool, f) { UserFramesAccounted(h.pages, own, f); }
  }

  lemma Safe(h: HeapState, own: map<nat, Use>, live: map<nat, Object>, x: nat, y: nat)
    requires HeapInv(h, own, live)
    ensures x in live ==>
              && ArenaOf(x) in h.arenas && live[x].size <= Extent(h, x)
              && ArenaOf(x) * PAGE_SIZE + HEADER <= x
              && x + Extent(h, x) <= (ArenaOf(x) + Span(h.arenas[ArenaOf(x)])) * PAGE_SIZE
              && (forall n: nat :: x <= n < x + live[x].size ==> PageOf(h.pages, n / PAGE_SIZE).Some?)
    ensures x in live && y in live && x != y ==>
              ArenaOf(x) in h.arenas && ArenaOf(y) in h.arenas && (x + Extent(h, x) <= y || y + Extent(h, y) <= x)
    ensures forall a: nat :: a in h.arenas && h.arenas[a].Small? ==> h.arenas[a].cnt == |FreeOf(h, a)|
    ensures forall a: nat, k: nat :: IsBlock(h, a, k, x) ==> (x in live <==> x !in FreeList(h, h.arenas[a].desc))
  {
    hide Inv, ArenasOk, Block, BlocksCnt, WalkPage, LiveHeld, LargeHeld, BlocksHeld, ListsOwn, ListsNoDup, Extent;
    if x in live {
      ObjectInArena(h, own, live, x);
      forall n: nat | x <= n < x + live[x].size ensures PageOf(h.pages, n / PAGE_SIZE).Some? {
        ObjectMapped(h, own, live, x, n - x);
      }
      if y in live && x != y { ObjectsDisjoint(h, own, live, x, y); }
    }
    forall a: nat, k: nat | IsBlock(h, a, k, x) ensures x in live <==> x !in FreeList(h, h.arenas[a].desc) {
      FreeOrLive(h, live, a, k, x);
    }
  }

  /** A block is live or on its descriptor's list, not both. */
  lemma FreeOrLive(h: HeapState, live: map<nat, Object>, a: nat, k: nat, x: nat)
    requires LiveOk(h, live) && IsBlock(h, a, k, x)
    ensures x in live <==> x !in FreeList(h, h.arenas[a].desc)
  {
    BlockArena(h, a, k, x);
    if x in live { assert LiveObject(h, x, live[x]); }
  }
}
