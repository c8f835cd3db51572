/** The heap in the address space of a process: it starts with the kernel's arenas and none of its own. */
module HeapProcess {
  import opened Wrappers
  import opened Paging
  import opened Pages
  import opened Heap
  import opened HeapBlocks
  import opened HeapSafety
  import opened Processes

  /** The kernel's arenas and lists, over the pages of the new address space. */
  function KernelPart(h: HeapState, z: State): HeapState {
    h.(pages := z,
       arenas := map a | a in h.arenas && Owns(h.pages.kvirt, a) :: h.arenas[a],
       free := map d | d in h.free && d.flag.Kernel? :: h.free[d])
  }

  function KernelObjects(live: map<nat, Object>): map<nat, Object> {
    map x | x in live && live[x].flag.Kernel? :: live[x]
  }

  /** process_execute, as far as the heap goes: the new process's pages, and its empty descriptors. */
  ghost function NewProcess(h: HeapState, userLength: nat): Option<HeapState> {
    match CreatePageDir(h.pages, userLength)
    case None => None
    case Some(z) => Some(KernelPart(h, z))
  }

  /** A range in one context's region is in no other's. */
  lemma ContextOf(p: State, t: Flag, a: nat, cnt: nat)
    requires Layout(p) && InContext(p, t, a, cnt) && cnt > 0
    ensures Owns(p.kvirt, a) <==> t.Kernel?
    ensures forall n: nat :: a <= n < a + cnt ==> Owns(Virt(p, t), n)
  {
  }

  /** The shape of the new address space, as far as arenas are concerned. */
  ghost predicate KernelView(p: State, z: State, page: nat) {
    && Layout(p) && Layout(z) && z.kvirt.start == p.kvirt.start && |z.kvirt.bits| == |p.kvirt.bits| && z.lost <= p.lost
    && PageOf(p, page).None?
    && (forall n: nat :: Owns(p.kvirt, n) && n != page ==> PageOf(z, n) == PageOf(p, n) && PageOf(p, n) != Some(z.dir))
  }

  lemma KernelArenas(h: HeapState, z: State, page: nat)
    requires ArenasOk(h) && KernelView(h.pages, z, page)
    ensures ArenasOk(KernelPart(h, z))
  {
    hide WalkPage, Layout, BlocksCnt;
    var h' := KernelPart(h, z);
    forall a | a in h'.arenas ensures ArenaOk(z, a, h'.arenas[a]) {
      assert ArenaOk(h.pages, a, h.arenas[a]);
      KernelArena(h, z, page, a);
    }
  }

  lemma KernelArena(h: HeapState, z: State, page: nat, a: nat)
    requires a in h.arenas && ArenaOk(h.pages, a, h.arenas[a]) && Owns(h.pages.kvirt, a) && KernelView(h.pages, z, page)
    ensures ArenaOk(z, a, h.arenas[a])
  {
    hide WalkPage, BlocksCnt;
    var r := h.arenas[a];
    if r.Large? {
      if InContext(h.pages, User, a, r.cnt) { ContextOf(h.pages, User, a, r.cnt); }
      ContextOf(h.pages, Kernel, a, r.cnt);
    } else {
      ContextOf(h.pages, r.desc.flag, a, 1);
    }
    assert forall n: nat :: a <= n < a + Span(r) ==> Owns(h.pages.kvirt, n) && PageOf(h.pages, n).Some?;
  }

  /** A small arena is the kernel's exactly when its descriptor is. */
  lemma SmallIsKernel(h: HeapState, a: nat)
    requires ArenasOk(h) && Layout(h.pages) && a in h.arenas && h.arenas[a].Small?
    ensures Owns(h.pages.kvirt, a) <==> h.arenas[a].desc.flag.Kernel?
  {
    assert ArenaOk(h.pages, a, h.arenas[a]);
    ContextOf(h.pages, h.arenas[a].desc.flag, a, 1);
  }

  lemma KernelLists(h: HeapState, z: State)
    requires ArenasOk(h) && Layout(h.pages) && FreeOk(h)
    ensures FreeOk(KernelPart(h, z))
  {
    hide Block, BlocksCnt, ArenasOk, Layout;
    var h' := KernelPart(h, z);
    forall d: Desc ensures FreeList(h', d) == if d.flag.Kernel? then FreeList(h, d) else [] {}
    forall a: nat | a in h'.arenas && h'.arenas[a].Small? ensures h'.arenas[a].cnt == |FreeOf(h', a)| {
      SmallIsKernel(h, a);
      assert FreeOf(h', a) == FreeOf(h, a);
    }
    forall d: Desc, x: nat | x in FreeList(h', d) ensures OwnBlock(h', d, x) {
      assert x in FreeList(h, d) && OwnBlock(h, d, x);
      SmallIsKernel(h, ArenaOf(x));
      var k: nat :| IsBlock(h, ArenaOf(x), k, x);
      assert IsBlock(h', ArenaOf(x), k, x);
    }
  }

  /** An object is the kernel's exactly when its arena is. */
  lemma ObjectIsKernel(h: HeapState, live: map<nat, Object>, x: nat)
    requires ArenasOk(h) && Layout(h.pages) && x in live && LiveObject(h, x, live[x])
    ensures Owns(h.pages.kvirt, ArenaOf(x)) <==> live[x].flag.Kernel?
  {
    var a := ArenaOf(x);
    assert ArenaOk(h.pages, a, h.arenas[a]);
    if h.arenas[a].Large? { ContextOf(h.pages, live[x].flag, a, h.arenas[a].cnt); } else { SmallIsKernel(h, a); }
  }

  lemma KernelLive(h: HeapState, z: State, page: nat, live: map<nat, Object>)
    requires ArenasOk(h) && LiveOk(h, live) && KernelView(h.pages, z, page)
    ensures LiveOk(KernelPart(h, z), KernelObjects(live))
  {
    hide Block, BlocksCnt, ArenasOk, WalkPage, KernelView, LiveObject, BlocksHeld;
    var h', live' := KernelPart(h, z), KernelObjects(live);
    KernelHeld(h, z, page, live);
    forall x: nat | x in live' ensures LiveObject(h', x, live'[x]) {
      KernelObject(h, z, page, live, x);
    }
    forall a: nat | a in h'.arenas && h'.arenas[a].Large? ensures a * PAGE_SIZE + HEADER in live' {
      KernelLarge(h, z, page, live, a);
    }
  }

  lemma KernelHeld(h: HeapState, z: State, page: nat, live: map<nat, Object>)
    requires ArenasOk(h) && LiveHeld(h, live) && BlocksHeld(h, live) && KernelView(h.pages, z, page)
    ensures BlocksHeld(KernelPart(h, z), KernelObjects(live))
  {
    hide Block, BlocksCnt, ArenasOk, WalkPage;
    var h', live' := KernelPart(h, z), KernelObjects(live);
    forall a: nat, k: nat, x: nat | IsBlock(h', a, k, x) ensures x in FreeList(h', h'.arenas[a].desc) || x in live' {
      assert IsBlock(h, a, k, x);
      SmallIsKernel(h, a);
      BlockArena(h, a, k, x);
      if x in live { assert LiveObject(h, x, live[x]); }
    }
  }

  lemma KernelLarge(h: HeapState, z: State, page: nat, live: map<nat, Object>, a: nat)
    requires ArenasOk(h) && LiveHeld(h, live) && LargeHeld(h, live) && KernelView(h.pages, z, page)
    requires a in KernelPart(h, z).arenas && h.arenas[a].Large?
    ensures a * PAGE_SIZE + HEADER in KernelObjects(live)
  {
    var x := a * PAGE_SIZE + HEADER;
    assert ArenaOf(x) == a && x in live && LiveObject(h, x, live[x]);
    ObjectIsKernel(h, live, x);
  }

  lemma KernelObject(h: HeapState, z: State, page: nat, live: map<nat, Object>, x: nat)
    requires ArenasOk(h) && LiveHeld(h, live) && x in live && live[x].flag.Kernel? && KernelView(h.pages, z, page)
    ensures LiveObject(KernelPart(h, z), x, live[x])
  {
    hide Block, BlocksCnt, WalkPage, ArenasOk;
    assert LiveObject(h, x, live[x]);
    ObjectIsKernel(h, live, x);
    var h', a := KernelPart(h, z), ArenaOf(x);
    if h.arenas[a].Small? {
      var k: nat :| IsBlock(h, a, k, x);
      assert IsBlock(h', a, k, x) && FreeList(h', h.arenas[a].desc) == FreeList(h, h.arenas[a].desc);
    }
  }

  /** The heap of a new process satisfies the heap invariant; so by HeapSafety.RunKeeps does every state its
      calls reach, user calls included. */
  lemma ProcessHeapInv(h: HeapState, own: map<nat, Use>, live: map<nat, Object>, userLength: nat)
    returns (own': map<nat, Use>)
    requires HeapInv(h, own, live) && userLength <= 94199 && NewProcess(h, userLength).Some?
    ensures HeapInv(NewProcess(h, userLength).value, own', KernelObjects(live))
  {
    hide FreeOk, LiveOk, ArenasOk, CreatePageDir, MallocPage, KernelView, PageOf, Shared, Inv;
    own' := ProcessInv(h.pages, own, userLength);
    var z := CreatePageDir(h.pages, userLength).value;
    var page := MallocPage(h.pages, Kernel, 1).1.page;
    ProcessView(h.pages, own, z, own', page);
    KernelArenas(h, z, page);
    KernelLists(h, z);
    KernelLive(h, z, page, live);
  }

  lemma ProcessView(p: State, own: map<nat, Use>, z: State, own': map<nat, Use>, page: nat)
    requires Inv(p, own, {}) && Inv(z, own', {}) && z.dir !in own
    requires z.kvirt.start == p.kvirt.start && |z.kvirt.bits| == |p.kvirt.bits| && z.lost <= p.lost
    requires PageOf(p, page).None?
    requires forall n: nat :: Owns(z.kvirt, n) ==> PageOf(z, n) == if n == page then Some(z.dir) else PageOf(p, n)
    ensures KernelView(p, z, page) && Layout(p)
  {
    hide TablesOk, OwnExact, WalkPage;
  }

  /** Heap safety in a process: boot, kernel calls, process_execute, and then any calls of the process, in
      either context. */
  lemma ProcessSafe(allMem: nat, first: seq<Call>, h: HeapState, live: map<nat, Object>, userLength: nat,
                    calls: seq<Call>, h': HeapState, live': map<nat, Object>, x: nat, y: nat)
    requires allMem < PoolLayout.WORD && userLength <= 94199
    requires Run(BootHeap(allMem, 0), map[], first, h, live) && Covered(BootHeap(allMem, 0), map[], first)
    requires NewProcess(h, userLength).Some?
    requires Run(NewProcess(h, userLength).value, KernelObjects(live), calls, h', live')
    requires Covered(NewProcess(h, userLength).value, KernelObjects(live), calls)
    ensures x in live' ==>
              && ArenaOf(x) in h'.arenas && live'[x].size <= Extent(h', x)
              && ArenaOf(x) * PAGE_SIZE + HEADER <= x
              && x + Extent(h', x) <= (ArenaOf(x) + Span(h'.arenas[ArenaOf(x)])) * PAGE_SIZE
              && (forall n: nat :: x <= n < x + live'[x].size ==> PageOf(h'.pages, n / PAGE_SIZE).Some?)
    ensures x in live' && y in live' && x != y ==>
              ArenaOf(x) in h'.arenas && ArenaOf(y) in h'.arenas && (x + Extent(h', x) <= y || y + Extent(h', y) <= x)
    ensures forall a: nat :: a in h'.arenas && h'.arenas[a].Small? ==> h'.arenas[a].cnt == |FreeOf(h', a)|
    ensures forall a: nat, k: nat ::
              IsBlock(h', a, k, x) ==> (x in live' <==> x !in FreeList(h', h'.arenas[a].desc))
    ensures exists own: map<nat, Use> :: HeapInv(h', own, live')
  {
    hide HeapInv, Run, Covered, NewProcess, Extent;
    BootHeapInv(allMem, 0);
    var own := RunKeeps(BootHeap(allMem, 0), PoolLayout.BootOwn(), map[], first, h, live);
    var own1 := ProcessHeapInv(h, own, live, userLength);
    var own' := RunKeeps(NewProcess(h, userLength).value, own1, KernelObjects(live), calls, h', live');
    Safe(h', own', live', x, y);
  }
}
