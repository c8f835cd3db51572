/** Access rights over every run of the heap: what sys_malloc hands out can be written in user mode. */
module HeapRights {
  import opened Paging
  import opened Pages
  import opened PageAlloc
  import opened AccessRights
  import opened Heap
  import opened HeapArenas
  import opened HeapInvariant
  import opened HeapSafety
  import PoolLayout

  lemma MallocKeepsRights(h: HeapState, own: map<nat, Use>, t: Flag, size: nat)
    requires Inv(h.pages, own, {}) && RightsOk(h.pages)
    ensures RightsOk(SysMalloc(h, t, size).0.pages)
  {
    hide Inv, RightsOk, MallocPage, CutBlocks;
    if size > 1024 { MallocRights(h.pages, own, t, LargePages(size)); } else { MallocRights(h.pages, own, t, 1); }
  }

  /** The pages of an arena are what FreeRights asks for. */
  lemma ArenaPages(h: HeapState, a: nat)
    requires ArenasOk(h) && a in h.arenas
    ensures var n := Span(h.arenas[a]);
            0 < n < 3840 && Mapped(h.pages, a, n) && PageSet(a, n) !! h.pages.lost && SparesDir(h.pages, a, n)
  {
    assert ArenaOk(h.pages, a, h.arenas[a]);
  }

  lemma FreeKeepsRights(h: HeapState, own: map<nat, Use>, live: map<nat, Object>, t: Flag, ptr: nat)
    requires HeapInv(h, own, live) && ptr in live && SysFree(h, t, ptr).Some? && RightsOk(h.pages)
    ensures RightsOk(SysFree(h, t, ptr).value.pages)
  {
    hide Inv, RightsOk, ArenasOk, FreeOk, FreePage, RemoveBlocks, BlocksCnt, Mapped, SparesDir;
    assert LiveObject(h, ptr, live[ptr]);
    var a := ArenaOf(ptr);
    ArenaPages(h, a);
    var n := Span(h.arenas[a]);
    if FreePage(h.pages, t, a, n).Some? {
      FreeInRegion(h.pages, t, a, n);
      FreeRights(h.pages, own, t, a, n);
    }
  }

  lemma FreeInRegion(p: State, t: Flag, page: nat, n: nat)
    requires FreePage(p, t, page, n).Some?
    ensures InRegion(Virt(p, t), page, n)
  {
  }

  lemma {:induction false} RunKeepsRights(h: HeapState, own: map<nat, Use>, live: map<nat, Object>, calls: seq<Call>,
                                          h': HeapState, live': map<nat, Object>)
    requires HeapInv(h, own, live) && Run(h, live, calls, h', live') && Covered(h, live, calls) && RightsOk(h.pages)
    ensures RightsOk(h'.pages)
    decreases |calls|
  {
    hide SysMalloc, SysFree, HeapInv, SysMallocCovered, RightsOk;
    if calls != [] {
      PagesInv(h, own, live);
      match calls[0]
      case Malloc(t, size) =>
        var (h1, r) := SysMalloc(h, t, size);
        MallocKeepsRights(h, own, t, size);
        var own1 := SysMallocKeeps(h, own, live, t, size);
        RunKeepsRights(h1, own1, if r.Ptr? then live[r.addr := Object(t, size)] else live, calls[1..], h', live');
      case Free(t, ptr) =>
        FreeKeepsRights(h, own, live, t, ptr);
        var own1 := SysFreeKeeps(h, own, live, t, ptr);
        RunKeepsRights(SysFree(h, t, ptr).value, own1, live - {ptr}, calls[1..], h', live');
    }
  }

  lemma PagesInv(h: HeapState, own: map<nat, Use>, live: map<nat, Object>)
    requires HeapInv(h, own, live)
    ensures Inv(h.pages, own, {})
  {
  }

  /** After any run from boot, a user-mode write to any byte of a live object is allowed and reaches the frame its
      page is mapped to. */
  lemma ObjectsWritable(allMem: nat, userLength: nat, calls: seq<Call>, h: HeapState, live: map<nat, Object>,
                        x: nat, byte: nat)
    requires allMem < PoolLayout.WORD && userLength <= 94199
    requires Run(BootHeap(allMem, userLength), map[], calls, h, live)
    requires Covered(BootHeap(allMem, userLength), map[], calls)
    requires x in live && byte < live[x].size
    ensures var n := (x + byte) / 4096; UserPage(h.pages, n).Some? && UserPage(h.pages, n) == PageOf(h.pages, n)
  {
    hide Run, Covered, HeapInv, RightsOk, UserWrite, WalkPage;
    BootHeapInv(allMem, userLength);
    BootRights(allMem, userLength);
    var boot := BootHeap(allMem, userLength);
    RunKeepsRights(boot, PoolLayout.BootOwn(), map[], calls, h, live);
    var own := RunKeeps(boot, PoolLayout.BootOwn(), map[], calls, h, live);
    ObjectMapped(h, own, live, x, byte);
    ObjectBelow(h, own, live, x, byte);
    MappedWritable(h.pages, (x + byte) / 4096);
  }

  lemma ObjectBelow(h: HeapState, own: map<nat, Use>, live: map<nat, Object>, x: nat, byte: nat)
    requires HeapInv(h, own, live) && x in live && byte < live[x].size
    ensures (x + byte) / 4096 < WINDOW
  {
    ObjectInArena(h, own, live, x);
    var a: nat := ArenaOf(x);
    var n := (x + byte) / 4096;
    assert a <= n < a + Span(h.arenas[a]);
    SpanReserved(h, own, a, n);
    hide ArenasOk, LiveOk, FreeOk, TablesOk, OwnExact, PagesOk;
  }
}
