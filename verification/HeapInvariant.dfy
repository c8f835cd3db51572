/** sys_malloc and sys_free keep the heap invariant. */
module HeapInvariant {
  import opened Wrappers
  import opened Paging
  import opened Pages
  import opened PageAlloc
  import opened Heap
  import opened HeapBlocks
  import opened HeapArenas

  // ---- Changes of the page layer alone ----

  lemma PagesOnly(h: HeapState, live: map<nat, Object>, q: State)
    requires FreeOk(h) && LiveOk(h, live) && SameShape(h.pages, q)
    ensures FreeOk(h.(pages := q)) && LiveOk(h.(pages := q), live)
  {
    hide Block, BlocksCnt;
    var h' := h.(pages := q);
    assert forall d: Desc :: FreeList(h', d) == FreeList(h, d);
    forall a: nat | a in h.arenas && h.arenas[a].Small? ensures FreeOf(h', a) == FreeOf(h, a) {}
    forall d: Desc, x: nat | x in FreeList(h', d) ensures OwnBlock(h', d, x) {
      assert x in FreeList(h, d);
      OwnBlockTransfer(h, h', d, x);
    }
    forall x: nat | x in live ensures LiveObject(h', x, live[x]) {
      assert LiveObject(h, x, live[x]);
      LiveTransfer(h, h', x, live[x]);
    }
    forall a: nat, k: nat, x: nat | IsBlock(h', a, k, x) ensures x in FreeList(h', h'.arenas[a].desc) || x in live {
      assert IsBlock(h, a, k, x);
    }
  }

  /** A malloc_page that returned NULL changes nothing the heap holds. */
  lemma RefusedKeeps(h: HeapState, own: map<nat, Use>, live: map<nat, Object>, q: State, own': map<nat, Use>,
          t: Flag, cnt: nat)
    requires Core(h, own, live) && Inv(q, own', {}) && SameShape(h.pages, q)
    requires Refused(h.pages, own, q, own', t, cnt) && !MallocHalts(h.pages, t, cnt)
    ensures Core(h.(pages := q), own', live)
  {
    if VaddrGet(h.pages, t, cnt).1.Null? {
    } else {
      var v := VaddrGet(h.pages, t, cnt).1;
      VaddrGetKeeps(h.pages, own, t, cnt);
      hide Inv, FreeOk, LiveOk;
      PagesOnly(h, live, q);
      ArenasSurviveGrowth(h, own, q, own', v.page, cnt);
    }
  }

  // ---- A new arena ----

  /** The list of a descriptor has no node in a page that is not an arena. */
  lemma NoNodeIn(h: HeapState, d: Desc, page: nat, i: Index)
    requires ListsOwn(h) && page !in h.arenas
    ensures forall k: nat :: k < BlocksCnt(i) ==> Block(page, i, k) !in FreeList(h, d)
  {
    forall k: nat | k < BlocksCnt(i) ensures Block(page, i, k) !in FreeList(h, d) {
      BlockInPage(page, i, k);
      assert Block(page, i, k) in FreeList(h, d) ==> OwnBlock(h, d, Block(page, i, k));
    }
  }

  /** The heap with the blocks of a new arena on its descriptor's list. */
  function WithArena(h: HeapState, q: State, page: nat, d: Desc): HeapState {
    WithFree(h.(pages := q, arenas := h.arenas[page := Small(d, BlocksCnt(d.idx))]), d,
             FreeList(h, d) + BlockSeq(page, d.idx, 0))
  }

  lemma NewArenaLists(h: HeapState, q: State, page: nat, d: Desc)
    requires ListsNoDup(h) && ListsOwn(h) && page !in h.arenas
    ensures ListsNoDup(WithArena(h, q, page, d)) && ListsOwn(WithArena(h, q, page, d))
  {
    var h' := WithArena(h, q, page, d);
    NoNodeIn(h, d, page, d.idx);
    BlockSeqNoDup(page, d.idx);
    hide Block, BlocksCnt;
    var s, b := FreeList(h, d), BlockSeq(page, d.idx, 0);
    assert FreeList(h', d) == s + b;
    forall e: Desc ensures NoDup(FreeList(h', e)) {
      if e == d { NoDupAppend(s, b); } else { assert FreeList(h', e) == FreeList(h, e); }
    }
    forall e: Desc, x: nat | x in FreeList(h', e) ensures OwnBlock(h', e, x) {
      if e == d && x in b {
        var k: nat :| k < |b| && b[k] == x;
        NewBlockOwned(h', page, d, k);
      } else {
        assert x in FreeList(h, e) && OwnBlock(h, e, x);
        OwnBlockTransfer(h, h', e, x);
      }
    }
  }

  lemma NoDupAppend(s: seq<nat>, b: seq<nat>)
    requires NoDup(s) && NoDup(b) && forall x :: x in b ==> x !in s
    ensures NoDup(s + b)
  {
    var r := s + b;
    forall i, j | 0 <= i < j < |r| ensures r[i] != r[j] {
      if i < |s| <= j { assert r[j] == b[j - |s|] && r[j] in b; }
    }
  }

  lemma NewBlockOwned(h: HeapState, page: nat, d: Desc, k: nat)
    requires page in h.arenas && h.arenas[page].Small? && h.arenas[page].desc == d && k < BlocksCnt(d.idx)
    ensures OwnBlock(h, d, Block(page, d.idx, k)) && IsBlock(h, page, k, Block(page, d.idx, k))
  {
    BlockInPage(page, d.idx, k);
    assert IsBlock(h, page, k, Block(page, d.idx, k));
  }

  lemma NewArenaCounts(h: HeapState, q: State, page: nat, d: Desc)
    requires Counts(h) && ListsOwn(h) && page !in h.arenas
    ensures Counts(WithArena(h, q, page, d))
  {
    var h' := WithArena(h, q, page, d);
    NewArenaFull(h, q, page, d);
    forall a: nat | a in h.arenas && h.arenas[a].Small? ensures FreeOf(h', a) == FreeOf(h, a) {
      NewArenaOthers(h, q, page, d, a);
    }
    PageSetSize(0, BlocksCnt(d.idx));
  }

  lemma NewArenaFull(h: HeapState, q: State, page: nat, d: Desc)
    requires page !in h.arenas
    ensures FreeOf(WithArena(h, q, page, d), page) == PageSet(0, BlocksCnt(d.idx))
  {
    hide Block, BlocksCnt, BlockSeq;
    var h' := WithArena(h, q, page, d);
    var s, b := FreeList(h, d), BlockSeq(page, d.idx, 0);
    forall k: nat | k < BlocksCnt(d.idx) ensures Block(page, d.idx, k) in FreeList(h', d) {
      assert (s + b)[|s| + k] == b[k];
    }
    assert forall k: nat :: k in FreeOf(h', page) <==> k in PageSet(0, BlocksCnt(d.idx));
  }

  lemma NewArenaOthers(h: HeapState, q: State, page: nat, d: Desc, a: nat)
    requires page !in h.arenas && a in h.arenas && h.arenas[a].Small?
    ensures FreeOf(WithArena(h, q, page, d), a) == FreeOf(h, a)
  {
    var h' := WithArena(h, q, page, d);
    var b := BlockSeq(page, d.idx, 0);
    var e := h.arenas[a].desc;
    forall k: nat | k < BlocksCnt(e.idx)
      ensures Block(a, e.idx, k) in FreeList(h', e) <==> Block(a, e.idx, k) in FreeList(h, e)
    {
      if e == d && Block(a, e.idx, k) in b {
        var l: nat :| l < |b| && b[l] == Block(a, e.idx, k);
        BlocksOfArenas(a, e.idx, k, page, d.idx, l);
      }
    }
  }

  lemma NewArenaLive(h: HeapState, live: map<nat, Object>, q: State, page: nat, d: Desc)
    requires LiveOk(h, live) && page !in h.arenas && SameShape(h.pages, q)
    ensures LiveOk(WithArena(h, q, page, d), live)
  {
    var h' := WithArena(h, q, page, d);
    var b := BlockSeq(page, d.idx, 0);
    forall x | x in b ensures ArenaOf(x) == page {
      var k: nat :| k < |b| && b[k] == x;
      BlockInPage(page, d.idx, k);
    }
    forall k: nat | k < |b| ensures Block(page, d.idx, k) in FreeList(h', d) {
      assert b[k] in FreeList(h', d);
    }
    hide Block, BlocksCnt;
    forall x: nat | x in live ensures LiveObject(h', x, live[x]) {
      assert LiveObject(h, x, live[x]);
      LiveTransfer(h, h', x, live[x]);
    }
    forall a: nat, k: nat, x: nat | IsBlock(h', a, k, x) ensures x in FreeList(h', h'.arenas[a].desc) || x in live {
      if a != page { assert IsBlock(h, a, k, x); }
    }
  }

  /** A new arena: all of its blocks free, everything else as it was. */
  lemma NewArenaKeeps(h: HeapState, own: map<nat, Use>, live: map<nat, Object>, d: Desc) returns (own': map<nat, Use>)
    requires Core(h, own, live)
    ensures var (h1, r) := NewArena(h, d);
            !MallocHalts(h.pages, d.flag, 1) && TablesCovered(h.pages, d.flag, 1) ==>
              && Core(h1, own', live) && SameShape(h.pages, h1.pages) && SamePinned(own, own')
              && match r
                 case Halt => false
                 case Null => h1 == h.(pages := h1.pages) && MallocPage(h.pages, d.flag, 1).1.Null?
                 case Ptr(addr) => ArenaOf(addr) !in h.arenas && h1 == WithArena(h, h1.pages, ArenaOf(addr), d)
    ensures MallocHalts(h.pages, d.flag, 1) ==> NewArena(h, d).1.Halt?
  {
    hide Inv, ArenasOk, Granted, Refused, ListsNoDup, Counts, LiveOk, ListsOwn, TablesCovered, SamePinned;
    own' := MallocPageKeeps(h.pages, own, d.flag, 1);
    var (q, r) := MallocPage(h.pages, d.flag, 1);
    if TablesCovered(h.pages, d.flag, 1) && !MallocHalts(h.pages, d.flag, 1) {
      if r.Null? {
        RefusedKeeps(h, own, live, q, own', d.flag, 1);
      } else {
        var page := r.page;
        NewArenaOk(h, own, q, own', d.flag, page, Small(d, BlocksCnt(d.idx)));
        NoNodeIn(h, d, page, d.idx);
        CutAppends(FreeList(h, d), page, d.idx, 0);
        NewArenaLists(h, q, page, d);
        NewArenaCounts(h, q, page, d);
        NewArenaLive(h, live, q, page, d);
        assert ArenaOf(page * PAGE_SIZE) == page;
        SameArenas(h.(pages := q, arenas := h.arenas[page := Small(d, BlocksCnt(d.idx))]), WithArena(h, q, page, d));
      }
    }
  }

  lemma SameArenas(h: HeapState, h': HeapState)
    requires ArenasOk(h) && h'.pages == h.pages && h'.arenas == h.arenas
    ensures ArenasOk(h')
  {
  }

  // ---- sys_malloc ----

  /** The pages sys_malloc asks malloc_page for: None when it does not call it. */
  function PagesWanted(h: HeapState, t: Flag, size: nat): Option<nat> {
    if size > PoolSize(h, t) then None
    else if size > 1024 then Some(LargePages(size))
    else if FreeList(h, Desc(t, SizeClass(size))) == [] then Some(1)
    else None
  }

  /** When sys_malloc stops the kernel: it wants pages and malloc_page stops. */
  ghost predicate SysMallocHalts(h: HeapState, t: Flag, size: nat) {
    PagesWanted(h, t, size).Some? && MallocHalts(h.pages, t, PagesWanted(h, t, size).value)
  }

  /** Every page table the call needs can be had; kernel-context calls need none. */
  ghost predicate SysMallocCovered(h: HeapState, t: Flag, size: nat) {
    PagesWanted(h, t, size).Some? ==> TablesCovered(h.pages, t, PagesWanted(h, t, size).value)
  }

  lemma LargeKeeps(h: HeapState, own: map<nat, Use>, live: map<nat, Object>, t: Flag, size: nat)
    returns (own': map<nat, Use>)
    requires HeapInv(h, own, live) && 1024 < size <= PoolSize(h, t)
    ensures var (h', r) := SysMalloc(h, t, size);
            !SysMallocHalts(h, t, size) && SysMallocCovered(h, t, size) ==>
              SamePinned(own, own') &&
              match r
              case Halt => false
              case Null => HeapInv(h', own', live)
              case Ptr(x) => x !in live && HeapInv(h', own', live[x := Object(t, size)])
    ensures SysMallocHalts(h, t, size) ==> SysMalloc(h, t, size).1.Halt?
  {
    hide Inv, ArenasOk, Granted, Refused, LiveOk, FreeOk, MallocPage, TablesCovered, SamePinned;
    var n := LargePages(size);
    own' := MallocPageKeeps(h.pages, own, t, n);
    var (q, r) := MallocPage(h.pages, t, n);
    if TablesCovered(h.pages, t, n) && !MallocHalts(h.pages, t, n) {
      if r.Null? {
        RefusedKeeps(h, own, live, q, own', t, n);
      } else {
        assert 0 < n < 3840;
        NewArenaOk(h, own, q, own', t, r.page, Large(n));
        GrantedInContext(h.pages, own, q, own', t, r.page, n);
        LargeAdded(h, live, q, t, r.page, size);
      }
    }
  }

  lemma GrantedInContext(p: State, own: map<nat, Use>, q: State, own': map<nat, Use>, t: Flag, page: nat, cnt: nat)
    requires Granted(p, own, q, own', t, page, cnt) && SameShape(p, q)
    ensures InContext(q, t, page, cnt)
  {
  }

  lemma LargeAdded(h: HeapState, live: map<nat, Object>, q: State, t: Flag, page: nat, size: nat)
    requires FreeOk(h) && LiveOk(h, live) && SameShape(h.pages, q) && page !in h.arenas
    requires InContext(q, t, page, LargePages(size))
    ensures var h' := h.(pages := q, arenas := h.arenas[page := Large(LargePages(size))]);
            var x := page * PAGE_SIZE + HEADER;
            FreeOk(h') && x !in live && LiveOk(h', live[x := Object(t, size)])
  {
    var h' := h.(pages := q, arenas := h.arenas[page := Large(LargePages(size))]);
    var x0 := page * PAGE_SIZE + HEADER;
    assert ArenaOf(x0) == page;
    assert HEADER + size <= LargePages(size) * PAGE_SIZE;
    hide Block, BlocksCnt, LargePages;
    assert forall x: nat :: x in live ==> LiveObject(h, x, live[x]);
    assert forall d: Desc :: FreeList(h', d) == FreeList(h, d);
    forall a: nat | a in h.arenas && h.arenas[a].Small? ensures FreeOf(h', a) == FreeOf(h, a) {}
    forall d: Desc, x: nat | x in FreeList(h', d) ensures OwnBlock(h', d, x) {
      assert x in FreeList(h, d) && OwnBlock(h, d, x);
      OwnBlockTransfer(h, h', d, x);
    }
    var live' := live[x0 := Object(t, size)];
    forall x: nat | x in live' ensures LiveObject(h', x, live'[x]) {
      if x != x0 { LiveTransfer(h, h', x, live[x]); }
    }
    forall a: nat, k: nat, x: nat | IsBlock(h', a, k, x) ensures x in FreeList(h', h'.arenas[a].desc) || x in live' {
      assert IsBlock(h, a, k, x);
    }
  }

  /** The heap after taking a block: every small arena has a live block again. */
  lemma TakeCloses(h: HeapState, own: map<nat, Use>, live: map<nat, Object>, d: Desc, size: nat)
    requires Core(h, own, live) && FreeList(h, d) != [] && size <= BlockSize(d.idx)
    requires forall a: nat :: a in h.arenas && h.arenas[a].Small? && a != ArenaOf(FreeList(h, d)[0]) ==>
               h.arenas[a].cnt < BlocksCnt(h.arenas[a].desc.idx)
    ensures var (h', r) := TakeBlock(h, d);
            r.Ptr? && r.addr !in live && HeapInv(h', own, live[r.addr := Object(d.flag, size)]) && h'.pages == h.pages
  {
    hide Inv, FreeOk, LiveOk, Block, TakeBlock;
    TakeKeeps(h, own, live, d, Object(d.flag, size));
    var a := ArenaOf(FreeList(h, d)[0]);
    ArenaCount(h, a);
    TakeDesc(h, d);
  }

  lemma TakeDesc(h: HeapState, d: Desc)
    requires FreeOk(h) && FreeList(h, d) != []
    ensures ArenaOf(FreeList(h, d)[0]) in h.arenas && h.arenas[ArenaOf(FreeList(h, d)[0])].Small?
    ensures h.arenas[ArenaOf(FreeList(h, d)[0])].desc == d
  {
    var a, k := TakeShape(h, d);
  }

  lemma SmallKeeps(h: HeapState, own: map<nat, Use>, live: map<nat, Object>, t: Flag, size: nat)
    returns (own': map<nat, Use>)
    requires HeapInv(h, own, live) && size <= 1024 && size <= PoolSize(h, t)
    ensures var (h', r) := SysMalloc(h, t, size);
            !SysMallocHalts(h, t, size) && SysMallocCovered(h, t, size) ==>
              SamePinned(own, own') &&
              match r
              case Halt => false
              case Null => HeapInv(h', own', live)
              case Ptr(x) => x !in live && HeapInv(h', own', live[x := Object(t, size)])
    ensures SysMallocHalts(h, t, size) ==> SysMalloc(h, t, size).1.Halt?
  {
    hide Inv, ArenasOk, LiveOk, FreeOk, NewArena, TakeBlock, TablesCovered;
    var d := Desc(t, SizeClass(size));
    own' := own;
    if FreeList(h, d) != [] {
      TakeCloses(h, own, live, d, size);
    } else {
      own' := NewArenaKeeps(h, own, live, d);
      var (h1, r) := NewArena(h, d);
      if TablesCovered(h.pages, t, 1) && r.Ptr? && !MallocHalts(h.pages, t, 1) {
        var page := ArenaOf(r.addr);
        FirstOfNew(h, h1.pages, page, d);
        TakeCloses(h1, own', live, d, size);
      }
      if FreeList(h1, d) != [] { TakeKeepsPages(h1, d); }
    }
  }

  lemma TakeKeepsPages(h: HeapState, d: Desc)
    requires FreeList(h, d) != []
    ensures TakeBlock(h, d).0.pages == h.pages
  {
  }

  lemma FirstOfNew(h: HeapState, q: State, page: nat, d: Desc)
    requires FreeList(h, d) == []
    ensures var h1 := WithArena(h, q, page, d);
            FreeList(h1, d) != [] && ArenaOf(FreeList(h1, d)[0]) == page
  {
    BlockInPage(page, d.idx, 0);
  }

  /** sys_malloc keeps the heap invariant.  It returns a new object of at least the size asked for, or
      NULL; and it stops the kernel exactly when it needs pages and malloc_page stops it. */
  lemma SysMallocKeeps(h: HeapState, own: map<nat, Use>, live: map<nat, Object>, t: Flag, size: nat)
    returns (own': map<nat, Use>)
    requires HeapInv(h, own, live)
    ensures var (h', r) := SysMalloc(h, t, size);
            SysMallocCovered(h, t, size) ==>
              (!r.Halt? ==> SamePinned(own, own')) &&
              match r
              case Halt => SysMallocHalts(h, t, size)
              case Null => HeapInv(h', own', live)
              case Ptr(x) => x !in live && HeapInv(h', own', live[x := Object(t, size)])
    ensures SysMallocHalts(h, t, size) ==> SysMalloc(h, t, size).1.Halt?
  {
    hide HeapInv, SysMallocCovered;
    if size > PoolSize(h, t) {
      own' := own;
    } else if size > 1024 {
      own' := LargeKeeps(h, own, live, t, size);
    } else {
      own' := SmallKeeps(h, own, live, t, size);
    }
  }

  /** And without those page tables it does not: no use of frames and no objects fit the state it leaves. */
  lemma UncoveredBreaks(h: HeapState, own: map<nat, Use>, live: map<nat, Object>, t: Flag, size: nat)
    requires HeapInv(h, own, live) && !SysMallocCovered(h, t, size)
    ensures forall o: map<nat, Use>, l: map<nat, Object> :: !HeapInv(SysMalloc(h, t, size).0, o, l)
  {
    hide Inv, TablesCovered, MallocPage, ArenasOk, FreeOk, LiveOk;
    var n := PagesWanted(h, t, size).value;
    var own' := MallocPageKeeps(h.pages, own, t, n);
    assert SysMalloc(h, t, size).0.pages == MallocPage(h.pages, t, n).0;
    hide SysMalloc;
  }

  // ---- sys_free ----

  /** In an arena whose counter has reached the number of its blocks, nothing is live. */
  lemma FullArenaNotLive(h: HeapState, live: map<nat, Object>, a: nat)
    requires FreeOk(h) && LiveOk(h, live) && a in h.arenas && h.arenas[a].Small?
    requires h.arenas[a].cnt == BlocksCnt(h.arenas[a].desc.idx)
    ensures forall x: nat :: x in live ==> ArenaOf(x) != a
    ensures forall k: nat :: k < BlocksCnt(h.arenas[a].desc.idx) ==>
              Block(a, h.arenas[a].desc.idx, k) in FreeList(h, h.arenas[a].desc)
  {
    AllFree(h, a);
    hide Block, BlocksCnt, Counts, ListsNoDup, ListsOwn;
    forall x: nat | x in live ensures ArenaOf(x) != a {
      assert LiveObject(h, x, live[x]);
    }
  }

  lemma AllFree(h: HeapState, a: nat)
    requires Counts(h) && a in h.arenas && h.arenas[a].Small?
    requires h.arenas[a].cnt == BlocksCnt(h.arenas[a].desc.idx)
    ensures forall k: nat :: k < BlocksCnt(h.arenas[a].desc.idx) ==>
              Block(a, h.arenas[a].desc.idx, k) in FreeList(h, h.arenas[a].desc)
  {
    IndexSet(FreeOf(h, a), BlocksCnt(h.arenas[a].desc.idx));
    hide Block, BlocksCnt;
    forall k: nat | k < BlocksCnt(h.arenas[a].desc.idx)
      ensures Block(a, h.arenas[a].desc.idx, k) in FreeList(h, h.arenas[a].desc)
    {
      assert k in FreeOf(h, a);
    }
  }

  /** The heap without a wholly free arena: its blocks are off the list, the others keep their order. */
  function WithoutArena(h: HeapState, q: State, a: nat): HeapState
    requires a in h.arenas && h.arenas[a].Small?
  {
    var d := h.arenas[a].desc;
    WithFree(h, d, Without(FreeList(h, d), BlockSet(a, d.idx, 0))).(pages := q, arenas := h.arenas - {a})
  }

  /** On the list of d, the addresses in arena a are exactly a's blocks. */
  lemma BlockSetIsArena(h: HeapState, a: nat, x: nat)
    requires ListsOwn(h) && a in h.arenas && h.arenas[a].Small? && x in FreeList(h, h.arenas[a].desc)
    ensures x in BlockSet(a, h.arenas[a].desc.idx, 0) <==> ArenaOf(x) == a
  {
    var d := h.arenas[a].desc;
    assert OwnBlock(h, d, x);
    var k: nat :| IsBlock(h, ArenaOf(x), k, x);
    var b := BlockSeq(a, d.idx, 0);
    if ArenaOf(x) == a {
      assert b[k] == x;
    } else if x in b {
      var l: nat :| l < |b| && b[l] == x;
      BlockInPage(a, d.idx, l);
    }
  }

  lemma ReclaimLists(h: HeapState, q: State, a: nat)
    requires ListsNoDup(h) && ListsOwn(h) && a in h.arenas && h.arenas[a].Small?
    ensures ListsNoDup(WithoutArena(h, q, a)) && ListsOwn(WithoutArena(h, q, a))
  {
    hide Block, BlocksCnt, BlockSet;
    var h' := WithoutArena(h, q, a);
    var d := h.arenas[a].desc;
    forall e: Desc ensures NoDup(FreeList(h', e)) {
      if e == d {
        WithoutNoDup(FreeList(h, d), BlockSet(a, d.idx, 0));
      } else {
        assert FreeList(h', e) == FreeList(h, e);
      }
    }
    forall e: Desc, x: nat | x in FreeList(h', e) ensures OwnBlock(h', e, x) {
      assert x in FreeList(h, e) && OwnBlock(h, e, x);
      if e == d { BlockSetIsArena(h, a, x); }
      OwnBlockTransfer(h, h', e, x);
    }
  }

  lemma ReclaimCounts(h: HeapState, q: State, a: nat)
    requires Counts(h) && ListsOwn(h) && a in h.arenas && h.arenas[a].Small?
    ensures Counts(WithoutArena(h, q, a))
  {
    var h' := WithoutArena(h, q, a);
    forall b: nat | b in h'.arenas && h'.arenas[b].Small? ensures FreeOf(h', b) == FreeOf(h, b) {
      ReclaimOthers(h, q, a, b);
    }
  }

  lemma ReclaimOthers(h: HeapState, q: State, a: nat, b: nat)
    requires ListsOwn(h) && a in h.arenas && h.arenas[a].Small? && b in h.arenas && h.arenas[b].Small? && a != b
    ensures FreeOf(WithoutArena(h, q, a), b) == FreeOf(h, b)
  {
    var h' := WithoutArena(h, q, a);
    var d, e := h.arenas[a].desc, h.arenas[b].desc;
    forall k: nat | k < BlocksCnt(e.idx)
      ensures Block(b, e.idx, k) in FreeList(h', e) <==> Block(b, e.idx, k) in FreeList(h, e)
    {
      var x := Block(b, e.idx, k);
      BlockInPage(b, e.idx, k);
      hide Block, BlocksCnt;
      if e == d && x in FreeList(h, e) { BlockSetIsArena(h, a, x); }
    }
  }

  lemma ReclaimLive(h: HeapState, live: map<nat, Object>, q: State, a: nat)
    requires LiveOk(h, live) && ListsOwn(h) && a in h.arenas && h.arenas[a].Small? && SameShape(h.pages, q)
    requires forall x: nat :: x in live ==> ArenaOf(x) != a
    ensures LiveOk(WithoutArena(h, q, a), live)
  {
    hide Block, BlocksCnt, BlockSet;
    var h' := WithoutArena(h, q, a);
    var d := h.arenas[a].desc;
    forall x: nat | x in live ensures LiveObject(h', x, live[x]) {
      assert LiveObject(h, x, live[x]);
      LiveTransfer(h, h', x, live[x]);
    }
    forall b: nat, k: nat, x: nat | IsBlock(h', b, k, x) ensures x in FreeList(h', h'.arenas[b].desc) || x in live {
      assert IsBlock(h, b, k, x);
      BlockArena(h, b, k, x);
      if x in FreeList(h, h.arenas[b].desc) && h.arenas[b].desc == d { BlockSetIsArena(h, a, x); }
    }
  }

  /** Reclaiming a wholly free arena succeeds and is exact. */
  lemma ReclaimKeeps(h: HeapState, own: map<nat, Use>, live: map<nat, Object>, t: Flag, a: nat)
    returns (own': map<nat, Use>)
    requires Core(h, own, live) && a in h.arenas && h.arenas[a].Small? && h.arenas[a].desc.flag == t
    requires h.arenas[a].cnt == BlocksCnt(h.arenas[a].desc.idx)
    ensures var r := Reclaim(h, t, a);
            && r.Some? && r.value == WithoutArena(h, r.value.pages, a)
            && Core(r.value, own', live) && SamePinned(own, own')
            && r.value.pages.nullTables == h.pages.nullTables
            && Released(h.pages, own, r.value.pages, own', a, 1)
  {
    hide Inv, FreePage, Counts, ListsOwn, LiveOk, ArenasOk, BlocksCnt;
    FullArenaNotLive(h, live, a);
    SmallInContext(h, a);
    own' := ReleaseArena(h, own, t, a);
    var q := FreePage(h.pages, t, a, 1).value;
    var d := h.arenas[a].desc;
    RemoveBlocksIsWithout(FreeList(h, d), a, d.idx, 0);
    ReclaimLists(h, q, a);
    ReclaimCounts(h, q, a);
    ReclaimLive(h, live, q, a);
    SameArenas(h.(pages := q, arenas := h.arenas - {a}), WithoutArena(h, q, a));
  }

  lemma SmallInContext(h: HeapState, a: nat)
    requires ArenasOk(h) && a in h.arenas && h.arenas[a].Small?
    ensures InContext(h.pages, h.arenas[a].desc.flag, a, 1)
  {
    assert ArenaOk(h.pages, a, h.arenas[a]);
  }

  lemma FreeLarge(h: HeapState, own: map<nat, Use>, live: map<nat, Object>, t: Flag, ptr: nat)
    returns (own': map<nat, Use>)
    requires HeapInv(h, own, live) && ptr in live && live[ptr].flag == t && h.arenas[ArenaOf(ptr)].Large?
    ensures var r := SysFree(h, t, ptr);
            r.Some? && HeapInv(r.value, own', live - {ptr}) && r.value.pages.nullTables == h.pages.nullTables
            && SamePinned(own, own')
            && r.value.arenas == h.arenas - {ArenaOf(ptr)}
            && Released(h.pages, own, r.value.pages, own', ArenaOf(ptr), h.arenas[ArenaOf(ptr)].cnt)
  {
    hide Inv, FreePage, ArenasOk, ArenaOk, BlocksCnt, Block, LiveObject, LiveOk, FreeOk, Released, SameShape, InContext;
    var a := ArenaOf(ptr);
    LargeFacts(h, live, ptr);
    own' := ReleaseArena(h, own, t, a);
    var q := FreePage(h.pages, t, a, h.arenas[a].cnt).value;
    ReleasedShape(h.pages, own, q, own', a, h.arenas[a].cnt);
    LargeRemoved(h, live, q, a, ptr);
  }

  /** The page range of a live large object is in the object's context. */
  lemma LargeFacts(h: HeapState, live: map<nat, Object>, ptr: nat)
    requires LiveOk(h, live) && ArenasOk(h) && ptr in live && h.arenas[ArenaOf(ptr)].Large?
    ensures ArenaOf(ptr) in h.arenas
    ensures var cnt := h.arenas[ArenaOf(ptr)].cnt;
            0 < cnt < 3840 && InContext(h.pages, live[ptr].flag, ArenaOf(ptr), cnt)
  {
    assert LiveObject(h, ptr, live[ptr]) && ArenaOk(h.pages, ArenaOf(ptr), h.arenas[ArenaOf(ptr)]);
  }

  lemma ReleasedShape(p: State, own: map<nat, Use>, q: State, own': map<nat, Use>, page: nat, cnt: nat)
    requires Released(p, own, q, own', page, cnt)
    ensures SameShape(p, q) && q.nullTables == p.nullTables
  {
  }

  lemma LargeRemoved(h: HeapState, live: map<nat, Object>, q: State, a: nat, ptr: nat)
    requires FreeOk(h) && LiveOk(h, live) && SameShape(h.pages, q) && a in h.arenas && h.arenas[a].Large?
    requires ptr in live && ArenaOf(ptr) == a
    ensures var h' := h.(pages := q, arenas := h.arenas - {a}); FreeOk(h') && LiveOk(h', live - {ptr})
  {
    LargeRemovedFree(h, q, a);
    LargeRemovedLive(h, live, q, a, ptr);
    LargeRemovedHeld(h, live, q, a, ptr);
  }

  lemma LargeRemovedLive(h: HeapState, live: map<nat, Object>, q: State, a: nat, ptr: nat)
    requires LiveHeld(h, live) && SameShape(h.pages, q) && a in h.arenas && h.arenas[a].Large?
    requires ptr in live && ArenaOf(ptr) == a
    ensures LiveHeld(h.(pages := q, arenas := h.arenas - {a}), live - {ptr})
  {
    hide Block, BlocksCnt;
    var h' := h.(pages := q, arenas := h.arenas - {a});
    assert LiveObject(h, ptr, live[ptr]);
    forall x: nat | x in live - {ptr} ensures LiveObject(h', x, live[x]) {
      assert LiveObject(h, x, live[x]);
      LiveTransfer(h, h', x, live[x]);
    }
  }

  lemma LargeRemovedHeld(h: HeapState, live: map<nat, Object>, q: State, a: nat, ptr: nat)
    requires BlocksHeld(h, live) && LargeHeld(h, live) && a in h.arenas && h.arenas[a].Large? && ArenaOf(ptr) == a
    ensures BlocksHeld(h.(pages := q, arenas := h.arenas - {a}), live - {ptr})
    ensures LargeHeld(h.(pages := q, arenas := h.arenas - {a}), live - {ptr})
  {
    var h' := h.(pages := q, arenas := h.arenas - {a});
    forall b: nat, k: nat, x: nat | IsBlock(h', b, k, x)
      ensures x in FreeList(h', h'.arenas[b].desc) || x in live - {ptr}
    {
      assert IsBlock(h, b, k, x);
      BlockArena(h, b, k, x);
    }
    forall b: nat | b in h'.arenas && h'.arenas[b].Large? ensures b * PAGE_SIZE + HEADER in live - {ptr} {
      assert ArenaOf(b * PAGE_SIZE + HEADER) == b;
    }
  }

  lemma LargeRemovedFree(h: HeapState, q: State, a: nat)
    requires FreeOk(h) && a in h.arenas && h.arenas[a].Large?
    ensures FreeOk(h.(pages := q, arenas := h.arenas - {a}))
  {
    hide Block, BlocksCnt;
    var h' := h.(pages := q, arenas := h.arenas - {a});
    assert forall d: Desc :: FreeList(h', d) == FreeList(h, d);
    forall b: nat | b in h'.arenas && h'.arenas[b].Small? ensures FreeOf(h', b) == FreeOf(h, b) {}
    forall d: Desc, x: nat | x in FreeList(h', d) ensures OwnBlock(h', d, x) {
      assert x in FreeList(h, d) && OwnBlock(h, d, x);
      OwnBlockTransfer(h, h', d, x);
    }
  }

  /** sys_free of a live object in its own context never stops the kernel and keeps the heap invariant.
      A small arena goes exactly when the object was its last live block. */
  lemma SysFreeKeeps(h: HeapState, own: map<nat, Use>, live: map<nat, Object>, t: Flag, ptr: nat)
    returns (own': map<nat, Use>)
    requires HeapInv(h, own, live) && ptr in live && live[ptr].flag == t
    ensures var r := SysFree(h, t, ptr);
            r.Some? && HeapInv(r.value, own', live - {ptr}) && r.value.pages.nullTables == h.pages.nullTables
            && SamePinned(own, own')
    ensures ArenaOf(ptr) in h.arenas && h.arenas[ArenaOf(ptr)].Small? ==>
            (ArenaOf(ptr) !in SysFree(h, t, ptr).value.arenas <==>
             forall x: nat :: x in live && x != ptr ==> ArenaOf(x) != ArenaOf(ptr))
  {
    assert LiveObject(h, ptr, live[ptr]);
    var a := ArenaOf(ptr);
    if h.arenas[a].Large? {
      own' := FreeLarge(h, own, live, t, ptr);
    } else {
      own' := FreeSmall(h, own, live, t, ptr);
    }
  }

  lemma FreeSmall(h: HeapState, own: map<nat, Use>, live: map<nat, Object>, t: Flag, ptr: nat)
    returns (own': map<nat, Use>)
    requires HeapInv(h, own, live) && ptr in live && live[ptr].flag == t && h.arenas[ArenaOf(ptr)].Small?
    ensures var r := SysFree(h, t, ptr);
            r.Some? && HeapInv(r.value, own', live - {ptr}) && r.value.pages.nullTables == h.pages.nullTables
            && SamePinned(own, own')
    ensures ArenaOf(ptr) !in SysFree(h, t, ptr).value.arenas <==>
            forall x: nat :: x in live && x != ptr ==> ArenaOf(x) != ArenaOf(ptr)
  {
    var a := ArenaOf(ptr);
    assert LiveObject(h, ptr, live[ptr]);
    hide HeapInv, Core, Reclaim, PutBlock, FreePage, BlocksCnt;
    if h.arenas[a].cnt + 1 == BlocksCnt(h.arenas[a].desc.idx) {
      own' := FreeLast(h, own, live, t, ptr);
    } else {
      own' := own;
      FreeOneOfMany(h, own, live, t, ptr);
    }
  }

  lemma FreeOneOfMany(h: HeapState, own: map<nat, Use>, live: map<nat, Object>, t: Flag, ptr: nat)
    requires HeapInv(h, own, live) && ptr in live && h.arenas[ArenaOf(ptr)].Small?
    requires h.arenas[ArenaOf(ptr)].cnt + 1 != BlocksCnt(h.arenas[ArenaOf(ptr)].desc.idx)
    ensures HeapInv(PutBlock(h, ptr), own, live - {ptr}) && PutBlock(h, ptr).pages == h.pages
    ensures ArenaOf(ptr) in PutBlock(h, ptr).arenas
    ensures exists x: nat :: x in live && x != ptr && ArenaOf(x) == ArenaOf(ptr)
  {
    assert LiveObject(h, ptr, live[ptr]);
    hide Inv, FreeOk, LiveOk, ArenasOk, BlocksCnt, Block;
    PutKeeps(h, own, live, ptr);
    SomeLive(PutBlock(h, ptr), live - {ptr}, ArenaOf(ptr));
    var x: nat :| x in live - {ptr} && ArenaOf(x) == ArenaOf(ptr);
    assert x in live && x != ptr;
  }

  lemma FreeLast(h: HeapState, own: map<nat, Use>, live: map<nat, Object>, t: Flag, ptr: nat)
    returns (own': map<nat, Use>)
    requires HeapInv(h, own, live) && ptr in live && live[ptr].flag == t && h.arenas[ArenaOf(ptr)].Small?
    requires h.arenas[ArenaOf(ptr)].cnt + 1 == BlocksCnt(h.arenas[ArenaOf(ptr)].desc.idx)
    ensures var r := Reclaim(PutBlock(h, ptr), t, ArenaOf(ptr));
            r.Some? && HeapInv(r.value, own', live - {ptr}) && r.value.pages.nullTables == h.pages.nullTables
            && SamePinned(own, own')
            && ArenaOf(ptr) !in r.value.arenas
    ensures forall x: nat :: x in live && x != ptr ==> ArenaOf(x) != ArenaOf(ptr)
  {
    hide Inv, FreeOk, LiveOk, ArenasOk, BlocksCnt, Block, Reclaim, Released, WithoutArena, PutBlock, LiveObject;
    var a := ArenaOf(ptr);
    PutArena(h, live, ptr);
    PutKeeps(h, own, live, ptr);
    var h1 := PutBlock(h, ptr);
    own' := ReclaimKeeps(h1, own, live - {ptr}, t, a);
    WithoutArenas(h1, Reclaim(h1, t, a).value.pages, a);
    FullArenaNotLive(h1, live - {ptr}, a);
    assert forall x: nat :: x in live && x != ptr ==> x in live - {ptr};
  }

  /** Putting a block back counts it on its arena, and nothing else about the arenas or pages changes. */
  lemma PutArena(h: HeapState, live: map<nat, Object>, ptr: nat)
    requires LiveOk(h, live) && ptr in live && h.arenas[ArenaOf(ptr)].Small?
    ensures var a := ArenaOf(ptr);
            && a in h.arenas && PutBlock(h, ptr).arenas == h.arenas[a := h.arenas[a].(cnt := h.arenas[a].cnt + 1)]
            && PutBlock(h, ptr).pages == h.pages && h.arenas[a].desc.flag == live[ptr].flag
  {
    var k := LiveBlock(h, live, ptr);
  }

  lemma WithoutArenas(h: HeapState, q: State, a: nat)
    requires a in h.arenas && h.arenas[a].Small?
    ensures WithoutArena(h, q, a).arenas == h.arenas - {a}
  {
  }

  /** A small arena whose counter is short of the number of its blocks has a live block. */
  lemma SomeLive(h: HeapState, live: map<nat, Object>, a: nat)
    requires FreeOk(h) && LiveOk(h, live) && a in h.arenas && h.arenas[a].Small?
    requires h.arenas[a].cnt < BlocksCnt(h.arenas[a].desc.idx)
    ensures exists x: nat :: x in live && ArenaOf(x) == a
  {
    var d := h.arenas[a].desc;
    var n := BlocksCnt(d.idx);
    PageSetSize(0, n);
    if PageSet(0, n) <= FreeOf(h, a) { SubsetSize(PageSet(0, n), FreeOf(h, a)); }
    var k: nat :| k in PageSet(0, n) && k !in FreeOf(h, a);
    var x := Block(a, d.idx, k);
    assert IsBlock(h, a, k, x);
    BlockArena(h, a, k, x);
  }
}
