/** malloc_page and free_page as whole operations: what they keep, what they return, and that the
    second undoes the first. */
module PageAlloc {
  import opened Wrappers
  import opened Bitmaps
  import opened Paging
  import opened Pages
  import opened PageTables
  import opened PagesInvariant
  import opened PageCounts

  /** The translation of heap pages is the inverse of the use of frames. */
  lemma TranslationIsUse(p: State, own: map<nat, Use>, limbo: set<nat>, m: nat, f: nat)
    requires Inv(p, own, limbo) && InHeap(p, m)
    ensures PageOf(p, m) == Some(f) <==> f in own && own[f] == Data(m)
  {
  }

  /** Distinct mapped heap pages are mapped to distinct frames, and the pool bit of each is set. */
  lemma MappingInjective(p: State, own: map<nat, Use>, m: nat, n: nat)
    requires Inv(p, own, {}) && InHeap(p, m) && InHeap(p, n) && m != n
    requires PageOf(p, m).Some? && PageOf(p, n).Some?
    ensures PageOf(p, m) != PageOf(p, n)
    ensures Taken(if Owns(p.kvirt, m) then p.kpool else p.upool, PageOf(p, m).value)
  {
  }

  /** Conservation: a kernel-pool frame is in use exactly when it backs a kernel heap page, holds a
      page table of this address space, or is pinned by another one. */
  lemma KernelFramesAccounted(p: State, own: map<nat, Use>, f: nat)
    requires Inv(p, own, {}) && Owns(p.kpool, f)
    ensures Taken(p.kpool, f) <==>
            || (exists n: nat :: Owns(p.kvirt, n) && PageOf(p, n) == Some(f))
            || (exists d: nat :: FIRST_DIR <= d < 1023 && HasTable(p, d) && Table(p, d) == f)
            || (f in own && own[f].Pinned?)
  {
    if Taken(p.kpool, f) {
      match own[f]
      case Data(n) => assert PageOf(p, n) == Some(f);
      case TableOf(d) => assert HasTable(p, d);
      case Pinned =>
    }
  }

  /** A user-pool frame is in use exactly when it backs a user heap page or is pinned by another address
      space: it never holds a page table. */
  lemma UserFramesAccounted(p: State, own: map<nat, Use>, f: nat)
    requires Inv(p, own, {}) && Owns(p.upool, f)
    ensures Taken(p.upool, f) <==>
            || (exists n: nat :: Owns(p.uvirt, n) && PageOf(p, n) == Some(f))
            || (f in own && own[f].Pinned?)
  {
    if Taken(p.upool, f) {
      match own[f]
      case Data(n) => assert PageOf(p, n) == Some(f);
      case TableOf(d) =>
      case Pinned =>
    }
  }

  /** With nothing lost, a heap page's virtual bit is set exactly when its entry is present. */
  lemma ReservedIffMapped(p: State, own: map<nat, Use>, n: nat)
    requires Inv(p, own, {}) && InHeap(p, n) && n !in p.lost
    ensures Reserved(p, n) <==> PageOf(p, n).Some?
  {
  }

  /** Same directory and same four regions up to their bits. */
  predicate SameShape(p: State, q: State) {
    p.dir == q.dir
    && p.kpool.start == q.kpool.start && |p.kpool.bits| == |q.kpool.bits|
    && p.upool.start == q.upool.start && |p.upool.bits| == |q.upool.bits|
    && p.kvirt.start == q.kvirt.start && |p.kvirt.bits| == |q.kvirt.bits|
    && p.uvirt.start == q.uvirt.start && |p.uvirt.bits| == |q.uvirt.bits|
  }

  /** own' adds to own only frames for the pages of the run and for page tables that serve it. */
  ghost predicate Grows(own: map<nat, Use>, own': map<nat, Use>, page: nat, cnt: nat) {
    && (forall f: nat :: f in own ==> f in own' && own'[f] == own[f])
    && (forall f: nat :: f in own' && f !in own ==>
          match own'[f]
          case TableOf(d) => d * ENTRIES < page + cnt && page < d * ENTRIES + ENTRIES
          case Data(n) => page <= n < page + cnt
          case Pinned => false)
  }

  /** Running out of page tables is the only thing that goes wrong, and it is counted. */
  lemma AddCountsNullTables(p: State, page: nat, frame: nat)
    requires PageTableAdd(p, page, frame).Some?
    ensures p.nullTables <= PageTableAdd(p, page, frame).value.nullTables
  {
  }

  lemma {:induction false} MapCountsNullTables(p: State, t: Flag, page: nat, cnt: nat)
    ensures p.nullTables <= MapPages(p, t, page, cnt).0.nullTables
    decreases cnt
  {
    if cnt > 0 {
      var (p1, frame) := Palloc(p, t);
      if frame.Some? && PageTableAdd(p1, page, frame.value).Some? {
        AddCountsNullTables(p1, page, frame.value);
        MapCountsNullTables(PageTableAdd(p1, page, frame.value).value, t, page + 1, cnt - 1);
      }
    }
  }

  /** An unavailable page table shows in the counter. */
  lemma NullTableCounted(p: State, own: map<nat, Use>, t: Flag, page: nat)
    requires Inv(p, own, {}) && Owns(Virt(p, t), page)
    requires Palloc(p, t).1.Some? && PageTableAdd(Palloc(p, t).0, page, Palloc(p, t).1.value).Some?
    requires !HasTable(p, page / ENTRIES) && Palloc(p, Kernel).1.None?
    ensures PageTableAdd(Palloc(p, t).0, page, Palloc(p, t).1.value).value.nullTables > p.nullTables
  {
    HeapDirs(p, page);
    PallocFacts(p, t);
    var p1 := Palloc(p, t).0;
    VaOfPage(page);
    PdePtrHitsPde(p1.mem, p1.dir, page * PAGE_SIZE);
  }

  ghost predicate Mapped(p: State, page: nat, cnt: nat) {
    forall n: nat :: page <= n < page + cnt ==> PageOf(p, n).Some?
  }

  ghost predicate InRegion(r: Region, page: nat, cnt: nat) {
    r.start <= page && page + cnt <= r.start + |r.bits|
  }

  lemma StillUnmapped(p: State, q: State, own: map<nat, Use>, own': map<nat, Use>, page: nat, cnt: nat)
    requires Inv(p, own, {}) && Inv(q, own', {}) && SameShape(p, q) && Grows(own, own', page, 1) && cnt > 0
    requires Unmapped(p, page, cnt) && forall n: nat :: page <= n < page + cnt ==> InHeap(p, n)
    ensures Unmapped(q, page + 1, cnt - 1)
  {
    forall n: nat | page + 1 <= n < page + cnt ensures PageOf(q, n).None? {
      assert InHeap(p, n) && PageOf(p, n).None?;
      if PageOf(q, n).Some? {
        var f := PageOf(q, n).value;
        TranslationIsUse(q, own', {}, n, f);
        TranslationIsUse(p, own, {}, n, f);
      }
    }
  }

  /** What the loop of malloc_page leaves, whether it completes or runs out of frames. */
  ghost predicate MapOk(p: State, own: map<nat, Use>, q: State, own': map<nat, Use>, page: nat, cnt: nat, r: Alloc) {
    && Inv(q, own', {}) && Grows(own, own', page, cnt) && SameShape(p, q)
    && q.kvirt == p.kvirt && q.uvirt == p.uvirt && q.lost == p.lost
    && q.nullTables == p.nullTables && !r.Halt? && (r.Page? ==> Mapped(q, page, cnt))
  }

  lemma MapOkOne(p: State, own: map<nat, Use>, q: State, own': map<nat, Use>, page: nat, f: nat)
    requires Inv(p, own, {}) && Inv(q, own', {}) && SameShape(p, q) && InHeap(p, page)
    requires q.kvirt == p.kvirt && q.uvirt == p.uvirt && q.lost == p.lost && q.nullTables == p.nullTables
    requires f in own' && own'[f] == Data(page) && Grows(own, own', page, 1)
    ensures MapOk(p, own, q, own', page, 1, Page(page))
  {
    hide TablesOk, WalkPage;
    TranslationIsUse(q, own', {}, page, f);
  }

  /** One round of the loop. */
  lemma MapOne(p: State, own: map<nat, Use>, t: Flag, page: nat) returns (own': map<nat, Use>)
    requires Inv(p, own, {}) && Owns(Virt(p, t), page) && page in p.lost && PageOf(p, page).None?
    requires Palloc(p, t).1.Some?
    requires HasTable(p, page / ENTRIES) || Palloc(p, Kernel).1.Some?
    ensures var (p1, f) := Palloc(p, t);
            var q := PageTableAdd(p1, page, f.value);
            q.Some? && MapOk(p, own, q.value, own', page, 1, Page(page))
  {
    hide PageTableAdd, TablesOk, OwnExact, PagesOk, FreshTable, WalkPage, Palloc, MapOk;
    PallocFacts(p, t);
    PallocFresh(p, own, t);
    var f := Palloc(p, t).1.value;
    var d := page / ENTRIES;
    if HasTable(p, d) {
      MapWithTable(p, own, t, page);
      own' := own[f := Data(page)];
    } else {
      PallocFacts(p, Kernel);
      PallocFresh(p, own, Kernel);
      MapWithoutTable(p, own, t, page);
      own' := own[Palloc(p, Kernel).1.value := TableOf(d)][f := Data(page)];
      assert d * ENTRIES <= page < d * ENTRIES + ENTRIES;
    }
    MapOkOne(p, own, PageTableAdd(Palloc(p, t).0, page, f).value, own', page, f);
  }

  lemma MapOkStep(p: State, own: map<nat, Use>, p2: State, own1: map<nat, Use>, q: State, own': map<nat, Use>,
                  page: nat, cnt: nat, r: Alloc)
    requires cnt > 0 && InHeap(p, page) && MapOk(p, own, p2, own1, page, 1, Page(page))
    requires MapOk(p2, own1, q, own', page + 1, cnt - 1, r)
    ensures MapOk(p, own, q, own', page, cnt, r)
  {
    var f := PageOf(p2, page).value;
    TranslationIsUse(p2, own1, {}, page, f);
    TranslationIsUse(q, own', {}, page, f);
  }

  lemma {:induction false} MapPagesKeeps(p: State, own: map<nat, Use>, t: Flag, page: nat, cnt: nat)
    returns (own': map<nat, Use>)
    requires Inv(p, own, {}) && InRegion(Virt(p, t), page, cnt) && PageSet(page, cnt) <= p.lost
    requires Unmapped(p, page, cnt)
    ensures var (q, r) := MapPages(p, t, page, cnt);
            q.nullTables == p.nullTables ==> MapOk(p, own, q, own', page, cnt, r)
    decreases cnt
  {
    hide PageTableAdd, Palloc, Layout, TablesOk, OwnExact, PagesOk, WalkPage;
    own' := own;
    if cnt > 0 && Palloc(p, t).1.Some? {
      var (p1, f) := Palloc(p, t);
      assert page in p.lost && PageOf(p, page).None?;
      if !HasTable(p, page / ENTRIES) && Palloc(p, Kernel).1.None? {
        NullTableStops(p, own, t, page, cnt);
      } else {
        var own1 := MapOne(p, own, t, page);
        var p2 := PageTableAdd(p1, page, f.value).value;
        StillUnmapped(p, p2, own, own1, page, cnt);
        own' := MapPagesKeeps(p2, own1, t, page + 1, cnt - 1);
        var (q, r) := MapPages(p2, t, page + 1, cnt - 1);
        if q.nullTables == p.nullTables {
          MapOkStep(p, own, p2, own1, q, own', page, cnt, r);
        }
      }
    } else if cnt > 0 {
      PallocFacts(p, t);
    }
  }

  /** malloc_page's loop gives up only when its own pool is exhausted. */
  lemma {:induction false} MapFailsOnlyWhenFull(p: State, t: Flag, page: nat, cnt: nat)
    requires MapPages(p, t, page, cnt).1.Null?
    ensures Full(Pool(MapPages(p, t, page, cnt).0, t).bits)
    decreases cnt
  {
    hide PageTableAdd;
    PallocFacts(p, t);
    var (p1, f) := Palloc(p, t);
    if f.Some? {
      MapFailsOnlyWhenFull(PageTableAdd(p1, page, f.value).value, t, page + 1, cnt - 1);
    }
  }

  lemma NullTableGoes(p: State, own: map<nat, Use>, t: Flag, page: nat)
    requires Inv(p, own, {}) && Owns(Virt(p, t), page) && PageOf(p, page).None?
    requires Palloc(p, t).1.Some? && !HasTable(p, page / ENTRIES) && Palloc(p, Kernel).1.None?
    ensures PageTableAdd(Palloc(p, t).0, page, Palloc(p, t).1.value).Some?
  {
    hide OwnExact, PagesOk, PageTableAdd;
    HeapDirs(p, page);
    assert t == User;
    PallocFacts(p, t);
    PallocKeepsTables(p, own, t);
    AddWithoutTable(Palloc(p, t).0, page, Palloc(p, t).1.value);
  }

  lemma NullTableStops(p: State, own: map<nat, Use>, t: Flag, page: nat, cnt: nat)
    requires Inv(p, own, {}) && Owns(Virt(p, t), page) && cnt > 0 && PageOf(p, page).None?
    requires Palloc(p, t).1.Some? && !HasTable(p, page / ENTRIES) && Palloc(p, Kernel).1.None?
    ensures MapPages(p, t, page, cnt).0.nullTables > p.nullTables
  {
    hide Inv, PageTableAdd, Palloc, WalkPage;
    NullTableGoes(p, own, t, page);
    NullTableCounted(p, own, t, page);
    var (p1, f) := Palloc(p, t);
    MapCountsNullTables(PageTableAdd(p1, page, f.value).value, t, page + 1, cnt - 1);
  }

  // ---- malloc_page ----

  /** What vaddr_get changes when it finds a run. */
  lemma VaddrGetShape(p: State, t: Flag, cnt: nat)
    requires VaddrGet(p, t, cnt).1.Page?
    ensures var (q, v) := VaddrGet(p, t, cnt);
            && InRegion(Virt(p, t), v.page, cnt) && Run(Virt(p, t).bits, v.page - Virt(p, t).start, cnt)
            && q == WithVirt(p, t, Mark(Virt(p, t), v.page, cnt, true)).(lost := p.lost + PageSet(v.page, cnt))
  {
    var pos := ScanSpec(Virt(p, t).bits, cnt).pos;
    assert Run(Virt(p, t).bits, pos, cnt);
  }

  /** vaddr_get reserves a run no page of which was reserved; it is provisionally lost. */
  lemma VaddrGetKeeps(p: State, own: map<nat, Use>, t: Flag, cnt: nat)
    requires Inv(p, own, {}) && VaddrGet(p, t, cnt).1.Page?
    ensures var (q, v) := VaddrGet(p, t, cnt);
            && InRegion(Virt(p, t), v.page, cnt) && Unmapped(q, v.page, cnt) && Unmapped(p, v.page, cnt)
            && (forall n: nat :: v.page <= n < v.page + cnt ==> !Reserved(p, n) && n !in p.lost)
            && q == WithVirt(p, t, Mark(Virt(p, t), v.page, cnt, true)).(lost := p.lost + PageSet(v.page, cnt))
            && Inv(q, own, {})
  {
    hide TablesOk, OwnExact, WalkPage, Run, ScanSpec, VaddrGet;
    var (q, v) := VaddrGet(p, t, cnt);
    VaddrGetShape(p, t, cnt);
    RunUnused(p, own, t, v.page, cnt);
    VirtOnly(p, q, own);
    MarkedReserved(p, t, v.page, cnt, true);
    var q0 := WithVirt(p, t, Mark(Virt(p, t), v.page, cnt, true));
    assert forall n: nat :: Reserved(q, n) == Reserved(q0, n);
  }

  lemma RunUnused(p: State, own: map<nat, Use>, t: Flag, page: nat, cnt: nat)
    requires Inv(p, own, {}) && InRegion(Virt(p, t), page, cnt) && Run(Virt(p, t).bits, page - Virt(p, t).start, cnt)
    ensures Unmapped(p, page, cnt) && forall n: nat :: page <= n < page + cnt ==> !Reserved(p, n) && n !in p.lost
  {
    hide TablesOk, OwnExact, WalkPage;
    var r := Virt(p, t);
    forall n: nat | page <= n < page + cnt ensures !Reserved(p, n) && n !in p.lost && PageOf(p, n).None? {
      assert InHeap(p, n) && !r.bits[n - r.start];
    }
  }

  /** malloc_page stops the kernel exactly when its page count is out of range, the virtual scan
      panics, or a user run starts at or past the last page below 3 GiB. */
  ghost predicate MallocHalts(p: State, t: Flag, cnt: nat) {
    !(0 < cnt < 3840) || VaddrGet(p, t, cnt).1.Halt?
  }

  /** What a successful malloc_page of cnt pages at `page` has done. */
  ghost predicate Granted(p: State, own: map<nat, Use>, q: State, own': map<nat, Use>, t: Flag, page: nat, cnt: nat) {
    && InRegion(Virt(p, t), page, cnt) && Unmapped(p, page, cnt) && Mapped(q, page, cnt)
    && (forall n: nat :: page <= n < page + cnt ==> !Reserved(p, n) && n !in p.lost)
    && q.lost == p.lost && Grows(own, own', page, cnt)
    && q.kvirt == (if t.Kernel? then Mark(p.kvirt, page, cnt, true) else p.kvirt)
    && q.uvirt == (if t.User? then Mark(p.uvirt, page, cnt, true) else p.uvirt)
  }

  /** What a malloc_page that returned NULL has done: the run it reserved, if any, stays reserved, and
      the pages mapped before a frame was missing stay mapped, with nobody owning them. */
  ghost predicate Refused(p: State, own: map<nat, Use>, q: State, own': map<nat, Use>, t: Flag, cnt: nat) {
    if VaddrGet(p, t, cnt).1.Null? then q == p && own' == own && Full(Virt(p, t).bits)
    else
      var v := VaddrGet(p, t, cnt).1.PageOr(0);
      && Full(Pool(q, t).bits) && Grows(own, own', v, cnt)
      && q.lost == p.lost + PageSet(v, cnt) && PageSet(v, cnt) !! p.lost
  }

  /** The kernel pool has a frame for every page table that the pages malloc_page gets to lack: a test on
      the state before the call.  Kernel pages lack none. */
  ghost predicate TablesCovered(p: State, t: Flag, cnt: nat) {
    t.User? && !MallocHalts(p, t, cnt) && VaddrGet(p, t, cnt).1.Page? ==>
      |Missing(p, VaddrGet(p, t, cnt).1.page, Min(cnt, FreeFrames(p.upool)))| <= FreeFrames(p.kpool)
  }

  /** The frames of other address spaces are the same. */
  ghost predicate SamePinned(own: map<nat, Use>, own': map<nat, Use>) {
    forall f: nat :: f in own && own[f].Pinned? <==> f in own' && own'[f].Pinned?
  }

  /** What malloc_page returns, from counts taken before the call: a page exactly when it finds a run and its
      pool has a frame for each page; and it puts a page table at address 0, which no invariant allows,
      exactly when the kernel pool does not cover the tables it gets to. */
  lemma MallocCounts(p: State, own: map<nat, Use>, t: Flag, cnt: nat)
    requires Inv(p, own, {})
    ensures var (q, r) := MallocPage(p, t, cnt);
            && (r.Halt? <==> MallocHalts(p, t, cnt))
            && (r.Page? <==> !MallocHalts(p, t, cnt) && VaddrGet(p, t, cnt).1.Page? && cnt <= FreeFrames(Pool(p, t)))
            && (q.nullTables == p.nullTables <==> TablesCovered(p, t, cnt)) && q.nullTables >= p.nullTables
            && (!TablesCovered(p, t, cnt) ==> forall o: map<nat, Use> :: !Inv(q, o, {}))
  {
    hide Layout, TablesOk, OwnExact, PagesOk, WalkPage, MapPages, Missing, FreeFrames;
    if !MallocHalts(p, t, cnt) && VaddrGet(p, t, cnt).1.Page? {
      var (p1, v) := VaddrGet(p, t, cnt);
      VaddrGetKeeps(p, own, t, cnt);
      SameTables(p, p1);
      InvReady(p1, own, t, v.page, cnt);
      MapCounts(p1, t, v.page, cnt);
      var (p2, r) := MapPages(p1, t, v.page, cnt);
      if !TablesCovered(p, t, cnt) { NullTableStays(p2, MallocPage(p, t, cnt).0); }
    }
  }

  lemma SameTables(p: State, q: State)
    requires q.mem == p.mem && q.dir == p.dir
    ensures forall page: nat, cnt: nat :: Missing(q, page, cnt) == Missing(p, page, cnt)
  {
    assert forall d: nat :: HasTable(q, d) == HasTable(p, d);
  }

  lemma NullTableStays(p: State, q: State)
    requires NullTable(p) && q.mem == p.mem && q.dir == p.dir
    ensures forall o: map<nat, Use> :: !Inv(q, o, {})
  {
    assert forall d: nat :: HasTable(q, d) == HasTable(p, d) && Table(q, d) == Table(p, d);
    hide HasTable, Table, WalkPage;
    forall o: map<nat, Use> ensures !Inv(q, o, {}) { NullTableBreaks(q, o, {}); }
  }

  /** malloc_page keeps the invariant if and only if it finds a frame for every page table it gets to. */
  lemma MallocPageKeeps(p: State, own: map<nat, Use>, t: Flag, cnt: nat) returns (own': map<nat, Use>)
    requires Inv(p, own, {})
    ensures MallocPage(p, t, cnt).1.Halt? <==> MallocHalts(p, t, cnt)
    ensures var (q, r) := MallocPage(p, t, cnt);
            !MallocHalts(p, t, cnt) && TablesCovered(p, t, cnt) ==>
              && Inv(q, own', {}) && SameShape(p, q) && SamePinned(own, own') && q.nullTables == p.nullTables
              && (match r case Page(page) => Granted(p, own, q, own', t, page, cnt)
                          case Null => Refused(p, own, q, own', t, cnt)
                          case Halt => false)
    ensures !TablesCovered(p, t, cnt) ==> forall o: map<nat, Use> :: !Inv(MallocPage(p, t, cnt).0, o, {})
  {
    hide PageTableAdd, Palloc, Layout, TablesOk, OwnExact, PagesOk, WalkPage, Granted, Refused, TablesCovered;
    own' := own;
    MallocCounts(p, own, t, cnt);
    if !MallocHalts(p, t, cnt) && VaddrGet(p, t, cnt).1.Page? {
      var (p1, v) := VaddrGet(p, t, cnt);
      VaddrGetKeeps(p, own, t, cnt);
      own' := MapPagesKeeps(p1, own, t, v.page, cnt);
      var (p2, r) := MapPages(p1, t, v.page, cnt);
      if p2.nullTables == p1.nullTables {
        GrowsPinned(own, own', v.page, cnt);
        if r.Page? {
          GrantedLemma(p, own, p1, p2, own', t, cnt);
        } else {
          RefusedLemma(p, own, p1, p2, own', t, cnt);
        }
      }
    } else if !MallocHalts(p, t, cnt) {
      NothingReserved(p, own, t, cnt);
    }
  }

  lemma GrowsPinned(own: map<nat, Use>, own': map<nat, Use>, page: nat, cnt: nat)
    requires Grows(own, own', page, cnt)
    ensures SamePinned(own, own')
  {
  }

  lemma NothingReserved(p: State, own: map<nat, Use>, t: Flag, cnt: nat)
    requires VaddrGet(p, t, cnt).1.Null?
    ensures Refused(p, own, VaddrGet(p, t, cnt).0, own, t, cnt)
  {
  }

  lemma GrantedLemma(p: State, own: map<nat, Use>, p1: State, p2: State, own': map<nat, Use>, t: Flag, cnt: nat)
    requires Inv(p, own, {}) && VaddrGet(p, t, cnt).1.Page? && p1 == VaddrGet(p, t, cnt).0
    requires MapOk(p1, own, p2, own', VaddrGet(p, t, cnt).1.page, cnt, VaddrGet(p, t, cnt).1)
    ensures var page := VaddrGet(p, t, cnt).1.page;
            var q := p2.(lost := p2.lost - PageSet(page, cnt));
            Inv(q, own', {}) && SameShape(p, q) && Granted(p, own, q, own', t, page, cnt)
  {
    hide Palloc, Layout, TablesOk, OwnExact, PagesOk, WalkPage, VaddrGet;
    var page := VaddrGet(p, t, cnt).1.page;
    VaddrGetKeeps(p, own, t, cnt);
    ReclaimInv(p2, own', page, cnt);
    assert p2.lost - PageSet(page, cnt) == p.lost;
    assert forall n: nat :: PageOf(p2.(lost := p2.lost - PageSet(page, cnt)), n) == PageOf(p2, n);
  }

  lemma RefusedLemma(p: State, own: map<nat, Use>, p1: State, p2: State, own': map<nat, Use>, t: Flag, cnt: nat)
    requires Inv(p, own, {}) && VaddrGet(p, t, cnt).1.Page? && p1 == VaddrGet(p, t, cnt).0
    requires MapOk(p1, own, p2, own', VaddrGet(p, t, cnt).1.page, cnt, Null)
    requires (p2, Null) == MapPages(p1, t, VaddrGet(p, t, cnt).1.page, cnt)
    ensures SameShape(p, p2) && Refused(p, own, p2, own', t, cnt)
  {
    hide Palloc, Layout, TablesOk, OwnExact, PagesOk, WalkPage, VaddrGet, MapPages;
    VaddrGetKeeps(p, own, t, cnt);
    MapFailsOnlyWhenFull(p1, t, VaddrGet(p, t, cnt).1.page, cnt);
  }

  /** malloc_page returns NULL and leaves the state as it was exactly when the virtual bitmap is full; it
      returns NULL and leaks exactly when it finds a run for which its pool has too few frames. */
  lemma RefusalLeaksIff(p: State, own: map<nat, Use>, t: Flag, cnt: nat)
    requires Inv(p, own, {})
    ensures var (q, r) := MallocPage(p, t, cnt);
            && (r.Null? && q == p <==> 0 < cnt < 3840 && Full(Virt(p, t).bits))
            && (r.Null? && q != p <==>
                  !MallocHalts(p, t, cnt) && VaddrGet(p, t, cnt).1.Page? && FreeFrames(Pool(p, t)) < cnt)
  {
    hide Layout, TablesOk, OwnExact, PagesOk, WalkPage, FreeFrames, Missing;
    MallocCounts(p, own, t, cnt);
    if cnt >= 1 { NullMeansFull(p, t, cnt); }
    var v := VaddrGet(p, t, cnt).1;
    if !MallocHalts(p, t, cnt) && v.Page? {
      VaddrGetKeeps(p, own, t, cnt);
      MapLost(VaddrGet(p, t, cnt).0, t, v.page, cnt);
      assert v.page in PageSet(v.page, cnt);
    }
  }

  lemma NullMeansFull(p: State, t: Flag, cnt: nat)
    requires cnt >= 1
    ensures VaddrGet(p, t, cnt).1.Null? <==> Full(Virt(p, t).bits)
    ensures VaddrGet(p, t, cnt).1.Null? ==> VaddrGet(p, t, cnt).0 == p
  {
    ScanMeetsItsPromise(Virt(p, t).bits, cnt);
  }

  /** The loop neither loses nor finds pages. */
  lemma {:induction false} MapLost(p: State, t: Flag, page: nat, cnt: nat)
    ensures MapPages(p, t, page, cnt).0.lost == p.lost
    decreases cnt
  {
    if cnt > 0 {
      PallocFrame(p, t);
      var (p1, f) := Palloc(p, t);
      if f.Some? && PageTableAdd(p1, page, f.value).Some? {
        AddLost(p1, page, f.value);
        hide PageTableAdd, Palloc;
        MapLost(PageTableAdd(p1, page, f.value).value, t, page + 1, cnt - 1);
      }
    }
  }

  lemma AddLost(p: State, page: nat, frame: nat)
    requires PageTableAdd(p, page, frame).Some?
    ensures PageTableAdd(p, page, frame).value.lost == p.lost
  {
    PallocFrame(p, Kernel);
  }

  /** Once every page of the run is mapped it is no longer lost. */
  lemma ReclaimInv(p: State, own: map<nat, Use>, page: nat, cnt: nat)
    requires Inv(p, own, {}) && Mapped(p, page, cnt)
    ensures Inv(p.(lost := p.lost - PageSet(page, cnt)), own, {})
  {
    hide WalkPage, TablesOk, OwnExact;
    var q := p.(lost := p.lost - PageSet(page, cnt));
    VirtOnly(p, q, own);
    assert forall n: nat :: Reserved(q, n) == Reserved(p, n);
  }

  // ---- free_page ----

  /** One round of free_page's loop: the frame goes back to its pool and the entry is cleared. */
  lemma UnmapOneKeeps(p: State, own: map<nat, Use>, limbo: set<nat>, t: Flag, page: nat)
    requires Inv(p, own, limbo) && Owns(Virt(p, t), page) && PageOf(p, page).Some?
    requires page in limbo && !Reserved(p, page) && PageOf(p, page) != Some(p.dir)
    ensures var q := UnmapOne(p, t, page);
            && q.Some? && Inv(q.value, own - {PageOf(p, page).value}, limbo) && SameShape(p, q.value)
            && q.value.kvirt == p.kvirt && q.value.uvirt == p.uvirt && q.value.lost == p.lost
            && q.value.nullTables == p.nullTables
            && (forall m: nat :: InHeap(p, m) ==> PageOf(q.value, m) == if m == page then None else PageOf(p, m))
  {
    var f := PageOf(p, page).value;
    HeapDirs(p, page);
    TablesPrivate(p, own);
    VaOfPage(page);
    var va := page * PAGE_SIZE;
    assert Walk(p.mem, p.dir, va) == Some(f * PAGE_SIZE);
    VaddrToPhyAgreesWithWalk(p.mem, p.dir, va);
    assert f * PAGE_SIZE / PAGE_SIZE == f;
    assert own[f] == Data(page) && Owns(Pool(p, t), f);
    var p1 := Pfree(p, t, f).value;
    assert UnmapOne(p, t, page) == PageTableRemove(p1, page);
    RemoveHeapTranslation(p, p1, own, limbo, page);
    ClearBitInv(p, PageTableRemove(p1, page).value, own, limbo, t, f, page);
  }

  lemma RemoveHeapTranslation(p: State, p1: State, own: map<nat, Use>, limbo: set<nat>, page: nat)
    requires Inv(p, own, limbo) && InHeap(p, page) && PageOf(p, page).Some?
    requires p1 == p.(kpool := p1.kpool, upool := p1.upool)
    ensures PageTableRemove(p1, page).Some?
    ensures var q := PageTableRemove(p1, page).value;
            && q == p1.(mem := q.mem)
            && (forall d: nat :: d < ENTRIES ==> Load(q.mem, q.dir, d) == Load(p.mem, p.dir, d))
            && (forall m: nat :: InHeap(p, m) ==> PageOf(q, m) == if m == page then None else PageOf(p, m))
  {
    HeapDirs(p, page);
    TablesPrivate(p, own);
    assert forall d: nat :: HasTable(p1, d) == HasTable(p, d) && Table(p1, d) == Table(p, d);
    assert DirPrivate(p1);
    RemoveTranslation(p1, page, page);
    var q := PageTableRemove(p1, page).value;
    forall m: nat | InHeap(p, m) ensures PageOf(q, m) == if m == page then None else PageOf(p, m) {
      HeapDirs(p, m);
      RemoveTranslation(p1, page, m);
      if SameEntry(p1, m, page) {
        HeapEntriesDistinct(p, own, m, page);
      }
    }
  }

  lemma ClearBitInv(p: State, q: State, own: map<nat, Use>, limbo: set<nat>, t: Flag, f: nat, page: nat)
    requires Inv(p, own, limbo) && Owns(Virt(p, t), page) && PageOf(p, page) == Some(f)
    requires page in limbo && !Reserved(p, page) && Owns(Pool(p, t), f) && f != p.dir
    requires q == WithPool(p, t, Pool(p, t).(bits := Pool(p, t).bits[f - Pool(p, t).start := false])).(mem := q.mem)
    requires forall d: nat :: d < ENTRIES ==> Load(q.mem, q.dir, d) == Load(p.mem, p.dir, d)
    requires forall m: nat :: InHeap(p, m) ==> PageOf(q, m) == if m == page then None else PageOf(p, m)
    ensures Inv(q, own - {f}, limbo)
  {
    assert DirOk(p, own) && 0 !in own;
    hide WalkPage, TablesOk;
    var own' := own - {f};
    assert forall m: nat :: InHeap(q, m) == InHeap(p, m) && Reserved(q, m) == Reserved(p, m);
    TablesTransfer(p, q, own, own');
    PoolBit(p, q, t, f, false);
  }

  /** No page of the run is the directory's own. */
  ghost predicate SparesDir(p: State, page: nat, cnt: nat) {
    forall n: nat :: page <= n < page + cnt ==> PageOf(p, n) != Some(p.dir)
  }

  /** What clearing the entries of a run has done to the frames and the translation. */
  ghost predicate Released(p: State, own: map<nat, Use>, q: State, own': map<nat, Use>, page: nat, cnt: nat) {
    && SameShape(p, q) && q.lost == p.lost && q.nullTables == p.nullTables
    && (forall f: nat :: f in own' <==> f in own && !(own[f].Data? && page <= own[f].page < page + cnt))
    && (forall f: nat :: f in own' ==> own'[f] == own[f])
    && (forall m: nat :: InHeap(p, m) ==>
          PageOf(q, m) == if page <= m < page + cnt then None else PageOf(p, m))
  }

  lemma {:induction false} UnmapPagesKeeps(p: State, own: map<nat, Use>, limbo: set<nat>, t: Flag, page: nat, cnt: nat)
    returns (own': map<nat, Use>)
    requires Inv(p, own, limbo) && InRegion(Virt(p, t), page, cnt) && PageSet(page, cnt) <= limbo
    requires Mapped(p, page, cnt) && SparesDir(p, page, cnt)
    requires forall n: nat :: page <= n < page + cnt ==> !Reserved(p, n)
    ensures var q := UnmapPages(p, t, page, cnt);
            && q.Some? && Inv(q.value, own', limbo) && Released(p, own, q.value, own', page, cnt)
            && q.value.kvirt == p.kvirt && q.value.uvirt == p.uvirt
    decreases cnt
  {
    hide UnmapOne, Layout, TablesOk, OwnExact, PagesOk, WalkPage;
    own' := own;
    if cnt > 0 {
      UnmapOneKeeps(p, own, limbo, t, page);
      var f := PageOf(p, page).value;
      var p1 := UnmapOne(p, t, page).value;
      forall n: nat | page + 1 <= n < page + cnt
        ensures PageOf(p1, n).Some? && PageOf(p1, n) != Some(p1.dir) && !Reserved(p1, n)
      {
        assert InHeap(p, n) && PageOf(p, n).Some? && !Reserved(p, n);
      }
      own' := UnmapPagesKeeps(p1, own - {f}, limbo, t, page + 1, cnt - 1);
      var q := UnmapPages(p1, t, page + 1, cnt - 1).value;
      ReleasedStep(p, own, limbo, p1, q, own', page, cnt);
    }
  }

  lemma ReleasedStep(p: State, own: map<nat, Use>, limbo: set<nat>, p1: State, q: State, own': map<nat, Use>,
          page: nat, cnt: nat)
    requires Inv(p, own, limbo) && InHeap(p, page) && PageOf(p, page).Some? && cnt > 0 && SameShape(p, p1)
    requires p1.lost == p.lost && p1.nullTables == p.nullTables
    requires forall m: nat :: InHeap(p, m) ==> PageOf(p1, m) == if m == page then None else PageOf(p, m)
    requires Released(p1, own - {PageOf(p, page).value}, q, own', page + 1, cnt - 1)
    ensures Released(p, own, q, own', page, cnt)
  {
    var f := PageOf(p, page).value;
    forall g: nat | g in own ensures own[g] == Data(page) <==> g == f {
      TranslationIsUse(p, own, limbo, page, g);
    }
    assert forall m: nat :: InHeap(p1, m) == InHeap(p, m);
  }

  /** free_page of a mapped run that nothing was lost from, and that the directory is not in, succeeds and keeps the
      invariant. */
  lemma FreePageKeeps(p: State, own: map<nat, Use>, t: Flag, page: nat, cnt: nat) returns (own': map<nat, Use>)
    requires Inv(p, own, {}) && 0 < cnt < 3840 && InRegion(Virt(p, t), page, cnt) && Mapped(p, page, cnt)
    requires PageSet(page, cnt) !! p.lost && SparesDir(p, page, cnt)
    ensures var q := FreePage(p, t, page, cnt);
            && q.Some? && Inv(q.value, own', {}) && Released(p, own, q.value, own', page, cnt)
            && q.value.kvirt == (if t.Kernel? then Mark(p.kvirt, page, cnt, false) else p.kvirt)
            && q.value.uvirt == (if t.User? then Mark(p.uvirt, page, cnt, false) else p.uvirt)
  {
    hide TablesOk, OwnExact, WalkPage, UnmapPages;
    var limbo := PageSet(page, cnt);
    var p1 := WithVirt(p, t, Mark(Virt(p, t), page, cnt, false));
    ClearVirtInv(p, own, t, page, cnt);
    own' := UnmapPagesKeeps(p1, own, limbo, t, page, cnt);
    var q := UnmapPages(p1, t, page, cnt).value;
    assert forall m: nat :: InHeap(p1, m) == InHeap(p, m) && PageOf(p1, m) == PageOf(p, m);
    forall n: nat | n in limbo ensures InHeap(q, n) && PageOf(q, n).None? {
      assert InHeap(p1, n);
    }
    LeaveLimbo(q, own', limbo);
  }

  lemma ReleasedPinned(p: State, own: map<nat, Use>, q: State, own': map<nat, Use>, page: nat, cnt: nat)
    requires Released(p, own, q, own', page, cnt)
    ensures SamePinned(own, own')
  {
  }

  lemma LeaveLimbo(q: State, own: map<nat, Use>, limbo: set<nat>)
    requires Inv(q, own, limbo) && forall n: nat :: n in limbo ==> PageOf(q, n).None?
    ensures Inv(q, own, {})
  {
  }

  lemma ClearVirtInv(p: State, own: map<nat, Use>, t: Flag, page: nat, cnt: nat)
    requires Inv(p, own, {}) && InRegion(Virt(p, t), page, cnt) && PageSet(page, cnt) !! p.lost
    requires Mapped(p, page, cnt)
    ensures var p1 := WithVirt(p, t, Mark(Virt(p, t), page, cnt, false));
            && Inv(p1, own, PageSet(page, cnt)) && SameShape(p, p1) && Mapped(p1, page, cnt)
            && (SparesDir(p, page, cnt) ==> SparesDir(p1, page, cnt))
            && forall n: nat :: page <= n < page + cnt ==> !Reserved(p1, n)
  {
    hide WalkPage, TablesOk, OwnExact;
    var p1 := WithVirt(p, t, Mark(Virt(p, t), page, cnt, false));
    VirtOnly(p, p1, own);
    MarkedReserved(p, t, page, cnt, false);
  }

  lemma MarkedReserved(p: State, t: Flag, page: nat, cnt: nat, value: bool)
    requires Layout(p) && InRegion(Virt(p, t), page, cnt)
    ensures var p1 := WithVirt(p, t, Mark(Virt(p, t), page, cnt, value));
            forall n: nat :: Reserved(p1, n) <==> if page <= n < page + cnt then value else Reserved(p, n)
  {
  }

  /** The page tables and the use of frames do not depend on the virtual bitmaps. */
  lemma VirtOnly(p: State, q: State, own: map<nat, Use>)
    requires Layout(p) && TablesOk(p, own) && OwnExact(p, own) && SameShape(p, q)
    requires q == p.(kvirt := q.kvirt, uvirt := q.uvirt, lost := q.lost)
    ensures Layout(q) && TablesOk(q, own) && OwnExact(q, own)
    ensures forall n: nat :: InHeap(q, n) == InHeap(p, n) && PageOf(q, n) == PageOf(p, n)
  {
    hide WalkPage;
    assert forall n: nat :: InHeap(q, n) == InHeap(p, n) && PageOf(q, n) == PageOf(p, n);
    assert forall d: nat :: HasTable(q, d) == HasTable(p, d) && Table(q, d) == Table(p, d);
  }

  /** free_page after a successful malloc_page restores both virtual bitmaps, the translation of every
      heap page and the user pool; the kernel pool differs by the page tables that were added, which
      stay, so a kernel-mode allocation restores it too. */
  lemma FreeUndoesMalloc(p: State, own: map<nat, Use>, t: Flag, cnt: nat)
    requires Inv(p, own, {}) && MallocPage(p, t, cnt).1.Page?
    requires TablesCovered(p, t, cnt)
    ensures var (q, r) := MallocPage(p, t, cnt);
            var z := FreePage(q, t, r.page, cnt);
            && z.Some? && z.value.kvirt == p.kvirt && z.value.uvirt == p.uvirt && z.value.lost == p.lost
            && z.value.upool == p.upool
            && (forall m: nat :: InHeap(p, m) ==> PageOf(z.value, m) == PageOf(p, m))
            && (forall f: nat :: Taken(p.kpool, f) ==> Taken(z.value.kpool, f))
            && (forall f: nat :: Taken(z.value.kpool, f) && !Taken(p.kpool, f) ==>
                  t.User?
                  && exists d: nat :: d < 1023 && !HasTable(p, d) && HasTable(z.value, d) && Table(z.value, d) == f)
  {
    hide MallocPage, FreePage, TablesCovered, Inv, Granted, Released, VaddrGet, PageOf, SameShape, HasTable, Table;
    var (q, r) := MallocPage(p, t, cnt);
    var own' := MallocPageKeeps(p, own, t, cnt);
    GrantedFreeable(p, own, q, own', t, r.page, cnt);
    var own'' := FreePageKeeps(q, own', t, r.page, cnt);
    RoundTrip(p, own, q, own', FreePage(q, t, r.page, cnt).value, own'', t, r.page, cnt);
  }

  /** A run just granted has fresh frames, so it can be freed: the directory is not among them. */
  lemma GrantedFreeable(p: State, own: map<nat, Use>, q: State, own': map<nat, Use>, t: Flag, page: nat, cnt: nat)
    requires Inv(p, own, {}) && Inv(q, own', {}) && SameShape(p, q) && Granted(p, own, q, own', t, page, cnt)
    ensures InRegion(Virt(q, t), page, cnt) && Mapped(q, page, cnt) && PageSet(page, cnt) !! q.lost
    ensures SparesDir(q, page, cnt)
  {
    hide TablesOk, WalkPage, OwnExact, PagesOk;
    DirInUse(p, own);
    forall n: nat | page <= n < page + cnt ensures PageOf(q, n) != Some(q.dir) {
      assert InHeap(p, n) && InHeap(q, n) && PageOf(p, n).None? && PageOf(q, n).Some?;
      FreshFrame(p, own, q, own', n);
    }
  }

  lemma FreshFrame(p: State, own: map<nat, Use>, q: State, own': map<nat, Use>, n: nat)
    requires Inv(p, own, {}) && Inv(q, own', {}) && SameShape(p, q) && InHeap(p, n) && InHeap(q, n)
    requires PageOf(p, n).None? && PageOf(q, n).Some? && forall f: nat :: f in own ==> f in own' && own'[f] == own[f]
    ensures PageOf(q, n).value !in own && PageOf(q, n).value >= p.kpool.start
  {
    var f := PageOf(q, n).value;
    TranslationIsUse(p, own, {}, n, f);
    TranslationIsUse(q, own', {}, n, f);
    hide TablesOk, PagesOk, WalkPage;
  }

  lemma DirInUse(p: State, own: map<nat, Use>)
    requires Inv(p, own, {})
    ensures p.dir in own || p.dir < p.kpool.start
  {
  }

  lemma RoundTrip(p: State, own: map<nat, Use>, q: State, own': map<nat, Use>, z: State, own'': map<nat, Use>,
                  t: Flag, page: nat, cnt: nat)
    requires Inv(p, own, {}) && Inv(q, own', {}) && Inv(z, own'', {}) && SameShape(p, q)
    requires Granted(p, own, q, own', t, page, cnt) && Released(q, own', z, own'', page, cnt)
    requires z.kvirt == (if t.Kernel? then Mark(q.kvirt, page, cnt, false) else q.kvirt)
    requires z.uvirt == (if t.User? then Mark(q.uvirt, page, cnt, false) else q.uvirt)
    ensures z.kvirt == p.kvirt && z.uvirt == p.uvirt && z.lost == p.lost && z.upool == p.upool
    ensures forall m: nat :: InHeap(p, m) ==> PageOf(z, m) == PageOf(p, m)
    ensures forall f: nat :: Taken(p.kpool, f) ==> Taken(z.kpool, f)
    ensures forall f: nat :: Taken(z.kpool, f) && !Taken(p.kpool, f) ==>
              t.User? && exists d: nat :: d < 1023 && !HasTable(p, d) && HasTable(z, d) && Table(z, d) == f
  {
    hide Layout, TablesOk, OwnExact, PagesOk, WalkPage, Owns;
    SetThenClear(p, t, page, cnt);
    UseRoundTrip(p, own, q, own', z, own'', t, page, cnt);
    PoolsRoundTrip(p, own, z, own'');
    TranslationRoundTrip(p, own, q, own', z, own'', t, page, cnt);
    forall f: nat | Taken(z.kpool, f) && !Taken(p.kpool, f)
      ensures t.User? && exists d: nat :: d < 1023 && !HasTable(p, d) && HasTable(z, d) && Table(z, d) == f
    {
      NewTableOnlyForUsers(p, own, q, own', z, own'', t, page, cnt, f);
    }
  }

  /** After the round trip, the frames in use are those in use before and the new page tables. */
  lemma UseRoundTrip(p: State, own: map<nat, Use>, q: State, own': map<nat, Use>, z: State, own'': map<nat, Use>,
                     t: Flag, page: nat, cnt: nat)
    requires Inv(p, own, {}) && Inv(q, own', {}) && Inv(z, own'', {}) && SameShape(p, q)
    requires Granted(p, own, q, own', t, page, cnt) && Released(q, own', z, own'', page, cnt)
    ensures forall f: nat :: f in own ==> f in own'' && own''[f] == own[f]
    ensures forall f: nat :: f in own'' && f !in own ==> f in own' && own''[f] == own'[f] && own'[f].TableOf?
    ensures forall f: nat :: Taken(z.kpool, f) && !Taken(p.kpool, f) ==> f in own'' && f !in own && f >= p.kpool.start
  {
    hide TablesOk, WalkPage;
    forall f: nat | f in own ensures f in own'' && own''[f] == own[f] {
      if own[f].Data? {
        assert PageOf(p, own[f].page) == Some(f);
      }
    }
    forall f: nat | Taken(z.kpool, f) && !Taken(p.kpool, f) ensures f in own'' && f !in own && f >= p.kpool.start {
      assert !Owns(p.upool, f);
    }
  }

  lemma PoolsRoundTrip(p: State, own: map<nat, Use>, z: State, own'': map<nat, Use>)
    requires Inv(p, own, {}) && Inv(z, own'', {}) && SameShape(p, z)
    requires forall f: nat :: f in own ==> f in own'' && own''[f] == own[f]
    requires forall f: nat :: f in own'' && f !in own ==> own''[f].TableOf?
    ensures z.upool == p.upool
    ensures forall f: nat :: Taken(p.kpool, f) ==> Taken(z.kpool, f)
  {
    hide TablesOk, PagesOk, WalkPage;
    forall i: nat | i < |p.upool.bits| ensures z.upool.bits[i] == p.upool.bits[i] {
      var f := p.upool.start + i;
      assert !Owns(p.kpool, f) && !Owns(z.kpool, f);
      assert Taken(p.upool, f) == p.upool.bits[i] && Taken(z.upool, f) == z.upool.bits[i];
    }
    assert z.upool.bits == p.upool.bits;
    forall f: nat | Taken(p.kpool, f) ensures Taken(z.kpool, f) {
      assert f in own && !Owns(z.upool, f);
    }
  }

  lemma TranslationRoundTrip(p: State, own: map<nat, Use>, q: State, own': map<nat, Use>, z: State,
                             own'': map<nat, Use>, t: Flag, page: nat, cnt: nat)
    requires Inv(p, own, {}) && Inv(q, own', {}) && Inv(z, own'', {}) && SameShape(p, q) && SameShape(q, z)
    requires forall f: nat :: f in own ==> f in own'' && own''[f] == own[f]
    requires forall f: nat :: f in own'' && f !in own ==> own''[f].TableOf?
    ensures forall m: nat :: InHeap(p, m) ==> PageOf(z, m) == PageOf(p, m)
  {
    hide TablesOk, WalkPage;
    forall m: nat | InHeap(p, m) ensures PageOf(z, m) == PageOf(p, m) {
      assert InHeap(z, m);
      if PageOf(p, m).Some? { TranslationIsUse(p, own, {}, m, PageOf(p, m).value); }
      if PageOf(z, m).Some? { TranslationIsUse(z, own'', {}, m, PageOf(z, m).value); }
    }
  }

  lemma SetThenClear(p: State, t: Flag, page: nat, cnt: nat)
    requires InRegion(Virt(p, t), page, cnt) && forall n: nat :: page <= n < page + cnt ==> !Reserved(p, n)
    ensures Mark(Mark(Virt(p, t), page, cnt, true), page, cnt, false) == Virt(p, t)
  {
    var v := Virt(p, t);
    forall i: nat | page - v.start <= i < page - v.start + cnt ensures !v.bits[i] {
      assert !Reserved(p, v.start + i);
    }
    assert Mark(Mark(v, page, cnt, true), page, cnt, false).bits == v.bits;
  }

  lemma NewTableOnlyForUsers(p: State, own: map<nat, Use>, q: State, own': map<nat, Use>, z: State,
                             own'': map<nat, Use>, t: Flag, page: nat, cnt: nat, f: nat)
    requires Inv(p, own, {}) && Inv(q, own', {}) && Inv(z, own'', {}) && SameShape(p, q) && SameShape(q, z)
    requires InRegion(Virt(p, t), page, cnt) && Grows(own, own', page, cnt) && f >= p.kpool.start
    requires f in own'' && f in own' && f !in own && own''[f] == own'[f] && own'[f].TableOf?
    ensures t.User? && own'[f].d < 1023 && !HasTable(p, own'[f].d) && HasTable(z, own'[f].d) && Table(z, own'[f].d) == f
  {
    var d := own'[f].d;
    assert HasTable(p, d) ==> Table(p, d) in own && Table(q, d) == Table(p, d);
  }
}
