/** Access rights: every page the kernel maps, for itself or for a process, can be written in user mode. */
module AccessRights {
  import opened Wrappers
  import opened Paging
  import opened Pages
  import opened PageTables
  import opened PagesInvariant
  import opened PageCounts
  import opened PageAlloc
  import opened PoolLayout
  import Processes

  function UserPage(p: State, n: nat): Option<nat> { UserWrite(p.mem, p.dir, n) }

  /** The directory entry of a page grants user-mode writes, if it is there. */
  predicate DirGrants(p: State, page: nat) {
    HasTable(p, page / ENTRIES) ==> Grants(Load(p.mem, p.dir, page / ENTRIES))
  }

  /** page_table_add, exactly, for accesses in user mode: a write to the page is allowed and reaches its frame, if
      its directory entry was not there or grants it; so it is for every page that shares its entry through
      one that does; and every other page below 0xffc00000 has the rights it had. */
  lemma AddAccess(p: State, page: nat, frame: nat, m: nat)
    requires SelfMap(p.mem, p.dir) && page < WINDOW && m < WINDOW
    requires DirPrivate(p) && PageOf(p, page).None?
    requires !HasTable(p, page / ENTRIES) ==> FreshTable(p, NewTable(p))
    ensures PageTableAdd(p, page, frame).Some?
    ensures UserPage(PageTableAdd(p, page, frame).value, m) ==
            if m == page || SameEntry(p, m, page) then (if DirGrants(p, m) then Some(frame) else None)
            else UserPage(p, m)
  {
    if HasTable(p, page / ENTRIES) {
      EntryFields(frame);
      AddWithTable(p, page, frame);
    } else {
      AddWithoutTable(p, page, frame);
      NewTableAccess(p, page, NewTable(p), frame, m);
    }
  }

  lemma NewTableAccess(p: State, page: nat, table: nat, frame: nat, m: nat)
    requires page < WINDOW && m < WINDOW && !HasTable(p, page / ENTRIES)
    requires DirPrivate(p) && FreshTable(p, table)
    ensures var zeroed := ZeroFrame(Store(p.mem, p.dir, page / ENTRIES, Entry(table)), table);
            var mem := Store(zeroed, table, page % ENTRIES, Entry(frame));
            UserWrite(mem, p.dir, m) == if m == page then Some(frame) else UserPage(p, m)
  {
    var d, i := page / ENTRIES, page % ENTRIES;
    EntryFields(table);
    EntryFields(frame);
    var m1 := Store(p.mem, p.dir, d, Entry(table));
    var mem := Store(ZeroFrame(m1, table), table, i, Entry(frame));
    var e := m / ENTRIES;
    assert e < 1023;
    if e == d {
      assert Load(mem, p.dir, e) == Entry(table);
      assert m != page ==> m % ENTRIES != i;
    } else {
      assert Load(mem, p.dir, e) == Load(p.mem, p.dir, e);
      if HasTable(p, e) {
        assert Table(p, e) != table && Table(p, e) != p.dir;
        assert Load(mem, Table(p, e), m % ENTRIES) == Load(m1, Table(p, e), m % ENTRIES);
      }
    }
  }

  // ---- All entries grant the rights ----

  predicate DirRight(p: State, d: nat) { HasTable(p, d) ==> Grants(Load(p.mem, p.dir, d)) }

  predicate EntryRight(p: State, d: nat, i: nat) {
    HasTable(p, d) && Present(Load(p.mem, Table(p, d), i)) ==> Grants(Load(p.mem, Table(p, d), i))
  }

  /** Every directory entry below 1023 and every entry of their tables grants user-mode writes, if it is there. */
  ghost predicate RightsOk(p: State) {
    && (forall d: nat :: d < 1023 ==> DirRight(p, d))
    && (forall d: nat, i: nat :: d < 1023 && i < ENTRIES ==> EntryRight(p, d, i))
  }

  /** Then whatever is mapped can be written in user mode, and that write reaches its frame. */
  lemma MappedWritable(p: State, n: nat)
    requires RightsOk(p) && n < WINDOW
    ensures UserPage(p, n) == PageOf(p, n)
  {
    assert n / ENTRIES < 1023 && n % ENTRIES < ENTRIES;
    assert DirRight(p, n / ENTRIES) && EntryRight(p, n / ENTRIES, n % ENTRIES);
  }

  /** One entry of a table is rewritten by one that is absent or grants the rights. */
  lemma StoreRights(p: State, q: State, table: nat, index: nat, word: nat)
    requires RightsOk(p) && table != p.dir && (Present(word) ==> Grants(word))
    requires q.dir == p.dir && q.mem == Store(p.mem, table, index, word)
    ensures RightsOk(q)
  {
    forall d: nat | d < 1023 ensures DirRight(q, d) { assert DirRight(p, d); }
    forall d: nat, i: nat | d < 1023 && i < ENTRIES ensures EntryRight(q, d, i) {
      assert EntryRight(p, d, i);
      assert Load(q.mem, p.dir, d) == Load(p.mem, p.dir, d);
    }
  }

  /** A zeroed table is installed. */
  lemma TableRights(p: State, q: State, d0: nat, table: nat)
    requires RightsOk(p) && table != p.dir && DirPrivate(p)
    requires q.dir == p.dir && q.mem == ZeroFrame(Store(p.mem, p.dir, d0, Entry(table)), table)
    ensures RightsOk(q)
  {
    EntryFields(table);
    forall d: nat | d < 1023 ensures DirRight(q, d) { assert DirRight(p, d); }
    forall d: nat, i: nat | d < 1023 && i < ENTRIES ensures EntryRight(q, d, i) {
      assert EntryRight(p, d, i);
      assert Load(q.mem, p.dir, d) == if d == d0 then Entry(table) else Load(p.mem, p.dir, d);
    }
  }

  lemma AddRights(p: State, page: nat, frame: nat)
    requires RightsOk(p) && SelfMap(p.mem, p.dir) && page < WINDOW && DirPrivate(p) && NewTable(p) != p.dir
    requires PageTableAdd(p, page, frame).Some?
    ensures RightsOk(PageTableAdd(p, page, frame).value)
  {
    hide RightsOk, PageTableAdd, NewTable, Load;
    EntryFields(frame);
    var d0, i0, tf := page / ENTRIES, page % ENTRIES, NewTable(p);
    var q := PageTableAdd(p, page, frame).value;
    if HasTable(p, d0) {
      AddWithTable(p, page, frame);
      StoreRights(p, q, Table(p, d0), i0, Entry(frame));
    } else {
      AddWithoutTable(p, page, frame);
      var m := p.(mem := ZeroFrame(Store(p.mem, p.dir, d0, Entry(tf)), tf));
      TableRights(p, m, d0, tf);
      PallocSame(p, Kernel);
      StoreRights(m, q, tf, i0, Entry(frame));
    }
  }

  lemma PallocSame(p: State, t: Flag)
    ensures Palloc(p, t).0.mem == p.mem && Palloc(p, t).0.dir == p.dir
  {
  }

  /** Only the entries matter. */
  lemma RightsFrame(p: State, q: State)
    requires RightsOk(p) && q.mem == p.mem && q.dir == p.dir
    ensures RightsOk(q)
  {
    forall d: nat | d < 1023 ensures DirRight(q, d) { assert DirRight(p, d); }
    forall d: nat, i: nat | d < 1023 && i < ENTRIES ensures EntryRight(q, d, i) { assert EntryRight(p, d, i); }
  }

  lemma {:induction false} MapRights(p: State, t: Flag, page: nat, cnt: nat)
    requires Ready(p, t, page, cnt) && RightsOk(p)
    ensures RightsOk(MapPages(p, t, page, cnt).0)
    decreases cnt
  {
    hide PageTableAdd, Palloc, Missing, RightsOk;
    PallocFacts(p, t);
    if cnt > 0 && Palloc(p, t).1.Some? {
      var (p1, f) := Palloc(p, t);
      PallocMappable(p, t, page);
      NewTableApart(p1, page);
      RightsFrame(p, p1);
      CountStep(p, t, page, cnt);
      AddRights(p1, page, f.value);
      MapRights(PageTableAdd(p1, page, f.value).value, t, page + 1, cnt - 1);
    } else {
      RightsFrame(p, MapPages(p, t, page, cnt).0);
    }
  }

  /** malloc_page hands out only pages that can be written in user mode. */
  lemma MallocRights(p: State, own: map<nat, Use>, t: Flag, cnt: nat)
    requires Inv(p, own, {}) && RightsOk(p)
    ensures RightsOk(MallocPage(p, t, cnt).0)
    ensures var (q, r) := MallocPage(p, t, cnt);
            r.Page? && TablesCovered(p, t, cnt) ==>
              forall n: nat :: r.page <= n < r.page + cnt ==> UserPage(q, n).Some? && UserPage(q, n) == PageOf(q, n)
  {
    hide MapPages, RightsOk, TablesOk, OwnExact, PagesOk, WalkPage, UserWrite, Layout;
    var (q, r) := MallocPage(p, t, cnt);
    if !MallocHalts(p, t, cnt) && VaddrGet(p, t, cnt).1.Page? {
      var (p1, v) := VaddrGet(p, t, cnt);
      VaddrGetKeeps(p, own, t, cnt);
      InvReady(p1, own, t, v.page, cnt);
      RightsFrame(p, p1);
      MapRights(p1, t, v.page, cnt);
      RightsFrame(MapPages(p1, t, v.page, cnt).0, q);
    } else {
      VaddrGetSame(p, t, cnt);
      RightsFrame(p, q);
    }
    if r.Page? && TablesCovered(p, t, cnt) {
      var own' := MallocPageKeeps(p, own, t, cnt);
      GrantedWritable(p, own, q, own', t, r.page, cnt);
    }
  }

  lemma VaddrGetSame(p: State, t: Flag, cnt: nat)
    ensures VaddrGet(p, t, cnt).0.mem == p.mem && VaddrGet(p, t, cnt).0.dir == p.dir
  {
  }

  lemma GrantedWritable(p: State, own: map<nat, Use>, q: State, own': map<nat, Use>, t: Flag, page: nat, cnt: nat)
    requires Inv(q, own', {}) && RightsOk(q) && SameShape(p, q) && Granted(p, own, q, own', t, page, cnt)
    ensures forall n: nat :: page <= n < page + cnt ==> UserPage(q, n).Some? && UserPage(q, n) == PageOf(q, n)
  {
    hide TablesOk, OwnExact, PagesOk, WalkPage, RightsOk, UserWrite;
    forall n: nat | page <= n < page + cnt ensures UserPage(q, n).Some? && UserPage(q, n) == PageOf(q, n) {
      assert InHeap(q, n);
      MappedWritable(q, n);
      assert PageOf(q, n).Some?;
    }
  }

  // ---- free_page ----

  lemma RemoveRights(p: State, page: nat)
    requires RightsOk(p) && SelfMap(p.mem, p.dir) && page < WINDOW && HasTable(p, page / ENTRIES) && DirPrivate(p)
    ensures PageTableRemove(p, page).Some? && RightsOk(PageTableRemove(p, page).value)
  {
    hide RightsOk, PageTableRemove, Load;
    RemoveTranslation(p, page, page);
    var word := Load(p.mem, Table(p, page / ENTRIES), page % ENTRIES);
    assert !Present(word - word % 2);
    assert page / ENTRIES < 1023;
    StoreRights(p, PageTableRemove(p, page).value, Table(p, page / ENTRIES), page % ENTRIES, word - word % 2);
  }

  lemma UnmapRights(p: State, own: map<nat, Use>, limbo: set<nat>, t: Flag, page: nat)
    requires Inv(p, own, limbo) && RightsOk(p) && Owns(Virt(p, t), page) && PageOf(p, page).Some?
    requires UnmapOne(p, t, page).Some?
    ensures RightsOk(UnmapOne(p, t, page).value)
  {
    hide RightsOk, PageTableRemove, OwnExact, PagesOk;
    HeapDirs(p, page);
    TablesPrivate(p, own);
    var paddr := VaddrToPhy(p.mem, p.dir, page * PAGE_SIZE).value;
    var p1 := Pfree(p, t, paddr / PAGE_SIZE).value;
    RightsFrame(p, p1);
    assert forall d: nat :: HasTable(p1, d) == HasTable(p, d) && Table(p1, d) == Table(p, d);
    RemoveRights(p1, page);
  }

  lemma {:induction false} UnmapPagesRights(p: State, own: map<nat, Use>, limbo: set<nat>, t: Flag, page: nat, cnt: nat)
    requires Inv(p, own, limbo) && RightsOk(p) && InRegion(Virt(p, t), page, cnt) && PageSet(page, cnt) <= limbo
    requires Mapped(p, page, cnt) && SparesDir(p, page, cnt)
    requires forall n: nat :: page <= n < page + cnt ==> !Reserved(p, n)
    requires UnmapPages(p, t, page, cnt).Some?
    ensures RightsOk(UnmapPages(p, t, page, cnt).value)
    decreases cnt
  {
    hide UnmapOne, Layout, TablesOk, OwnExact, PagesOk, WalkPage, RightsOk;
    if cnt > 0 {
      UnmapOneKeeps(p, own, limbo, t, page);
      UnmapRights(p, own, limbo, t, page);
      var f := PageOf(p, page).value;
      var p1 := UnmapOne(p, t, page).value;
      forall n: nat | page + 1 <= n < page + cnt
        ensures PageOf(p1, n).Some? && PageOf(p1, n) != Some(p1.dir) && !Reserved(p1, n)
      {
        assert InHeap(p, n) && PageOf(p, n).Some? && !Reserved(p, n);
      }
      UnmapPagesRights(p1, own - {f}, limbo, t, page + 1, cnt - 1);
    }
  }

  /** free_page leaves the rights of what stays mapped. */
  lemma FreeRights(p: State, own: map<nat, Use>, t: Flag, page: nat, cnt: nat)
    requires Inv(p, own, {}) && RightsOk(p) && 0 < cnt < 3840 && InRegion(Virt(p, t), page, cnt)
    requires Mapped(p, page, cnt) && PageSet(page, cnt) !! p.lost && SparesDir(p, page, cnt)
    requires FreePage(p, t, page, cnt).Some?
    ensures RightsOk(FreePage(p, t, page, cnt).value)
  {
    hide TablesOk, OwnExact, PagesOk, WalkPage, UnmapPages, RightsOk;
    var p1 := WithVirt(p, t, Mark(Virt(p, t), page, cnt, false));
    ClearVirtInv(p, own, t, page, cnt);
    RightsFrame(p, p1);
    UnmapPagesRights(p1, own, PageSet(page, cnt), t, page, cnt);
  }

  // ---- Where it starts ----

  /** The loader's directory and tables. */
  lemma BootRights(allMem: nat, userLength: nat)
    requires allMem < PoolLayout.WORD
    ensures RightsOk(BootState(allMem, userLength))
  {
    var p := BootState(allMem, userLength);
    forall d: nat | d < 1023 ensures DirRight(p, d) {
      BootLoad(0x100, d);
      EntryFields(0x101 + (if d >= 768 then d - 768 else 0));
    }
    forall d: nat, i: nat | d < 1023 && i < ENTRIES ensures EntryRight(p, d, i) {
      BootLoad(0x100, d);
      EntryFields(0x101 + (if d >= 768 then d - 768 else 0));
      BootLoad(Table(p, d), i);
      EntryFields(i);
    }
  }

  /** A process's directory grants what the kernel's does, and nothing else is mapped in it. */
  lemma SwitchRights(q: State, own: map<nat, Use>, z: State, f: nat)
    requires Inv(q, own, {}) && RightsOk(q) && f in own && own[f].Data?
    requires z.dir == f && z.mem == Processes.ProcessDir(q.mem, q.dir, f)
    ensures RightsOk(z)
  {
    hide OwnExact, PagesOk;
    forall d: nat | d < 1023 ensures DirRight(z, d) {
      Processes.ProcessDirLoad(q.mem, q.dir, f, f, d);
      assert DirRight(q, d);
    }
    forall d: nat, i: nat | d < 1023 && i < ENTRIES ensures EntryRight(z, d, i) {
      Processes.ProcessDirLoad(q.mem, q.dir, f, f, d);
      if HasTable(z, d) {
        assert d >= KERNEL_DIR && Table(z, d) == Table(q, d) && Table(q, d) != f;
        Processes.ProcessDirLoad(q.mem, q.dir, f, Table(q, d), i);
        assert EntryRight(q, d, i);
      }
    }
  }

  /** create_page_dir keeps the rights, and its last entry, the self-map, grants them too. */
  lemma ProcessRights(p: State, own: map<nat, Use>, userLength: nat)
    requires Inv(p, own, {}) && RightsOk(p) && userLength <= 94199 && Processes.CreatePageDir(p, userLength).Some?
    ensures var z := Processes.CreatePageDir(p, userLength).value;
            RightsOk(z) && Grants(Load(z.mem, z.dir, 1023)) && FrameOf(Load(z.mem, z.dir, 1023)) == z.dir
  {
    hide MallocPage, RightsOk, Granted, VaddrToPhy, Inv, PageOf, Processes.ProcessDir;
    var (q, r) := MallocPage(p, Kernel, 1);
    MallocRights(p, own, Kernel, 1);
    var own1 := MallocPageKeeps(p, own, Kernel, 1);
    Processes.DirFrameIs(p, own, q, own1, r.page);
    var f := Processes.DirFrame(q, r.page);
    var z := Processes.CreatePageDir(p, userLength).value;
    SwitchRights(q, own1, z, f);
    Processes.ProcessDirLoad(q.mem, q.dir, f, f, 1023);
    EntryFields(f);
  }
}
