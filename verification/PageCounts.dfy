/** How many frames and page tables malloc_page's loop needs, counted before it starts. */
module PageCounts {
  import opened Paging
  import opened Pages
  import opened PageTables
  import opened PagesInvariant

  ghost function ClearBits(r: Region): set<nat> { set i: nat | i < |r.bits| && !r.bits[i] }

  /** The frames a pool has left. */
  ghost function FreeFrames(r: Region): nat { |ClearBits(r)| }

  /** Some page of the run is translated by directory entry d. */
  predicate Serves(page: nat, cnt: nat, d: nat) { cnt > 0 && page / ENTRIES <= d <= (page + cnt - 1) / ENTRIES }

  /** The directory entries of the run that have no page table. */
  ghost function Missing(p: State, page: nat, cnt: nat): set<nat> {
    set d: nat | d <= (page + cnt) / ENTRIES && Serves(page, cnt, d) && !HasTable(p, d)
  }

  function Min(a: nat, b: nat): nat { if a < b then a else b }

  /** How much of the demand the supply does not cover. */
  function Excess(demand: nat, supply: nat): nat { if demand > supply then demand - supply else 0 }

  // ---- Frames ----

  /** palloc takes one frame, or finds none left. */
  lemma PallocCount(p: State, t: Flag)
    ensures var (p1, r) := Palloc(p, t);
            && (r.None? <==> FreeFrames(Pool(p, t)) == 0)
            && (r.Some? ==> FreeFrames(Pool(p1, t)) == FreeFrames(Pool(p, t)) - 1)
  {
    PallocFacts(p, t);
    var (p1, r) := Palloc(p, t);
    var a := ClearBits(Pool(p, t));
    match r
    case None => assert a == {};
    case Some(f) =>
      var i := f - Pool(p, t).start;
      assert i in a;
      assert ClearBits(Pool(p1, t)) == a - {i};
  }

  lemma PallocFrame(p: State, t: Flag)
    ensures var (p1, r) := Palloc(p, t);
            p1 == (if t.Kernel? then p.(kpool := p1.kpool) else p.(upool := p1.upool))
            && Pool(p1, t).start == Pool(p, t).start && |Pool(p1, t).bits| == |Pool(p, t).bits|
  {
    PallocFacts(p, t);
  }

  // ---- One page ----

  /** The frame is not one palloc could hand out. */
  predicate NotFree(r: Region, f: nat) { Owns(r, f) ==> Taken(r, f) }

  /** What the loop needs of the tables that serve the rest of its run: they are real, apart, and in use.
      An earlier directory entry may have its table at address 0. */
  ghost predicate Mappable(p: State, page: nat) {
    && SelfMap(p.mem, p.dir) && 0 < p.dir && NotFree(p.kpool, p.dir) && 0 < p.kpool.start
    && (forall d: nat :: d < 1023 && HasTable(p, d) ==> Table(p, d) != p.dir && NotFree(p.kpool, Table(p, d)))
    && (forall d: nat :: page / ENTRIES < d < 1023 && HasTable(p, d) ==> Table(p, d) != 0)
    && (forall d: nat, e: nat :: page / ENTRIES <= d < e < 1023 && HasTable(p, d) && HasTable(p, e) ==>
          Table(p, d) != Table(p, e))
  }

  /** Some directory entry a heap can use has its page table at physical address 0. */
  ghost predicate NullTable(p: State) {
    exists d: nat :: FIRST_DIR <= d < 1023 && HasTable(p, d) && Table(p, d) == 0
  }

  /** The directory after page_table_add of a page that was not mapped: one entry more if its table was
      missing. */
  lemma AddDirectory(p: State, page: nat, frame: nat)
    requires SelfMap(p.mem, p.dir) && page < WINDOW && DirPrivate(p) && PageOf(p, page).None? && NewTable(p) != p.dir
    ensures var q := PageTableAdd(p, page, frame);
            var missing := !HasTable(p, page / ENTRIES);
            && q.Some? && q.value.dir == p.dir && SelfMap(q.value.mem, p.dir)
            && q.value.kpool == (if missing then Palloc(p, Kernel).0.kpool else p.kpool)
            && q.value.upool == p.upool && q.value.kvirt == p.kvirt && q.value.uvirt == p.uvirt
            && q.value.lost == p.lost
            && q.value.nullTables == p.nullTables + (if missing && Palloc(p, Kernel).1.None? then 1 else 0)
            && forall d: nat :: d < ENTRIES ==>
                 && HasTable(q.value, d) == (HasTable(p, d) || d == page / ENTRIES)
                 && (HasTable(q.value, d) ==>
                       Table(q.value, d) == if HasTable(p, d) then Table(p, d) else NewTable(p))
  {
    var d0 := page / ENTRIES;
    if HasTable(p, d0) {
      AddWithTable(p, page, frame);
      assert Table(p, d0) != p.dir;
    } else {
      AddWithoutTable(p, page, frame);
      PallocFrame(p, Kernel);
      EntryFields(NewTable(p));
    }
  }

  /** Other pages whose tables are not the new one stay as they were. */
  lemma AddOther(p: State, page: nat, frame: nat, m: nat)
    requires SelfMap(p.mem, p.dir) && page < WINDOW && m < WINDOW && m != page
    requires DirPrivate(p) && PageOf(p, page).None? && NewTable(p) != p.dir
    requires HasTable(p, m / ENTRIES) && !HasTable(p, page / ENTRIES) ==> Table(p, m / ENTRIES) != NewTable(p)
    requires !SameEntry(p, m, page)
    ensures PageTableAdd(p, page, frame).Some? && PageOf(PageTableAdd(p, page, frame).value, m) == PageOf(p, m)
  {
    if HasTable(p, page / ENTRIES) {
      AddWithTable(p, page, frame);
      StoreEntry(p, Table(p, page / ENTRIES), page % ENTRIES, Entry(frame), m);
    } else {
      AddWithoutTable(p, page, frame);
      PallocFrame(p, Kernel);
      AddOtherNew(p, page, NewTable(p), frame, m);
    }
  }

  lemma AddOtherNew(p: State, page: nat, table: nat, frame: nat, m: nat)
    requires page < WINDOW && m < WINDOW && m != page && !HasTable(p, page / ENTRIES) && DirPrivate(p) && table != p.dir
    requires HasTable(p, m / ENTRIES) ==> Table(p, m / ENTRIES) != table
    ensures var zeroed := ZeroFrame(Store(p.mem, p.dir, page / ENTRIES, Entry(table)), table);
            WalkPage(Store(zeroed, table, page % ENTRIES, Entry(frame)), p.dir, m) == PageOf(p, m)
  {
    var d, i := page / ENTRIES, page % ENTRIES;
    EntryFields(table);
    var m1 := Store(p.mem, p.dir, d, Entry(table));
    var mem := Store(ZeroFrame(m1, table), table, i, Entry(frame));
    var e := m / ENTRIES;
    assert e < 1023;
    if e == d {
      assert Load(mem, p.dir, e) == Entry(table);
      assert m % ENTRIES != i;
    } else {
      assert Load(mem, p.dir, e) == Load(p.mem, p.dir, e);
      if HasTable(p, e) {
        assert Table(p, e) != table && Table(p, e) != p.dir;
        assert Load(mem, Table(p, e), m % ENTRIES) == Load(m1, Table(p, e), m % ENTRIES);
      }
    }
  }

  /** A new table is none of those in use, unless it is the frame at address 0. */
  lemma NewTableApart(p: State, page: nat)
    requires Mappable(p, page)
    ensures NewTable(p) != p.dir
    ensures forall d: nat :: page / ENTRIES < d < 1023 && HasTable(p, d) ==> Table(p, d) != NewTable(p)
    ensures forall d: nat :: d < 1023 && HasTable(p, d) && Table(p, d) == NewTable(p) ==> NewTable(p) == 0
    ensures Palloc(p, Kernel).1.None? <==> NewTable(p) == 0
  {
    PallocFacts(p, Kernel);
  }

  /** Taking a frame changes no table. */
  lemma PallocMappable(p: State, t: Flag, page: nat)
    requires Mappable(p, page)
    ensures var p1 := Palloc(p, t).0;
            && Mappable(p1, page) && p1.mem == p.mem && p1.dir == p.dir && p1.nullTables == p.nullTables
            && p1 == (if t.Kernel? then p.(kpool := p1.kpool) else p.(upool := p1.upool))
            && forall d: nat :: HasTable(p1, d) == HasTable(p, d) && Table(p1, d) == Table(p, d)
  {
    PallocFacts(p, t);
    var p1 := Palloc(p, t).0;
    assert forall d: nat :: HasTable(p1, d) == HasTable(p, d) && Table(p1, d) == Table(p, d);
    assert forall f: nat :: NotFree(p.kpool, f) ==> NotFree(p1.kpool, f);
  }

  /** The rest of the run is still unmapped after a page of it was added. */
  lemma RestUnmapped(p: State, page: nat, frame: nat, cnt: nat)
    requires Mappable(p, page) && cnt > 0 && page + cnt <= WINDOW && Unmapped(p, page, cnt)
    ensures PageTableAdd(p, page, frame).Some? && Unmapped(PageTableAdd(p, page, frame).value, page + 1, cnt - 1)
  {
    NewTableApart(p, page);
    AddDirectory(p, page, frame);
    hide PageTableAdd, NewTable;
    var q := PageTableAdd(p, page, frame).value;
    forall m: nat | page + 1 <= m < page + cnt ensures PageOf(q, m).None? {
      assert PageOf(p, m).None?;
      Later(page, m);
      AddOther(p, page, frame, m);
    }
  }

  lemma Later(page: nat, m: nat)
    requires page < m < WINDOW
    ensures page / ENTRIES <= m / ENTRIES < 1023
    ensures m % ENTRIES == page % ENTRIES ==> page / ENTRIES < m / ENTRIES
  {
  }

  /** The tables after a page was added. */
  lemma AddMappable(p: State, page: nat, frame: nat)
    requires Mappable(p, page) && page < WINDOW && PageOf(p, page).None?
    ensures PageTableAdd(p, page, frame).Some? && Mappable(PageTableAdd(p, page, frame).value, page + 1)
  {
    NewTableApart(p, page);
    AddDirectory(p, page, frame);
    PallocFacts(p, Kernel);
    hide PageTableAdd, SelfMap;
    var q := PageTableAdd(p, page, frame).value;
    assert page / ENTRIES <= (page + 1) / ENTRIES;
    assert forall f: nat :: NotFree(p.kpool, f) ==> NotFree(q.kpool, f);
    assert !HasTable(p, page / ENTRIES) ==> NotFree(q.kpool, NewTable(p));
  }

  /** One directory entry is served once its page is added. */
  lemma MissingStep(p: State, q: State, page: nat, cnt: nat)
    requires cnt > 0 && page + cnt <= WINDOW
    requires forall d: nat :: d < ENTRIES ==> HasTable(q, d) == (HasTable(p, d) || d == page / ENTRIES)
    ensures Missing(q, page + 1, cnt - 1) == Missing(p, page, cnt) - {page / ENTRIES}
    ensures page / ENTRIES in Missing(p, page, cnt) <==> !HasTable(p, page / ENTRIES)
  {
    hide HasTable;
    forall d: nat ensures d in Missing(q, page + 1, cnt - 1) <==> d in Missing(p, page, cnt) && d != page / ENTRIES {
      ServesStep(page, cnt, d);
      if Serves(page, cnt, d) { assert d < ENTRIES; }
    }
  }

  lemma ServesStep(page: nat, cnt: nat, d: nat)
    requires cnt > 0
    ensures Serves(page, cnt, page / ENTRIES) && page / ENTRIES <= (page + cnt) / ENTRIES
    ensures d != page / ENTRIES ==> (Serves(page + 1, cnt - 1, d) <==> Serves(page, cnt, d))
    ensures Serves(page, cnt, d) ==> d <= (page + cnt) / ENTRIES
  {
    if cnt > 1 {
      assert page / ENTRIES <= (page + 1) / ENTRIES <= page / ENTRIES + 1;
    }
  }

  // ---- The loop ----

  /** The loop's state before the rest of its run. */
  ghost predicate Ready(p: State, t: Flag, page: nat, cnt: nat) {
    && Mappable(p, page) && FIRST_DIR * ENTRIES <= page && page + cnt <= WINDOW && Unmapped(p, page, cnt)
    && (t.Kernel? ==> Missing(p, page, cnt) == {})
  }

  /** What one round of the loop does to the counts. */
  lemma CountStep(p: State, t: Flag, page: nat, cnt: nat)
    requires Ready(p, t, page, cnt) && cnt > 0 && Palloc(p, t).1.Some?
    ensures var (p1, f) := Palloc(p, t);
            PageTableAdd(p1, page, f.value).Some? && var q := PageTableAdd(p1, page, f.value).value;
            var missing := !HasTable(p, page / ENTRIES);
            && Ready(q, t, page + 1, cnt - 1)
            && FreeFrames(Pool(q, t)) == FreeFrames(Pool(p, t)) - 1
            && (forall m: nat :: 0 < m <= cnt ==> Missing(q, page + 1, m - 1) == Missing(p, page, m) - {page / ENTRIES})
            && (forall m: nat :: 0 < m <= cnt ==> (page / ENTRIES in Missing(p, page, m) <==> missing))
            && (t.Kernel? ==> q.nullTables == p.nullTables && !missing)
            && (t.User? ==>
                  && FreeFrames(q.kpool) == FreeFrames(p.kpool) - (if missing && FreeFrames(p.kpool) > 0 then 1 else 0)
                  && q.nullTables == p.nullTables + (if missing && FreeFrames(p.kpool) == 0 then 1 else 0))
  {
    var (p1, fo) := Palloc(p, t);
    var f := fo.value;
    PallocMappable(p, t, page);
    PallocCount(p, t);
    assert PageOf(p, page).None? && forall n: nat :: PageOf(p1, n) == PageOf(p, n);
    NewTableApart(p1, page);
    AddDirectory(p1, page, f);
    AddMappable(p1, page, f);
    RestUnmapped(p1, page, f, cnt);
    PallocCount(p1, Kernel);
    var q := PageTableAdd(p1, page, f).value;
    forall m: nat | 0 < m <= cnt
      ensures Missing(q, page + 1, m - 1) == Missing(p, page, m) - {page / ENTRIES}
      ensures page / ENTRIES in Missing(p, page, m) <==> !HasTable(p, page / ENTRIES)
    {
      MissingStep(p, q, page, m);
    }
  }

  /** A page table put at address 0 stays, and every one that is counted is there. */
  lemma NullStep(p: State, t: Flag, page: nat, cnt: nat)
    requires Ready(p, t, page, cnt) && cnt > 0 && Palloc(p, t).1.Some?
    ensures var (p1, f) := Palloc(p, t);
            PageTableAdd(p1, page, f.value).Some? && var q := PageTableAdd(p1, page, f.value).value;
            NullTable(p) || q.nullTables > p.nullTables ==> NullTable(q)
  {
    var (p1, f) := Palloc(p, t);
    PallocMappable(p, t, page);
    assert PageOf(p, page).None? && PageOf(p1, page) == PageOf(p, page);
    NewTableApart(p1, page);
    AddDirectory(p1, page, f.value);
    hide PageTableAdd, Palloc, Mappable;
    var q := PageTableAdd(p1, page, f.value).value;
    if q.nullTables > p.nullTables { assert HasTable(q, page / ENTRIES) && Table(q, page / ENTRIES) == 0; }
    if NullTable(p) {
      var d: nat :| FIRST_DIR <= d < 1023 && HasTable(p, d) && Table(p, d) == 0;
      assert HasTable(q, d) && Table(q, d) == 0;
    }
  }

  function PoolDemand(t: Flag, missing: nat, supply: nat): nat { if t.Kernel? then 0 else Excess(missing, supply) }

  /** The loop of malloc_page, counted in advance: it completes exactly when its pool has a frame for every
      page, and the page tables it puts at address 0 are those the kernel pool has no frame for. */
  lemma {:induction false} MapCounts(p: State, t: Flag, page: nat, cnt: nat)
    requires Ready(p, t, page, cnt)
    ensures var (q, r) := MapPages(p, t, page, cnt);
            var m := Min(cnt, FreeFrames(Pool(p, t)));
            && !r.Halt? && (r.Page? <==> cnt <= FreeFrames(Pool(p, t)))
            && q.nullTables == p.nullTables + PoolDemand(t, |Missing(p, page, m)|, FreeFrames(p.kpool))
            && (NullTable(p) || q.nullTables > p.nullTables ==> NullTable(q))
    decreases cnt
  {
    hide PageTableAdd, Palloc, Ready, Missing, FreeFrames, NullTable;
    var m := Min(cnt, FreeFrames(Pool(p, t)));
    PallocCount(p, t);
    if cnt == 0 || Palloc(p, t).1.None? {
      NoneMissing(p, page);
      PallocFacts(p, t);
    } else {
      CountStep(p, t, page, cnt);
      NullStep(p, t, page, cnt);
      var (p1, f) := Palloc(p, t);
      var q := PageTableAdd(p1, page, f.value).value;
      MapCounts(q, t, page + 1, cnt - 1);
      var d := page / ENTRIES;
      OneLess(Missing(p, page, m), d, Missing(q, page + 1, m - 1));
    }
  }

  lemma NoneMissing(p: State, page: nat)
    ensures |Missing(p, page, 0)| == 0
  {
    assert Missing(p, page, 0) == {};
  }

  lemma OneLess(a: set<nat>, d: nat, b: set<nat>)
    requires b == a - {d}
    ensures |a| == |b| + if d in a then 1 else 0
  {
  }

  /** Under the invariant malloc_page's loop is ready for any unmapped run of its range. */
  lemma InvReady(p: State, own: map<nat, Use>, t: Flag, page: nat, cnt: nat)
    requires Inv(p, own, {}) && Unmapped(p, page, cnt)
    requires Virt(p, t).start <= page && page + cnt <= Virt(p, t).start + |Virt(p, t).bits|
    ensures Ready(p, t, page, cnt)
  {
    TablesPrivate(p, own);
    hide WalkPage, PagesOk;
    forall d: nat | d < 1023 && HasTable(p, d) ensures NotFree(p.kpool, Table(p, d)) {
      if d >= FIRST_DIR { assert Table(p, d) in own; }
    }
    assert FIRST_DIR * ENTRIES <= page && page + cnt <= WINDOW;
    assert page / ENTRIES >= FIRST_DIR;
    if t.Kernel? {
      forall d: nat | Serves(page, cnt, d) ensures HasTable(p, d) { assert KERNEL_DIR <= d < 1023; }
    }
  }

  /** No invariant allows a page table at address 0. */
  lemma NullTableBreaks(p: State, own: map<nat, Use>, limbo: set<nat>)
    requires NullTable(p)
    ensures !Inv(p, own, limbo)
  {
  }
}
