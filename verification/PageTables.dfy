/** What page_table_add and page_table_remove do to the translation of every address. */
module PageTables {
  import opened Wrappers
  import opened Bitmaps
  import opened Paging
  import opened Pages

  /** Two pages whose translation is the same page-table entry, because their directory entries share
      a page table. */
  ghost predicate SameEntry(p: State, m: nat, n: nat) {
    HasTable(p, m / ENTRIES) && HasTable(p, n / ENTRIES)
    && Table(p, m / ENTRIES) == Table(p, n / ENTRIES) && m % ENTRIES == n % ENTRIES
  }

  /** No directory entry uses the frame as its page table. */
  ghost predicate FreshTable(p: State, frame: nat) {
    frame != p.dir && forall d: nat :: d < 1023 && HasTable(p, d) ==> Table(p, d) != frame
  }

  /** No directory entry below 1023 uses the directory as its page table. */
  ghost predicate DirPrivate(p: State) {
    forall d: nat :: d < 1023 && HasTable(p, d) ==> Table(p, d) != p.dir
  }

  /** The pages of a run have no frame yet. */
  ghost predicate Unmapped(p: State, page: nat, cnt: nat) {
    forall n: nat :: page <= n < page + cnt ==> PageOf(p, n).None?
  }

  lemma VaOfPage(page: nat)
    requires page < 0x100000
    ensures page * PAGE_SIZE < 0x1_0000_0000
    ensures page * PAGE_SIZE / PAGE_SIZE == page
  {
  }

  /** With a page table present, page_table_add stores one entry, unless the page is mapped already. */
  lemma AddWithTable(p: State, page: nat, frame: nat)
    requires SelfMap(p.mem, p.dir) && page < WINDOW && HasTable(p, page / ENTRIES)
    ensures PageTableAdd(p, page, frame) ==
            if PageOf(p, page).Some? then None
            else Some(p.(mem := Store(p.mem, Table(p, page / ENTRIES), page % ENTRIES, Entry(frame))))
  {
    VaOfPage(page);
    PdePtrHitsPde(p.mem, p.dir, page * PAGE_SIZE);
    PtePtrHitsPte(p.mem, p.dir, page * PAGE_SIZE);
  }

  /** The frame page_table_add uses for a new page table: physical address 0 when none is left. */
  ghost function NewTable(p: State): nat {
    var (_, t) := Palloc(p, Kernel);
    if t.Some? then t.value else 0
  }

  lemma AddWithoutTable(p: State, page: nat, frame: nat)
    requires SelfMap(p.mem, p.dir) && page < WINDOW && !HasTable(p, page / ENTRIES)
    requires NewTable(p) != p.dir
    ensures var (p1, t) := Palloc(p, Kernel);
            var d, tf := page / ENTRIES, NewTable(p);
            PageTableAdd(p, page, frame) ==
            Some(p1.(mem := Store(ZeroFrame(Store(p.mem, p.dir, d, Entry(tf)), tf), tf, page % ENTRIES, Entry(frame)),
                     nullTables := if t.Some? then p.nullTables else p.nullTables + 1))
  {
    var d, tf := page / ENTRIES, NewTable(p);
    var va := page * PAGE_SIZE;
    VaOfPage(page);
    EntryFields(tf);
    PdePtrHitsPde(p.mem, p.dir, va);
    var m1 := Store(p.mem, p.dir, d, Entry(tf));
    assert SelfMap(m1, p.dir);
    PtePtrHitsPte(m1, p.dir, va);
    var m2 := ZeroFrame(m1, tf);
    assert SelfMap(m2, p.dir);
    PtePtrHitsPte(m2, p.dir, va);
    assert !Present(Load(m2, tf, page % ENTRIES));
  }

  /** Storing an entry in a page table changes the translation of the pages that use that entry. */
  lemma StoreEntry(p: State, table: nat, index: nat, word: nat, m: nat)
    requires table != p.dir && m < WINDOW
    ensures PageOf(p.(mem := Store(p.mem, table, index, word)), m) ==
            if HasTable(p, m / ENTRIES) && Table(p, m / ENTRIES) == table && m % ENTRIES == index
            then (if Present(word) then Some(FrameOf(word)) else None)
            else PageOf(p, m)
  {
  }

  /** Installing a zeroed table in an empty directory entry and filling one of its entries. */
  lemma StoreTable(p: State, page: nat, table: nat, frame: nat, m: nat)
    requires page < WINDOW && m < WINDOW && !HasTable(p, page / ENTRIES)
    requires DirPrivate(p) && FreshTable(p, table)
    ensures var d := page / ENTRIES;
            var zeroed := ZeroFrame(Store(p.mem, p.dir, d, Entry(table)), table);
            var mem := Store(zeroed, table, page % ENTRIES, Entry(frame));
            WalkPage(mem, p.dir, m) == if m == page then Some(frame) else PageOf(p, m)
  {
    var d, i := page / ENTRIES, page % ENTRIES;
    EntryFields(table);
    EntryFields(frame);
    var m1 := Store(p.mem, p.dir, d, Entry(table));
    var mem := Store(ZeroFrame(m1, table), table, i, Entry(frame));
    var e := m / ENTRIES;
    assert e < 1023;
    if e == d {
      assert Load(mem, p.dir, e) == Entry(table);
      assert m != page ==> m % ENTRIES != i;
    } else {
      assert Load(mem, p.dir, e) == Load(p.mem, p.dir, e);
      if HasTable(p, e) {
        assert Table(p, e) != table && Table(p, e) != p.dir;
        assert Load(mem, Table(p, e), m % ENTRIES) == Load(m1, Table(p, e), m % ENTRIES);
      }
    }
  }

  /** page_table_add, exactly: the page now has its frame, and so does every page that shares its
      entry; every other page below 0xffc00000 translates as before. */
  lemma AddTranslation(p: State, page: nat, frame: nat, m: nat)
    requires SelfMap(p.mem, p.dir) && page < WINDOW && m < WINDOW
    requires DirPrivate(p)
    requires !HasTable(p, page / ENTRIES) ==> FreshTable(p, NewTable(p))
    requires PageOf(p, page).None?
    ensures PageTableAdd(p, page, frame).Some?
    ensures PageOf(PageTableAdd(p, page, frame).value, m) ==
            if m == page || SameEntry(p, m, page) then Some(frame) else PageOf(p, m)
  {
    if HasTable(p, page / ENTRIES) {
      EntryFields(frame);
      AddWithTable(p, page, frame);
      StoreEntry(p, Table(p, page / ENTRIES), page % ENTRIES, Entry(frame), m);
    } else {
      AddWithoutTable(p, page, frame);
      StoreTable(p, page, NewTable(p), frame, m);
    }
  }

  /** A page that is mapped already fails the assertion. */
  lemma AddRefusesMapped(p: State, page: nat, frame: nat)
    requires SelfMap(p.mem, p.dir) && page < WINDOW && PageOf(p, page).Some?
    ensures PageTableAdd(p, page, frame).None?
  {
    VaOfPage(page);
    PdePtrHitsPde(p.mem, p.dir, page * PAGE_SIZE);
    PtePtrHitsPte(p.mem, p.dir, page * PAGE_SIZE);
  }

  /** Every other page translates as before if and only if its entry is not the one written. */
  lemma AddLeavesOthersIff(p: State, page: nat, frame: nat, m: nat)
    requires SelfMap(p.mem, p.dir) && page < WINDOW && m < WINDOW && m != page
    requires DirPrivate(p)
    requires !HasTable(p, page / ENTRIES) ==> FreshTable(p, NewTable(p))
    requires PageOf(p, page).None?
    ensures PageTableAdd(p, page, frame).Some?
    ensures PageOf(PageTableAdd(p, page, frame).value, m) == PageOf(p, m) <==> !SameEntry(p, m, page)
  {
    AddTranslation(p, page, frame, m);
  }

  /** vaddr_to_phy agrees with the MMU on a page just added. */
  lemma AddThenVaddrToPhy(p: State, page: nat, frame: nat, offset: nat)
    requires SelfMap(p.mem, p.dir) && page < WINDOW && offset < PAGE_SIZE
    requires DirPrivate(p)
    requires !HasTable(p, page / ENTRIES) ==> FreshTable(p, NewTable(p))
    requires PageOf(p, page).None?
    ensures PageTableAdd(p, page, frame).Some?
    ensures var q := PageTableAdd(p, page, frame).value;
            VaddrToPhy(q.mem, q.dir, page * PAGE_SIZE + offset) == Some(frame * PAGE_SIZE + offset)
  {
    hide PageTableAdd;
    AddTranslation(p, page, frame, page);
    var q := PageTableAdd(p, page, frame).value;
    AddKeepsSelfMap(p, page, frame);
    VaOfPage(page);
    var va := page * PAGE_SIZE + offset;
    assert va / PAGE_SIZE == page && va % PAGE_SIZE == offset;
    VaddrToPhyAgreesWithWalk(q.mem, q.dir, va);
  }

  lemma AddKeepsSelfMap(p: State, page: nat, frame: nat)
    requires SelfMap(p.mem, p.dir) && page < WINDOW
    requires DirPrivate(p)
    requires !HasTable(p, page / ENTRIES) ==> FreshTable(p, NewTable(p))
    requires PageTableAdd(p, page, frame).Some?
    ensures SelfMap(PageTableAdd(p, page, frame).value.mem, p.dir)
    ensures PageTableAdd(p, page, frame).value.dir == p.dir
  {
    if HasTable(p, page / ENTRIES) {
      AddWithTable(p, page, frame);
    } else {
      AddWithoutTable(p, page, frame);
    }
  }

  /** page_table_remove, exactly. */
  lemma RemoveTranslation(p: State, page: nat, m: nat)
    requires SelfMap(p.mem, p.dir) && page < WINDOW && m < WINDOW
    requires HasTable(p, page / ENTRIES) && DirPrivate(p)
    ensures var d, i := page / ENTRIES, page % ENTRIES;
            var word := Load(p.mem, Table(p, d), i);
            PageTableRemove(p, page) == Some(p.(mem := Store(p.mem, Table(p, d), i, word - word % 2)))
    ensures PageOf(PageTableRemove(p, page).value, m) ==
            if m == page || SameEntry(p, m, page) then None else PageOf(p, m)
  {
    VaOfPage(page);
    PdePtrHitsPde(p.mem, p.dir, page * PAGE_SIZE);
    PtePtrHitsPte(p.mem, p.dir, page * PAGE_SIZE);
    var word := Load(p.mem, Table(p, page / ENTRIES), page % ENTRIES);
    assert (word - word % 2) % 2 == 0;
    StoreEntry(p, Table(p, page / ENTRIES), page % ENTRIES, word - word % 2, m);
  }

  /** Writing any word of a frame that holds no page table changes no translation. */
  lemma DataWritesChangeNoTranslation(p: State, frame: nat, index: nat, word: nat, m: nat)
    requires FreshTable(p, frame) && m < WINDOW
    ensures PageOf(p.(mem := Store(p.mem, frame, index, word)), m) == PageOf(p, m)
  {
    assert m / ENTRIES < 1023;
    assert HasTable(p, m / ENTRIES) ==> Table(p, m / ENTRIES) != frame;
  }

  /** What the unchecked palloc costs: with the kernel pool exhausted, mapping a page of a second
      directory entry without a page table erases the mapping just made under the first, because
      both tables are the frame at physical address 0. */
  lemma NullTablesCollide(p: State, page: nat, frame: nat, page': nat, frame': nat)
    requires SelfMap(p.mem, p.dir) && page < WINDOW && page' < WINDOW && page / ENTRIES != page' / ENTRIES
    requires !HasTable(p, page / ENTRIES) && !HasTable(p, page' / ENTRIES)
    requires Full(p.kpool.bits) && DirPrivate(p) && FreshTable(p, 0) && page % ENTRIES != page' % ENTRIES
    ensures var q := PageTableAdd(p, page, frame);
            q.Some? && PageOf(q.value, page) == Some(frame) &&
            var r := PageTableAdd(q.value, page', frame');
            r.Some? && r.value.nullTables == p.nullTables + 2 && PageOf(r.value, page).None?
  {
    assert page / ENTRIES < 1023 && page' / ENTRIES < 1023;
    AddWithoutTable(p, page, frame);
    AddTranslation(p, page, frame, page);
    EntryFields(0);
    var q := PageTableAdd(p, page, frame).value;
    AddWithoutTable(q, page', frame');
  }
}
