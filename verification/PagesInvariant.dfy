/** malloc_page and free_page keep the bitmaps, the page tables and the frame pools in agreement. */
module PagesInvariant {
  import opened Wrappers
  import opened Bitmaps
  import opened Paging
  import opened Pages
  import opened PageTables

  lemma HeapDirs(p: State, n: nat)
    requires Layout(p) && InHeap(p, n)
    ensures FIRST_DIR <= n / ENTRIES < 1023 && n < WINDOW
    ensures Owns(p.kvirt, n) ==> KERNEL_DIR <= n / ENTRIES
  {
  }

  lemma TablesPrivate(p: State, own: map<nat, Use>)
    requires TablesOk(p, own)
    ensures DirPrivate(p) && forall d: nat :: FIRST_DIR <= d < 1023 && HasTable(p, d) ==> Table(p, d) != 0
  {
  }

  /** Heap pages never share a page-table entry. */
  lemma HeapEntriesDistinct(p: State, own: map<nat, Use>, m: nat, n: nat)
    requires Layout(p) && TablesOk(p, own) && InHeap(p, m) && InHeap(p, n) && SameEntry(p, m, n)
    ensures m == n
  {
    HeapDirs(p, m);
    HeapDirs(p, n);
    assert own[Table(p, m / ENTRIES)] == TableOf(m / ENTRIES);
    assert own[Table(p, n / ENTRIES)] == TableOf(n / ENTRIES);
  }

  /** palloc hands out the lowest free frame of its own pool, and sets its bit; it fails exactly when the pool is
      full. */
  lemma PallocFacts(p: State, t: Flag)
    ensures var (p1, r) := Palloc(p, t);
            match r
            case None => p1 == p && Full(Pool(p, t).bits)
            case Some(f) =>
              && Owns(Pool(p, t), f) && !Taken(Pool(p, t), f)
              && (forall g: nat :: Pool(p, t).start <= g < f ==> Taken(Pool(p, t), g))
              && p1 == WithPool(p, t, Pool(p, t).(bits := Pool(p, t).bits[f - Pool(p, t).start := true]))
  {
    var bits := Pool(p, t).bits;
    match ScanSpec(bits, 1)
    case Found(pos) =>
      assert Run(bits, pos, 1) && !bits[pos];
      forall g: nat | Pool(p, t).start <= g < Pool(p, t).start + pos ensures Taken(Pool(p, t), g) {
        assert !Run(bits, g - Pool(p, t).start, 1);
      }
    case NotFound =>
    case Panic =>
      var i :| 0 <= i < |bits| && !bits[i];
      assert Run(bits, i, 1);
  }

  /** The frame just taken is nobody's. */
  lemma PallocFresh(p: State, own: map<nat, Use>, t: Flag)
    requires Inv(p, own, {}) && Palloc(p, t).1.Some?
    ensures var f := Palloc(p, t).1.value;
            f !in own && f >= p.kpool.start && FreshTable(p, f)
  {
    PallocFacts(p, t);
    var f := Palloc(p, t).1.value;
    assert !Taken(p.kpool, f) && !Taken(p.upool, f);
    forall d: nat | d < 1023 && HasTable(p, d) ensures Table(p, d) != f {
      if d >= FIRST_DIR { assert Table(p, d) in own; }
    }
  }

  /** Book-keeping shared by both cases of page_table_add: the state differs by one frame bit and one
      translation. */
  lemma SetBitInv(p: State, q: State, own: map<nat, Use>, t: Flag, f: nat, page: nat)
    requires Inv(p, own, {}) && Owns(Virt(p, t), page) && page in p.lost && PageOf(p, page).None?
    requires Owns(Pool(p, t), f) && !Taken(Pool(p, t), f) && f !in own
    requires var p1 := WithPool(p, t, Pool(p, t).(bits := Pool(p, t).bits[f - Pool(p, t).start := true]));
             q == p1.(mem := q.mem)
    requires forall d: nat :: d < ENTRIES ==> Load(q.mem, q.dir, d) == Load(p.mem, p.dir, d)
    requires forall m: nat :: InHeap(p, m) ==> PageOf(q, m) == if m == page then Some(f) else PageOf(p, m)
    ensures Inv(q, own[f := Data(page)], {})
  {
    assert DirOk(p, own) && 0 !in own && f != 0;
    hide WalkPage, TablesOk;
    var own' := own[f := Data(page)];
    assert forall m: nat :: InHeap(q, m) == InHeap(p, m) && Reserved(q, m) == Reserved(p, m);
    TablesTransfer(p, q, own, own');
    PoolBit(p, q, t, f, true);
  }

  /** The page tables are in order as long as the directory is the same and no table changed hands. */
  lemma TablesTransfer(p: State, q: State, own: map<nat, Use>, own': map<nat, Use>)
    requires TablesOk(p, own) && q.dir == p.dir && q.kpool.start == p.kpool.start
    requires forall d: nat :: d < ENTRIES ==> Load(q.mem, q.dir, d) == Load(p.mem, p.dir, d)
    requires forall f: nat :: f in own && own[f].TableOf? ==> f in own' && own'[f] == own[f]
    requires DirOk(q, own') && 0 !in own'
    ensures TablesOk(q, own')
    ensures forall d: nat :: d < ENTRIES ==> HasTable(q, d) == HasTable(p, d) && Table(q, d) == Table(p, d)
  {
    assert forall d: nat :: d < ENTRIES ==> HasTable(q, d) == HasTable(p, d) && Table(q, d) == Table(p, d);
    assert SelfMap(q.mem, q.dir);
  }

  lemma PoolBit(p: State, q: State, t: Flag, f: nat, value: bool)
    requires Layout(p) && Owns(Pool(p, t), f)
    requires q == WithPool(p, t, Pool(p, t).(bits := Pool(p, t).bits[f - Pool(p, t).start := value])).(mem := q.mem)
    ensures forall g: nat :: (Taken(q.kpool, g) || Taken(q.upool, g)) <==>
              if g == f then value else Taken(p.kpool, g) || Taken(p.upool, g)
  {
  }

  /** Where page_table_add goes through for a heap page, no other heap page moves. */
  lemma AddHeapTranslation(p: State, own: map<nat, Use>, page: nat, f: nat)
    requires Layout(p) && TablesOk(p, own) && InHeap(p, page) && PageOf(p, page).None?
    requires !HasTable(p, page / ENTRIES) ==> FreshTable(p, NewTable(p))
    ensures PageTableAdd(p, page, f).Some?
    ensures forall m: nat :: InHeap(p, m) ==>
      PageOf(PageTableAdd(p, page, f).value, m) == if m == page then Some(f) else PageOf(p, m)
  {
    HeapDirs(p, page);
    TablesPrivate(p, own);
    AddTranslation(p, page, f, page);
    var q := PageTableAdd(p, page, f).value;
    forall m: nat | InHeap(p, m) ensures PageOf(q, m) == if m == page then Some(f) else PageOf(p, m) {
      HeapDirs(p, m);
      AddTranslation(p, page, f, m);
      if SameEntry(p, m, page) {
        HeapEntriesDistinct(p, own, m, page);
      }
    }
  }

  /** Setting one pool bit changes nothing the page tables depend on. */
  lemma PallocKeepsTables(p: State, own: map<nat, Use>, t: Flag)
    requires Layout(p) && TablesOk(p, own)
    ensures var p1 := Palloc(p, t).0;
            Layout(p1) && TablesOk(p1, own) && p1.mem == p.mem && p1.dir == p.dir
            && p1.kvirt == p.kvirt && p1.uvirt == p.uvirt && p1.lost == p.lost && p1.nullTables == p.nullTables
  {
    PallocFacts(p, t);
    var p1 := Palloc(p, t).0;
    assert forall d: nat :: HasTable(p1, d) == HasTable(p, d) && Table(p1, d) == Table(p, d);
  }

  /** Taking a frame for a page whose table exists, and entering it. */
  lemma MapWithTable(p: State, own: map<nat, Use>, t: Flag, page: nat)
    requires Inv(p, own, {}) && Owns(Virt(p, t), page) && page in p.lost && PageOf(p, page).None?
    requires HasTable(p, page / ENTRIES) && Palloc(p, t).1.Some?
    ensures var (p1, f) := Palloc(p, t);
            var q := PageTableAdd(p1, page, f.value);
            q.Some? && q.value.nullTables == p.nullTables && Inv(q.value, own[f.value := Data(page)], {})
            && q.value == p1.(mem := q.value.mem)
  {
    var (p1, fo) := Palloc(p, t);
    var f := fo.value;
    PallocFacts(p, t);
    PallocFresh(p, own, t);
    PallocKeepsTables(p, own, t);
    HeapDirs(p, page);
    TablesPrivate(p, own);
    assert forall m: nat :: PageOf(p1, m) == PageOf(p, m);
    AddWithTable(p1, page, f);
    AddHeapTranslation(p1, own, page, f);
    SetBitInv(p, PageTableAdd(p1, page, f).value, own, t, f, page);
  }

  /** The state once the kernel pool has given a page table to empty directory entry d. */
  ghost function WithTable(p: State, d: nat): State {
    var (p1, tf) := Palloc(p, Kernel);
    if tf.None? then p1
    else p1.(mem := ZeroFrame(Store(p.mem, p.dir, d, Entry(tf.value)), tf.value))
  }

  lemma NewTableTranslation(p: State, d: nat, tf: nat, m: nat)
    requires d < 1023 && m < WINDOW && !HasTable(p, d) && DirPrivate(p) && FreshTable(p, tf)
    ensures WalkPage(ZeroFrame(Store(p.mem, p.dir, d, Entry(tf)), tf), p.dir, m) == PageOf(p, m)
  {
    EntryFields(tf);
    var m1 := Store(p.mem, p.dir, d, Entry(tf));
    var e := m / ENTRIES;
    assert e < 1023;
    if e != d && HasTable(p, e) {
      assert Table(p, e) != tf && Table(p, e) != p.dir;
      assert Load(ZeroFrame(m1, tf), Table(p, e), m % ENTRIES) == Load(p.mem, Table(p, e), m % ENTRIES);
    }
  }

  lemma NewTableDirectory(p: State, d: nat, tf: nat, e: nat)
    requires e < ENTRIES && tf != p.dir
    ensures Load(ZeroFrame(Store(p.mem, p.dir, d, Entry(tf)), tf), p.dir, e) ==
            if e == d then Entry(tf) else Load(p.mem, p.dir, e)
  {
  }

  lemma NewTableInv(p: State, own: map<nat, Use>, d: nat)
    requires Inv(p, own, {}) && FIRST_DIR <= d < 1023 && !HasTable(p, d) && Palloc(p, Kernel).1.Some?
    ensures Inv(WithTable(p, d), own[Palloc(p, Kernel).1.value := TableOf(d)], {})
  {
    var tf := Palloc(p, Kernel).1.value;
    var q := WithTable(p, d);
    var own' := own[tf := TableOf(d)];
    PallocFacts(p, Kernel);
    PallocFresh(p, own, Kernel);
    TablesPrivate(p, own);
    EntryFields(tf);
    forall e: nat | e < ENTRIES ensures Load(q.mem, q.dir, e) == if e == d then Entry(tf) else Load(p.mem, p.dir, e) {
      NewTableDirectory(p, d, tf, e);
    }
    forall m: nat | InHeap(p, m) ensures PageOf(q, m) == PageOf(p, m) {
      HeapDirs(p, m);
      NewTableTranslation(p, d, tf, m);
    }
    NewTableInv'(p, q, own, d, tf);
  }

  lemma NewTableInv'(p: State, q: State, own: map<nat, Use>, d: nat, tf: nat)
    requires Inv(p, own, {}) && FIRST_DIR <= d < 1023 && !HasTable(p, d)
    requires Owns(p.kpool, tf) && !Taken(p.kpool, tf) && tf !in own
    requires q == p.(kpool := p.kpool.(bits := p.kpool.bits[tf - p.kpool.start := true]), mem := q.mem)
    requires HasTable(q, d) && Table(q, d) == tf
    requires forall e: nat :: e < ENTRIES && e != d ==> HasTable(q, e) == HasTable(p, e) && Table(q, e) == Table(p, e)
    requires forall m: nat :: InHeap(p, m) ==> PageOf(q, m) == PageOf(p, m)
    ensures Inv(q, own[tf := TableOf(d)], {})
  {
    var own' := own[tf := TableOf(d)];
    assert forall m: nat :: InHeap(q, m) == InHeap(p, m) && Reserved(q, m) == Reserved(p, m);
    assert forall g: nat ::
        (Taken(q.kpool, g) || Taken(q.upool, g)) == (g == tf || Taken(p.kpool, g) || Taken(p.upool, g));
    assert TablesOk(q, own') by {
      assert HasTable(q, 1023) && Table(q, 1023) == q.dir;
    }
    assert OwnExact(q, own');
    assert PagesOk(q, own', {});
  }

  /** For a user page the frame and the page table come from different pools, so it makes no
      difference that the table is taken second. */
  lemma TableFirst(p: State, page: nat)
    requires page < WINDOW && SelfMap(p.mem, p.dir) && !HasTable(p, page / ENTRIES)
    requires Palloc(p, User).1.Some? && Palloc(p, Kernel).1.Some? && Palloc(p, Kernel).1.value != p.dir
    requires PageOf(WithTable(p, page / ENTRIES), page).None?
    ensures PageTableAdd(Palloc(p, User).0, page, Palloc(p, User).1.value)
            == PageTableAdd(Palloc(WithTable(p, page / ENTRIES), User).0, page, Palloc(p, User).1.value)
    ensures Palloc(WithTable(p, page / ENTRIES), User).1 == Palloc(p, User).1
  {
    var d, f, tf := page / ENTRIES, Palloc(p, User).1.value, Palloc(p, Kernel).1.value;
    assert d < 1023;
    var p1, q0 := Palloc(p, User).0, WithTable(p, d);
    assert Palloc(p1, Kernel).1 == Some(tf) && p1.mem == p.mem;
    AddWithoutTable(p1, page, f);
    EntryFields(tf);
    NewTableDirectory(p, d, tf, d);
    NewTableDirectory(p, d, tf, 1023);
    var q1 := Palloc(q0, User).0;
    assert q1.mem == q0.mem && PageOf(q1, page).None?;
    AddWithTable(q1, page, f);
  }

  /** Taking a frame for a page whose directory entry is empty: a page table is taken as well. */
  lemma MapWithoutTable(p: State, own: map<nat, Use>, t: Flag, page: nat)
    requires Inv(p, own, {}) && Owns(Virt(p, t), page) && page in p.lost && PageOf(p, page).None?
    requires !HasTable(p, page / ENTRIES) && Palloc(p, t).1.Some? && Palloc(p, Kernel).1.Some?
    ensures t == User
    ensures var (p1, f) := Palloc(p, t);
            var q := PageTableAdd(p1, page, f.value);
            var tf := Palloc(p, Kernel).1.value;
            q.Some? && q.value.nullTables == p.nullTables
            && Inv(q.value, own[tf := TableOf(page / ENTRIES)][f.value := Data(page)], {})
            && q.value == p1.(mem := q.value.mem, kpool := q.value.kpool)
            && q.value.kpool.start == p.kpool.start && |q.value.kpool.bits| == |p.kpool.bits|
  {
    var d, tf := page / ENTRIES, Palloc(p, Kernel).1.value;
    HeapDirs(p, page);
    assert t == User;
    NewTableInv(p, own, d);
    var q0 := WithTable(p, d);
    EntryFields(tf);
    PallocFresh(p, own, Kernel);
    TablesPrivate(p, own);
    NewTableTranslation(p, d, tf, page);
    NewTableDirectory(p, d, tf, d);
    assert PageOf(q0, page).None? && HasTable(q0, d) && q0.lost == p.lost && q0.uvirt == p.uvirt;
    TableFirst(p, page);
    PallocFacts(p, Kernel);
    PallocFacts(q0, User);
    MapWithTable(q0, own[tf := TableOf(d)], t, page);
  }
}
