/** create_page_dir of proc/process.c: the address space of a new process.  Its directory is a frame of the
    kernel pool that backs a kernel heap page. */
module Processes {
  import opened Wrappers
  import opened Paging
  import opened Pages
  import opened PageTables
  import opened PagesInvariant
  import opened PageAlloc
  import PoolLayout

  /** The new directory's frame `to`: zeroed by get_kern_pages, its upper quarter copied from the present
      directory, and its last entry on itself. */
  function ProcessDir(m: Mem, from: nat, to: nat): Mem {
    Store(ZeroFrame(m, to) + map i: nat | KERNEL_DIR <= i < ENTRIES :: Slot(to, i) := Load(m, from, i),
          to, 1023, Entry(to))
  }

  lemma ProcessDirLoad(m: Mem, from: nat, to: nat, f: nat, i: nat)
    requires i < ENTRIES
    ensures Load(ProcessDir(m, from, to), f, i) ==
            if f != to then Load(m, f, i)
            else if i == 1023 then Entry(to)
            else if i >= KERNEL_DIR then Load(m, from, i)
            else 0
  {
    var z := ZeroFrame(m, to);
    assert Load(z, f, i) == if f == to then 0 else Load(m, f, i);
  }

  /** The frame the kernel's own walk gives the new directory's page. */
  ghost function DirFrame(q: State, page: nat): nat {
    match VaddrToPhy(q.mem, q.dir, page * PAGE_SIZE)
    case Some(pa) => pa / PAGE_SIZE
    case None => 0
  }

  /** create_page_dir and create_user_vaddr_bitmap, seen from the new process; None where the kernel
      panics because there is no page.  Leaked user pages stay behind with their process. */
  ghost function CreatePageDir(p: State, userLength: nat): Option<State> {
    var (q, r) := MallocPage(p, Kernel, 1);
    if !r.Page? then None
    else
      var f := DirFrame(q, r.page);
      Some(q.(dir := f, mem := ProcessDir(q.mem, q.dir, f),
              uvirt := Region(PoolLayout.Clear(userLength), 0x8048), lost := KernelLost(q)))
  }

  function KernelLost(q: State): set<nat> { set n | n in q.lost && Owns(q.kvirt, n) }

  /** The uses that all processes share: kernel heap pages and the kernel's page tables. */
  predicate Shared(q: State, u: Use) {
    match u
    case Data(n) => Owns(q.kvirt, n)
    case TableOf(d) => d >= KERNEL_DIR
    case Pinned => false
  }

  /** In the new address space everything else belongs to another one. */
  function Inherited(q: State, own: map<nat, Use>): map<nat, Use> {
    map f | f in own :: if Shared(q, own[f]) then own[f] else Pinned
  }

  /** What the new directory translates: the kernel's quarter as before, and nothing else. */
  lemma ProcessTranslation(q: State, own: map<nat, Use>, f: nat, m: nat)
    requires Inv(q, own, {}) && f in own && own[f].Data? && m < WINDOW
    ensures WalkPage(ProcessDir(q.mem, q.dir, f), f, m) == if m / ENTRIES >= KERNEL_DIR then PageOf(q, m) else None
  {
    var d := m / ENTRIES;
    assert d < 1023;
    var mem := ProcessDir(q.mem, q.dir, f);
    ProcessDirLoad(q.mem, q.dir, f, f, d);
    if d >= KERNEL_DIR {
      assert Table(q, d) != f;
      ProcessDirLoad(q.mem, q.dir, f, Table(q, d), m % ENTRIES);
    }
  }

  lemma ProcessDirectory(q: State, f: nat, d: nat)
    requires d < ENTRIES
    ensures var e := Load(ProcessDir(q.mem, q.dir, f), f, d);
            && (d == 1023 ==> Present(e) && FrameOf(e) == f)
            && (d < 1023 ==> Present(e) == (d >= KERNEL_DIR && HasTable(q, d)))
            && (d < 1023 && Present(e) ==> FrameOf(e) == Table(q, d))
  {
    ProcessDirLoad(q.mem, q.dir, f, f, d);
    EntryFields(f);
  }

  /** The switch to a directory whose frame backs a kernel heap page keeps the invariant. */
  lemma SwitchInv(q: State, own: map<nat, Use>, z: State, f: nat, page: nat, userLength: nat)
    requires Inv(q, own, {}) && f in own && own[f] == Data(page) && Owns(q.kvirt, page) && userLength <= 94199
    requires z == q.(dir := f, mem := ProcessDir(q.mem, q.dir, f),
                     uvirt := Region(PoolLayout.Clear(userLength), 0x8048), lost := KernelLost(q))
    ensures Inv(z, Inherited(q, own), {})
    ensures forall n: nat :: InHeap(z, n) ==> PageOf(z, n) == if Owns(q.kvirt, n) then PageOf(q, n) else None
  {
    forall d: nat | d < ENTRIES
      ensures HasTable(z, d) == (d == 1023 || (d >= KERNEL_DIR && HasTable(q, d)))
      ensures HasTable(z, d) ==> Table(z, d) == if d == 1023 then f else Table(q, d)
    {
      ProcessDirectory(q, f, d);
    }
    forall n: nat | InHeap(z, n) ensures PageOf(z, n) == if Owns(q.kvirt, n) then PageOf(q, n) else None {
      assert n < WINDOW && (Owns(q.kvirt, n) <==> n / ENTRIES >= KERNEL_DIR);
      ProcessTranslation(q, own, f, n);
    }
    SwitchAgrees(q, own, z, f, page);
  }

  lemma SwitchAgrees(q: State, own: map<nat, Use>, z: State, f: nat, page: nat)
    requires Inv(q, own, {}) && f in own && own[f] == Data(page) && Owns(q.kvirt, page) && Layout(z)
    requires z == q.(dir := f, mem := z.mem, uvirt := z.uvirt, lost := KernelLost(q))
    requires forall n: nat :: !Taken(z.uvirt, n)
    requires forall d: nat :: d < ENTRIES ==> HasTable(z, d) == (d == 1023 || (d >= KERNEL_DIR && HasTable(q, d)))
    requires forall d: nat :: d < ENTRIES && HasTable(z, d) ==> Table(z, d) == if d == 1023 then f else Table(q, d)
    requires forall n: nat :: InHeap(z, n) ==> PageOf(z, n) == if Owns(q.kvirt, n) then PageOf(q, n) else None
    ensures Inv(z, Inherited(q, own), {})
  {
    hide WalkPage, HasTable, Table;
    var own' := Inherited(q, own);
    assert TablesOk(z, own') by { SwitchTables(q, own, z, f); }
    assert OwnExact(z, own') by { SwitchOwn(q, own, z, f); }
    assert forall n: nat :: Reserved(z, n) <==> Taken(q.kvirt, n);
  }

  lemma SwitchTables(q: State, own: map<nat, Use>, z: State, f: nat)
    requires Inv(q, own, {}) && f in own && own[f].Data? && Owns(q.kvirt, own[f].page) && z.dir == f
    requires z.kpool == q.kpool
    requires forall d: nat :: d < ENTRIES ==> HasTable(z, d) == (d == 1023 || (d >= KERNEL_DIR && HasTable(q, d)))
    requires forall d: nat :: d < ENTRIES && HasTable(z, d) ==> Table(z, d) == if d == 1023 then f else Table(q, d)
    ensures TablesOk(z, Inherited(q, own))
  {
    assert HasTable(z, 1023) && Table(z, 1023) == f;
    hide WalkPage;
  }

  lemma SwitchOwn(q: State, own: map<nat, Use>, z: State, f: nat)
    requires Inv(q, own, {}) && Layout(z)
    requires z == q.(dir := f, mem := z.mem, uvirt := z.uvirt, lost := z.lost)
    requires forall d: nat :: d < ENTRIES ==> HasTable(z, d) == (d == 1023 || (d >= KERNEL_DIR && HasTable(q, d)))
    requires forall d: nat :: d < ENTRIES && HasTable(z, d) ==> Table(z, d) == if d == 1023 then f else Table(q, d)
    requires forall n: nat :: InHeap(z, n) ==> PageOf(z, n) == if Owns(q.kvirt, n) then PageOf(q, n) else None
    ensures OwnExact(z, Inherited(q, own))
  {
    hide WalkPage, HasTable, Table;
  }

  /** The state create_page_dir leaves satisfies the page invariant: the directory backs the kernel heap page
      just allocated, kernel pages translate as before, no user page is mapped, and of the frames in use
      those that served the creator's user pages belong to another address space now. */
  lemma ProcessInv(p: State, own: map<nat, Use>, userLength: nat) returns (own': map<nat, Use>)
    requires Inv(p, own, {}) && userLength <= 94199 && CreatePageDir(p, userLength).Some?
    ensures MallocPage(p, Kernel, 1).1.Page?
    ensures var page := MallocPage(p, Kernel, 1).1.page;
            var z := CreatePageDir(p, userLength).value;
            && Inv(z, own', {}) && z.dir in own' && own'[z.dir] == Data(page) && Owns(z.kvirt, page)
            && z.dir !in own && z.dir >= z.kpool.start && z.kvirt.start == p.kvirt.start
            && |z.kvirt.bits| == |p.kvirt.bits| && z.lost <= p.lost && PageOf(p, page).None?
            && (forall n: nat :: Owns(z.kvirt, n) ==> PageOf(z, n) == if n == page then Some(z.dir) else PageOf(p, n))
            && (forall n: nat :: Owns(z.uvirt, n) ==> PageOf(z, n).None?)
            && (forall f: nat :: f in own' && own'[f].Pinned? <==> f in own && !Shared(p, own[f]))
  {
    hide MallocPage, Inv, Granted, VaddrToPhy, ProcessDir, PageOf;
    var (q, r) := MallocPage(p, Kernel, 1);
    var own1 := MallocPageKeeps(p, own, Kernel, 1);
    DirFrameIs(p, own, q, own1, r.page);
    var f := DirFrame(q, r.page);
    var z := CreatePageDir(p, userLength).value;
    SwitchInv(q, own1, z, f, r.page, userLength);
    own' := Inherited(q, own1);
    ProcessViews(p, own, q, own1, z, r.page);
  }

  lemma DirFrameIs(p: State, own: map<nat, Use>, q: State, own1: map<nat, Use>, page: nat)
    requires Inv(p, own, {}) && Inv(q, own1, {}) && SameShape(p, q) && Granted(p, own, q, own1, Kernel, page, 1)
    ensures PageOf(q, page) == Some(DirFrame(q, page)) && Owns(q.kvirt, page)
    ensures DirFrame(q, page) in own1 && own1[DirFrame(q, page)] == Data(page) && DirFrame(q, page) !in own
    ensures DirFrame(q, page) >= q.kpool.start
  {
    HeapDirs(q, page);
    VaOfPage(page);
    VaddrToPhyAgreesWithWalk(q.mem, q.dir, page * PAGE_SIZE);
    FreshFrame(p, own, q, own1, page);
    TranslationIsUse(q, own1, {}, page, DirFrame(q, page));
  }

  lemma ProcessViews(p: State, own: map<nat, Use>, q: State, own1: map<nat, Use>, z: State, page: nat)
    requires Inv(p, own, {}) && Inv(q, own1, {}) && SameShape(p, q) && Granted(p, own, q, own1, Kernel, page, 1)
    requires SamePinned(own, own1) && z.kvirt == q.kvirt && PageOf(q, page) == Some(z.dir) && own1[z.dir] == Data(page)
    requires forall n: nat :: InHeap(z, n) ==> PageOf(z, n) == if Owns(q.kvirt, n) then PageOf(q, n) else None
    requires Layout(z) && z.lost == KernelLost(q)
    ensures z.lost <= p.lost && PageOf(p, page).None? && z.kvirt.start == p.kvirt.start
    ensures |z.kvirt.bits| == |p.kvirt.bits|
    ensures forall n: nat :: Owns(z.kvirt, n) ==> PageOf(z, n) == if n == page then Some(z.dir) else PageOf(p, n)
    ensures forall n: nat :: Owns(z.uvirt, n) ==> PageOf(z, n).None?
    ensures forall f: nat :: f in own1 && !Shared(q, own1[f]) <==> f in own && !Shared(p, own[f])
  {
    hide TablesOk, WalkPage;
    assert page <= page < page + 1;
    forall n: nat | Owns(z.kvirt, n) ensures PageOf(z, n) == if n == page then Some(z.dir) else PageOf(p, n) {
      if n != page { SameElsewhere(p, own, q, own1, page, n); }
    }
  }

  /** A granted page moves no other. */
  lemma SameElsewhere(p: State, own: map<nat, Use>, q: State, own1: map<nat, Use>, page: nat, n: nat)
    requires Inv(p, own, {}) && Inv(q, own1, {}) && SameShape(p, q) && Grows(own, own1, page, 1) && InHeap(p, n)
    requires n != page
    ensures PageOf(q, n) == PageOf(p, n)
  {
    hide TablesOk, WalkPage;
    assert InHeap(q, n);
    if PageOf(p, n).Some? { TranslationIsUse(p, own, {}, n, PageOf(p, n).value); }
    if PageOf(q, n).Some? { TranslationIsUse(q, own1, {}, n, PageOf(q, n).value); }
    forall f: nat ensures PageOf(q, n) == Some(f) <==> PageOf(p, n) == Some(f) {
      TranslationIsUse(p, own, {}, n, f);
      TranslationIsUse(q, own1, {}, n, f);
    }
  }
}
