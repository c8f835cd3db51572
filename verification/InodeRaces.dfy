/** inode_open undisturbed, and the runs in which inode_open and inode_sync go wrong. */
module InodeRaces {
  import opened Wrappers
  import opened Disks
  import opened Inodes
  import opened InodeCache
  import opened InodeRuns
  import opened InodeSyncs

  ghost predicate Leads(s: Sys, q: Sys) { exists es :: Reaches(s, es, q) }

  lemma LeadsNow(s: Sys)
    ensures Leads(s, s)
  {
    assert Reaches(s, [], s);
  }

  lemma {:induction false} ReachesOn(s: Sys, es: seq<Event>, m: Sys, e: Event)
    requires Reaches(s, es, m) && Enabled(m, e)
    ensures Reaches(s, es + [e], Apply(m, e))
    decreases |es|
  {
    hide Enabled, Apply;
    if es == [] {
      assert (es + [e])[1..] == [];
      assert Reaches(Apply(m, e), [], Apply(m, e));
    } else {
      assert (es + [e])[0] == es[0] && (es + [e])[1..] == es[1..] + [e];
      ReachesOn(Apply(s, es[0]), es[1..], m, e);
    }
  }

  /** One step more. */
  lemma Then(s: Sys, m: Sys, e: Event, q: Sys)
    requires Leads(s, m) && Enabled(m, e) && Apply(m, e) == q
    ensures Leads(s, q)
  {
    hide Enabled, Apply, Reaches;
    var es :| Reaches(s, es, m);
    ReachesOn(s, es, m, e);
  }

  function With(s: Sys, t: Tid, o: Pending): Sys { s.(pending := s.pending[t := o]) }

  // ---- inode_open undisturbed ----

  lemma AfterAt(open: seq<Addr>, i: nat)
    requires NoDup(open) && i < |open|
    ensures After(open, open[i]) == First(open[i + 1..])
  {
    if i > 0 {
      var rest := open[1..];
      AfterAt(rest, i - 1);
      assert rest[i..] == open[i + 1..] && rest[i - 1] == open[i] && open[0] != open[i];
    }
  }

  /** Where the search of the list ends: what Find says. */
  function Searched(p: Partition, no: nat, at: Addr, i: nat): Pending
    requires i <= |p.open|
  {
    match Find(p.open[i..], p.inodes, no)
    case Some(a) => Found(a, no)
    case None => Missed(no, at)
  }

  lemma WalkStep(m: Sys, t: Tid, no: nat, at: Addr, i: nat)
    requires Fits(m.p) && !m.wild && ListOk(m.p) && i <= |m.p.open|
    requires t in m.pending && m.pending[t] == Walking(no, First(m.p.open[i..]))
    requires i == |m.p.open| ==> no < MAX_FILES_PER_PART && Unused(m, at)
    ensures Enabled(m, Walk(t, at))
    ensures Apply(m, Walk(t, at)) == With(m, t,
              if i == |m.p.open| then Missed(no, at)
              else if m.p.open[i] in m.p.inodes && m.p.inodes[m.p.open[i]].iNo == no then Found(m.p.open[i], no)
              else Walking(no, First(m.p.open[i + 1..])))
  {
    if i < |m.p.open| {
      assert m.p.open[i] in m.p.open;
      AfterAt(m.p.open, i);
    }
    hide Fits, NoDup, Unused;
  }

  lemma SearchedNext(p: Partition, no: nat, at: Addr, i: nat)
    requires i <= |p.open|
    ensures Searched(p, no, at, i) ==
              if i == |p.open| then Missed(no, at)
              else if p.open[i] in p.inodes && p.inodes[p.open[i]].iNo == no then Found(p.open[i], no)
              else Searched(p, no, at, i + 1)
  {
    if i < |p.open| { assert p.open[i..][1..] == p.open[i + 1..]; }
  }

  lemma {:induction false} WalkLeads(s: Sys, m: Sys, t: Tid, no: nat, at: Addr, i: nat)
    requires Leads(s, m) && Fits(m.p) && !m.wild && ListOk(m.p) && i <= |m.p.open|
    requires t in m.pending && m.pending[t] == Walking(no, First(m.p.open[i..]))
    requires Searched(m.p, no, at, i).Missed? ==> no < MAX_FILES_PER_PART && Unused(m, at)
    ensures Leads(s, With(m, t, Searched(m.p, no, at, i)))
    decreases |m.p.open| - i
  {
    hide Leads, Fits, ListOk, Enabled, Apply, Searched;
    WalkStep(m, t, no, at, i) by { SearchedNext(m.p, no, at, i); }
    SearchedNext(m.p, no, at, i);
    var n := Apply(m, Walk(t, at));
    Then(s, m, Walk(t, at), n);
    if n.pending[t].Walking? {
      if Searched(m.p, no, at, i).Missed? { SameUnused(m, n, t, at); }
      WalkLeads(s, n, t, no, at, i + 1);
      assert n.pending[t := Searched(n.p, no, at, i + 1)] == m.pending[t := Searched(m.p, no, at, i)];
    }
  }

  lemma SameUnused(m: Sys, n: Sys, t: Tid, at: Addr)
    requires t in n.pending && n == With(m, t, n.pending[t]) && MemoryOf(n.pending[t]).None? && Unused(m, at)
    ensures Unused(n, at)
  {
  }

  /** A search that nobody disturbs finds what Find says. */
  lemma LookupLeads(s: Sys, m: Sys, t: Tid, no: nat, at: Addr)
    requires Leads(s, m) && Fits(m.p) && !m.wild && ListOk(m.p) && t !in m.pending
    requires Searched(m.p, no, at, 0).Missed? ==> no < MAX_FILES_PER_PART && Unused(m, at)
    ensures Leads(s, With(m, t, Searched(m.p, no, at, 0)))
  {
    hide Leads, Fits;
    var n := With(m, t, Walking(no, First(m.p.open)));
    assert m.p.open[0..] == m.p.open;
    Then(s, m, Lookup(t, no), n);
    assert Searched(n.p, no, at, 0) == Searched(m.p, no, at, 0);
    if Searched(m.p, no, at, 0).Missed? { SameUnused(m, n, t, at); }
    WalkLeads(s, n, t, no, at, 0);
    assert n.pending[t := Searched(n.p, no, at, 0)] == m.pending[t := Searched(m.p, no, at, 0)];
  }

  lemma LinkSteps(m: Sys, t: Tid, no: nat, at: Addr, rec: Record)
    requires Fits(m.p) && !m.wild && ListOk(m.p) && no < MAX_FILES_PER_PART
    requires t in m.pending && m.pending[t] == Missed(no, at) && rec == Stored(m.p, no)
    ensures var m1 := With(m, t, Got(no, at, rec));
            var m2 := With(m, t, Aimed(no, at, rec, First(m.p.open)));
            && Enabled(m, Read(t)) && Apply(m, Read(t)) == m1 && Enabled(m1, Aim(t)) && Apply(m1, Aim(t)) == m2
            && Enabled(m2, Push(t))
            && Apply(m2, Push(t)) == With(m, t, Linked(no, at)).(p := Link(m.p, at, rec, First(m.p.open)))
  {
    if m.p.open != [] { assert m.p.open[0] in m.p.open; }
    assert Lands(m.p, First(m.p.open));
    hide Stored, Fits, InFront, NoDup, ListOk;
    var m2 := With(m, t, Aimed(no, at, rec, First(m.p.open)));
    assert m.pending[t := Got(no, at, rec)][t := m2.pending[t]] == m2.pending;
    assert m2.pending[t := Linked(no, at)] == m.pending[t := Linked(no, at)];
  }

  /** The record read, linked in front of the list. */
  lemma LinkLeads(s: Sys, m: Sys, t: Tid, no: nat, at: Addr)
    requires Leads(s, m) && Fits(m.p) && !m.wild && ListOk(m.p) && no < MAX_FILES_PER_PART
    requires t in m.pending && m.pending[t] == Missed(no, at)
    ensures Leads(s, With(m, t, Linked(no, at)).(p := Link(m.p, at, Stored(m.p, no), First(m.p.open))))
  {
    hide Leads, Stored, Fits, ListOk, Enabled, Apply;
    var rec := Stored(m.p, no);
    LinkSteps(m, t, no, at, rec);
    Then(s, m, Read(t), With(m, t, Got(no, at, rec)));
    Then(s, With(m, t, Got(no, at, rec)), Aim(t), With(m, t, Aimed(no, at, rec, First(m.p.open))));
    Then(s, With(m, t, Aimed(no, at, rec, First(m.p.open))), Push(t),
         With(m, t, Linked(no, at)).(p := Link(m.p, at, rec, First(m.p.open))));
  }

  function Inserted(p: Partition, no: nat, at: Addr): Partition
    requires Fits(p) && no < MAX_FILES_PER_PART
  {
    SetUser(Link(p, at, Stored(p, no), First(p.open)), no, at)
  }

  lemma InsertLeads(s: Sys, m: Sys, t: Tid, no: nat, at: Addr)
    requires Leads(s, m) && Fits(m.p) && !m.wild && ListOk(m.p) && no < MAX_FILES_PER_PART
    requires t in m.pending && m.pending[t] == Missed(no, at)
    ensures Leads(s, Sys(Inserted(m.p, no, at), m.pending - {t}, false))
  {
    hide Leads, Stored, InFront, ListOk;
    LinkLeads(s, m, t, no, at);
    var n := With(m, t, Linked(no, at)).(p := Link(m.p, at, Stored(m.p, no), First(m.p.open)));
    assert n.pending - {t} == m.pending - {t};
    Then(s, n, Finish(t), Sys(Inserted(m.p, no, at), m.pending - {t}, false));
  }

  /** The steps of inode_open with nobody in between are InodeOpen. */
  lemma OpenLeads(s: Sys, m: Sys, t: Tid, no: nat, at: Addr)
    requires Leads(s, m) && Fits(m.p) && !m.wild && ListOk(m.p) && t !in m.pending && no < MAX_FILES_PER_PART
    requires Find(m.p.open, m.p.inodes, no).None? ==> Unused(m, at)
    ensures Leads(s, m.(p := InodeOpen(m.p, no, at).0))
  {
    hide Leads, Stored, InFront, NoDup;
    assert m.p.open[0..] == m.p.open;
    LookupLeads(s, m, t, no, at);
    var n := With(m, t, Searched(m.p, no, at, 0));
    assert n.pending - {t} == m.pending;
    match Find(m.p.open, m.p.inodes, no)
    case Some(a) => Then(s, n, Count(t), m.(p := CountUser(m.p, a)));
    case None => InsertLeads(s, n, t, no, at);
  }

  lemma NotFound(p: Partition, no: nat)
    requires !Cached(p, no)
    ensures Find(p.open, p.inodes, no).None?
  {
  }

  lemma FindsIt(p: Partition, a: Addr)
    requires ListOk(p) && OneCopy(p) && a in p.inodes
    ensures Find(p.open, p.inodes, p.inodes[a].iNo) == Some(a)
  {
    assert a in p.open;
  }

  // ---- Two copies ----

  /** A record never written, as formatting leaves it, carries number 0. */
  ghost predicate Zeroed(s: Partition, no: nat)
    requires Fits(s) && no < MAX_FILES_PER_PART
  {
    ExtentSlot(s.image, s.table, no);
    forall i :: 0 <= i < INODE_SIZE ==> Slot(s.image, s.table, no)[i] == 0
  }

  lemma ZeroedNumber(s: Partition, no: nat)
    requires Fits(s) && no < MAX_FILES_PER_PART && Zeroed(s, no)
    ensures Stored(s, no).iNo == 0
  {
    ExtentSlot(s.image, s.table, no);
  }

  lemma InsertedList(p: Partition, no: nat, at: Addr)
    requires Fits(p) && no < MAX_FILES_PER_PART && ListOk(p) && at !in p.inodes
    ensures var q := Inserted(p, no, at);
            && ListOk(q) && Fits(q) && q.image == p.image && q.table == p.table
            && q.inodes == p.inodes[at := Stored(p, no).(openCnt := 1)] && q.open == [at] + p.open
  {
    hide Stored;
  }

  lemma TwoCopies(p: Partition, a: Addr, b: Addr)
    requires a != b && a in p.inodes && b in p.inodes && p.inodes[a].iNo == p.inodes[b].iNo
    ensures !OneCopy(p)
  {
  }

  /** On a formatted partition, opening two files that were never synced makes two copies of number 0, without
      any race. */
  lemma FormattedOpens(s: Sys, t: Tid, no: nat, other: nat, a: Addr, b: Addr) returns (q: Sys)
    requires Fits(s.p) && !s.wild && ListOk(s.p) && t !in s.pending && a != b && Unused(s, a) && Unused(s, b)
    requires no < MAX_FILES_PER_PART && 0 < other < MAX_FILES_PER_PART
    requires !Cached(s.p, no) && !Cached(s.p, other) && Zeroed(s.p, no) && Zeroed(s.p, other)
    ensures Leads(s, q) && q.pending == s.pending && !OneCopy(q.p)
    ensures a in q.p.inodes && b in q.p.inodes && q.p.inodes[a].iNo == q.p.inodes[b].iNo == 0
  {
    ZeroedNumber(s.p, no);
    ZeroedNumber(s.p, other);
    hide Stored, Zeroed, Leads, ListOk, Fits, Inserted;
    LeadsNow(s);
    NotFound(s.p, no);
    OpenLeads(s, s, t, no, a);
    var m := s.(p := InodeOpen(s.p, no, a).0);
    OpenIsInserted(s.p, no, a);
    InsertedList(s.p, no, a);
    SameStored(s.p, m.p, other);
    NotFound(m.p, other);
    OpenLeads(s, m, t, other, b);
    q := m.(p := InodeOpen(m.p, other, b).0);
    OpenIsInserted(m.p, other, b);
    InsertedList(m.p, other, b);
    TwoCopies(q.p, a, b);
  }

  lemma OpenIsInserted(p: Partition, no: nat, at: Addr)
    requires Fits(p) && no < MAX_FILES_PER_PART && Find(p.open, p.inodes, no).None?
    ensures InodeOpen(p, no, at).0 == Inserted(p, no, at)
  {
    hide Stored, InFront;
  }

  /** Two threads that both miss before either links the inode make two copies. */
  lemma RacingOpens(s: Sys, t: Tid, u: Tid, no: nat, a: Addr, b: Addr) returns (q: Sys)
    requires Fits(s.p) && !s.wild && ListOk(s.p) && t != u && t !in s.pending && u !in s.pending
    requires a != b && Unused(s, a) && Unused(s, b)
    requires no < MAX_FILES_PER_PART && !Cached(s.p, no) && Stored(s.p, no).iNo == no
    ensures Leads(s, q) && q.pending == s.pending && !OneCopy(q.p)
    ensures a in q.p.inodes && b in q.p.inodes && q.p.inodes[a].iNo == q.p.inodes[b].iNo == no
  {
    hide Stored, Leads, ListOk, Fits, Inserted;
    var m, n := BothMiss(s, t, u, no, a, b);
    InsertLeads(s, n, t, no, a);
    var r := Sys(Inserted(n.p, no, a), n.pending - {t}, false);
    InsertedList(n.p, no, a);
    SameStored(n.p, r.p, no);
    InsertLeads(s, r, u, no, b);
    InsertedList(r.p, no, b);
    q := Sys(Inserted(r.p, no, b), r.pending - {u}, false);
    assert q.pending == s.pending;
    TwoCopies(q.p, a, b);
  }

  lemma BothMiss(s: Sys, t: Tid, u: Tid, no: nat, a: Addr, b: Addr) returns (m: Sys, n: Sys)
    requires Fits(s.p) && !s.wild && ListOk(s.p) && t != u && t !in s.pending && u !in s.pending
    requires a != b && Unused(s, a) && Unused(s, b) && no < MAX_FILES_PER_PART && !Cached(s.p, no)
    ensures Leads(s, n) && m == With(s, t, Missed(no, a)) && n == With(m, u, Missed(no, b))
  {
    hide Leads, Fits, ListOk;
    assert s.p.open[0..] == s.p.open;
    NotFound(s.p, no);
    LeadsNow(s);
    m, n := With(s, t, Missed(no, a)), With(With(s, t, Missed(no, a)), u, Missed(no, b));
    LookupLeads(s, s, t, no, a);
    assert Unused(m, b);
    LookupLeads(s, m, u, no, b);
  }

  // ---- A count that is lost ----

  /** Up to the link of a miss: the inode is on the list with the count it was read with. */
  lemma HalfOpen(s: Sys, t: Tid, no: nat, a: Addr) returns (m: Sys)
    requires Fits(s.p) && !s.wild && ListOk(s.p) && t !in s.pending && Unused(s, a)
    requires no < MAX_FILES_PER_PART && !Cached(s.p, no)
    ensures Leads(s, m) && m.pending == s.pending[t := Linked(no, a)] && !m.wild && Fits(m.p)
    ensures m.p == Link(s.p, a, Stored(s.p, no), First(s.p.open)) && m.p.open == [a] + s.p.open
  {
    hide Leads, Stored, ListOk;
    assert s.p.open[0..] == s.p.open;
    NotFound(s.p, no);
    LeadsNow(s);
    LookupLeads(s, s, t, no, a);
    var n := With(s, t, Missed(no, a));
    LinkLeads(s, n, t, no, a);
    m := With(n, t, Linked(no, a)).(p := Link(n.p, a, Stored(n.p, no), First(n.p.open)));
    assert m.pending == s.pending[t := Linked(no, a)];
  }

  /** Another thread finds the inode there and is counted in it. */
  lemma CountedEarly(s: Sys, t: Tid, u: Tid, no: nat, a: Addr) returns (m: Sys)
    requires Fits(s.p) && !s.wild && ListOk(s.p) && t != u && t !in s.pending && u !in s.pending && Unused(s, a)
    requires no < MAX_FILES_PER_PART && !Cached(s.p, no) && Stored(s.p, no).iNo == no && Stored(s.p, no).openCnt == 0
    ensures Leads(s, m) && m.pending == s.pending[t := Linked(no, a)] && !m.wild && Fits(m.p)
    ensures a in m.p.inodes && m.p.inodes[a].iNo == no && m.p.inodes[a].openCnt == 1
    ensures Times(m.p.opens, no) == Times(s.p.opens, no) + 1 && m.p.closes == s.p.closes
  {
    hide Leads, Stored, InFront, ListOk;
    var h := HalfOpen(s, t, no, a);
    LinkedList(s.p, a, Stored(s.p, no));
    FoundFirst(s, h, u, no, a);
    var f := With(h, u, Found(a, no));
    m := Sys(CountUser(h.p, a), f.pending - {u}, false);
    assert m.pending == s.pending[t := Linked(no, a)];
    CountsOther(f, u, no, a);
    Then(s, f, Count(u), m);
    OnceTimes(s.p.opens, no, no);
  }

  /** A search that finds the head of the list. */
  lemma FoundFirst(s: Sys, h: Sys, u: Tid, no: nat, a: Addr)
    requires Leads(s, h) && Fits(h.p) && !h.wild && ListOk(h.p) && u !in h.pending
    requires h.p.open != [] && h.p.open[0] == a && a in h.p.inodes && h.p.inodes[a].iNo == no
    ensures Leads(s, With(h, u, Found(a, no)))
  {
    hide Leads, ListOk, Fits;
    assert h.p.open[0..] == h.p.open;
    LookupLeads(s, h, u, no, a);
  }

  lemma LinkedList(p: Partition, at: Addr, rec: Record)
    requires ListOk(p) && at !in p.inodes
    ensures ListOk(Link(p, at, rec, First(p.open)))
  {
    InFrontHas(p.open, First(p.open), at);
  }

  /** The thread that linked the inode then sets its count to 1 although it has two users, */
  lemma LostCount(s: Sys, t: Tid, u: Tid, no: nat, a: Addr) returns (q: Sys)
    requires SysInv(s) && Fits(s.p) && t != u && t !in s.pending && u !in s.pending && Unused(s, a)
    requires no < MAX_FILES_PER_PART && !Cached(s.p, no) && Stored(s.p, no).iNo == no && Stored(s.p, no).openCnt == 0
    ensures Leads(s, q) && q.pending == s.pending && !q.wild && Fits(q.p)
    ensures a in q.p.inodes && q.p.inodes[a].iNo == no && q.p.inodes[a].openCnt == 1 && a !in q.p.unset
    ensures Times(q.p.opens, no) == Times(q.p.closes, no) + 2
  {
    var m := CountedEarly(s, t, u, no, a);
    assert Times(s.p.opens, no) == Times(s.p.closes, no);
    hide SysInv, Leads, Stored;
    q := Sys(SetUser(m.p, no, a), m.pending - {t}, false);
    assert q.pending == s.pending;
    Then(s, m, Finish(t), q);
    OnceTimes(m.p.opens, no, no);
  }

  /** and the first close frees it from under the other user. */
  lemma LostInode(s: Sys, t: Tid, u: Tid, no: nat, a: Addr) returns (q: Sys)
    requires SysInv(s) && Fits(s.p) && t != u && t !in s.pending && u !in s.pending && Unused(s, a)
    requires no < MAX_FILES_PER_PART && !Cached(s.p, no) && Stored(s.p, no).iNo == no && Stored(s.p, no).openCnt == 0
    ensures Leads(s, q) && !q.wild && a !in q.p.inodes && Times(q.p.opens, no) == Times(q.p.closes, no) + 1
  {
    var m := LostCount(s, t, u, no, a);
    hide SysInv, Leads, Stored, Without;
    q := m.(p := InodeClose(m.p, a));
    Then(s, m, Close(a), q);
    OnceTimes(m.p.closes, no, no);
  }

  /** Or the other user closes the inode before its count is set: then freed memory is written to. */
  lemma LateCount(s: Sys, t: Tid, u: Tid, no: nat, a: Addr) returns (q: Sys)
    requires SysInv(s) && Fits(s.p) && t != u && t !in s.pending && u !in s.pending && Unused(s, a)
    requires no < MAX_FILES_PER_PART && !Cached(s.p, no) && Stored(s.p, no).iNo == no && Stored(s.p, no).openCnt == 0
    ensures Leads(s, q) && q.wild && a !in q.p.inodes
  {
    var m := CountedEarly(s, t, u, no, a);
    assert Times(s.p.opens, no) == Times(s.p.closes, no);
    hide SysInv, Leads, Stored, Without;
    var n := m.(p := InodeClose(m.p, a));
    Then(s, m, Close(a), n);
    q := Sys(n.p, n.pending - {t}, true);
    Then(s, n, Finish(t), q);
  }

  // ---- Freed memory ----

  /** An inode with one user, its count set. */
  predicate Sole(s: Sys, no: nat, a: Addr) {
    a in s.p.inodes && a !in s.p.unset && s.p.inodes[a].iNo == no && s.p.inodes[a].openCnt == 1
  }

  lemma CloseSole(m: Sys, no: nat, a: Addr)
    requires Fits(m.p) && !m.wild && Sole(m, no, a) && ListOk(m.p)
    ensures Enabled(m, Close(a))
    ensures var n := m.(p := InodeClose(m.p, a));
            && Apply(m, Close(a)) == n && Fits(n.p) && n.p.inodes == m.p.inodes - {a} && ListOk(n.p)
            && n.p.image == m.p.image && n.p.table == m.p.table && n.p.unset == m.p.unset
  {
    WithoutOne(m.p.open, a);
    assert m.p.unset - {a} == m.p.unset;
  }

  lemma FoundThenClosed(s: Sys, t: Tid, no: nat, a: Addr) returns (n: Sys)
    requires SysInv(s) && Fits(s.p) && t !in s.pending && Sole(s, no, a)
    ensures Leads(s, n) && n == Sys(InodeClose(s.p, a), s.pending[t := Found(a, no)], false)
    ensures n.p.inodes == s.p.inodes - {a} && ListOk(n.p) && Fits(n.p)
    ensures n.p.image == s.p.image && n.p.table == s.p.table
  {
    hide MemoryOk, PendingsOk, OwnersOk, Leads, Fits, InodesOk, ClosedOk, UnsetOk;
    assert s.p.open[0..] == s.p.open;
    FindsIt(s.p, a);
    LeadsNow(s);
    LookupLeads(s, s, t, no, a);
    var m := With(s, t, Found(a, no));
    CloseSole(m, no, a);
    n := m.(p := InodeClose(m.p, a));
    Then(s, m, Close(a), n);
  }

  /** The only user of an inode closes it after another thread found it and before that counts itself: the count
      goes to freed memory. */
  lemma StaleCount(s: Sys, t: Tid, no: nat, a: Addr) returns (q: Sys)
    requires SysInv(s) && Fits(s.p) && t !in s.pending && Sole(s, no, a)
    ensures Leads(s, q) && q.wild && a !in q.p.inodes
  {
    hide SysInv, Leads, InodeClose, Fits, ListOk;
    var n := FoundThenClosed(s, t, no, a);
    q := Sys(n.p, n.pending - {t}, true);
    CountsFreed(n, t, no, a);
    Then(s, n, Count(t), q);
  }

  lemma CountsFreed(n: Sys, t: Tid, no: nat, a: Addr)
    requires Fits(n.p) && !n.wild && t in n.pending && n.pending[t] == Found(a, no) && a !in n.p.inodes
    ensures Enabled(n, Count(t)) && Apply(n, Count(t)) == Sys(n.p, n.pending - {t}, true)
  {
  }

  /** Or the memory holds another file by then: inode_open returns that file's inode, which counts a user too
      many. */
  lemma StaleReuse(s: Sys, t: Tid, u: Tid, no: nat, other: nat, a: Addr) returns (q: Sys)
    requires SysInv(s) && Fits(s.p) && t != u && t !in s.pending && u !in s.pending && Sole(s, no, a)
    requires other != no && other < MAX_FILES_PER_PART && !Cached(s.p, other) && Stored(s.p, other).iNo == other
    ensures Leads(s, q) && !q.wild && q.pending == s.pending
    ensures a in q.p.inodes && q.p.inodes[a].iNo == other && q.p.inodes[a].openCnt == 2
  {
    hide SysInv, Leads, InodeClose, Stored, Fits, ListOk, Inserted;
    var n := FoundThenClosed(s, t, no, a);
    FreedUnused(s, n, t, no, other, a);
    NotFound(n.p, other);
    OpenLeads(s, n, u, other, a);
    OpenIsInserted(n.p, other, a);
    InsertedList(n.p, other, a);
    var r := n.(p := Inserted(n.p, other, a));
    q := Sys(CountUser(r.p, a), r.pending - {t}, false);
    assert q.pending == s.pending;
    CountsOther(r, t, no, a);
    Then(s, r, Count(t), q);
  }

  lemma FreedUnused(s: Sys, n: Sys, t: Tid, no: nat, other: nat, a: Addr)
    requires SysInv(s) && a in s.p.inodes && n.pending == s.pending[t := Found(a, no)]
    requires n.p.inodes == s.p.inodes - {a} && !Cached(s.p, other) && other < MAX_FILES_PER_PART
    requires Fits(s.p) && n.p.image == s.p.image && n.p.table == s.p.table
    ensures Unused(n, a) && !Cached(n.p, other) && Fits(n.p) && Stored(n.p, other) == Stored(s.p, other)
  {
    hide CacheInv, PendingsOk, OwnersOk;
    SameStored(s.p, n.p, other);
    hide Stored;
  }

  lemma CountsOther(r: Sys, t: Tid, no: nat, a: Addr)
    requires Fits(r.p) && !r.wild && t in r.pending && r.pending[t] == Found(a, no) && a in r.p.inodes
    ensures Enabled(r, Count(t)) && Apply(r, Count(t)) == Sys(CountUser(r.p, a), r.pending - {t}, false)
  {
  }

  /** The walk along the list stands on an inode whose only user closes it: the next step reads freed memory. */
  lemma WalkFreed(s: Sys, t: Tid, no: nat, other: nat, a: Addr, at: Addr) returns (q: Sys)
    requires Fits(s.p) && !s.wild && ListOk(s.p) && t !in s.pending && Sole(s, other, a) && First(s.p.open) == Some(a)
    ensures Leads(s, q) && q.wild
  {
    LeadsNow(s);
    var m := With(s, t, Walking(no, Some(a)));
    CloseSole(m, other, a);
    hide Leads, ListOk, InodeClose;
    Then(s, s, Lookup(t, no), m);
    var n := m.(p := InodeClose(m.p, a));
    Then(s, m, Close(a), n);
    q := Sys(n.p, n.pending - {t}, true);
    Then(s, n, Walk(t, at), q);
  }

  /** The inode at the head of the list is closed between list_push_front's look at it and the link in front of
      it: the link goes to freed memory. */
  lemma LinkFreed(s: Sys, t: Tid, no: nat, a: Addr, rec: Record, other: nat, b: Addr) returns (q: Sys)
    requires Fits(s.p) && !s.wild && ListOk(s.p) && t in s.pending && s.pending[t] == Got(no, a, rec)
    requires Sole(s, other, b) && First(s.p.open) == Some(b)
    ensures Leads(s, q) && q.wild
  {
    LeadsNow(s);
    var m := With(s, t, Aimed(no, a, rec, Some(b)));
    CloseSole(m, other, b);
    hide Leads, ListOk, InodeClose;
    Then(s, s, Aim(t), m);
    var n := m.(p := InodeClose(m.p, b));
    Then(s, m, Close(b), n);
    q := Sys(n.p, n.pending - {t}, true);
    Then(s, n, Push(t), q);
  }

  // ---- A sync that is lost ----

  /** A thread has copied an inode and read its sectors. */
  lemma LoadLeads(s: Sys, m: Sys, t: Tid, a: Addr)
    requires Leads(s, m) && Fits(m.p) && !m.wild && t !in m.pending && a in m.p.inodes
    requires Storable(m.p.inodes[a]) && m.p.inodes[a].iNo < MAX_FILES_PER_PART
    ensures var r := Cleared(m.p.inodes[a]); Leads(s, With(m, t, Loaded(r, Sectors(m.p, r.iNo))))
  {
    hide Leads, Sectors, Fits;
    var r := Cleared(m.p.inodes[a]);
    var n := With(m, t, Copied(r));
    Then(s, m, SyncCopy(t, a), n);
    assert n.pending[t := Loaded(r, Sectors(m.p, r.iNo))] == m.pending[t := Loaded(r, Sectors(m.p, r.iNo))];
    Then(s, n, SyncLoad(t), With(m, t, Loaded(r, Sectors(m.p, r.iNo))));
  }

  /** Record `no` lies wholly in the sectors of record `of`. */
  predicate Shares(table: nat, of: nat, no: nat) {
    var p := GetPosition(table, of);
    SECTOR * p.lba <= SlotAt(table, no) && SlotAt(table, no) + INODE_SIZE <= SECTOR * (p.lba + Span(p))
  }

  /** Two inodes with records in the same sectors are synced; the one that read first writes last, and the other
      record is what it was before. */
  lemma LostSync(s: Sys, t: Tid, u: Tid, a: Addr, b: Addr) returns (q: Sys)
    requires Fits(s.p) && !s.wild && t != u && t !in s.pending && u !in s.pending
    requires a in s.p.inodes && b in s.p.inodes && Storable(s.p.inodes[a]) && Storable(s.p.inodes[b])
    requires s.p.inodes[a].iNo < MAX_FILES_PER_PART && s.p.inodes[b].iNo < MAX_FILES_PER_PART
    requires s.p.inodes[a].iNo != s.p.inodes[b].iNo && Shares(s.p.table, s.p.inodes[a].iNo, s.p.inodes[b].iNo)
    ensures var no := s.p.inodes[b].iNo;
            && Leads(s, q) && Fits(q.p) && no in q.p.synced && q.p.synced[no] == DataOf(s.p.inodes[b])
            && Stored(q.p, no) == Stored(s.p, no)
  {
    hide Leads, Sectors, Stored, Fits, WriteBack, Shares, BufferOk, GetPosition, SlotAt;
    var r, w := Cleared(s.p.inodes[a]), Cleared(s.p.inodes[b]);
    var buf := Sectors(s.p, r.iNo);
    LeadsNow(s);
    LoadLeads(s, s, t, a);
    var m := With(s, t, Loaded(r, buf));
    LoadLeads(s, m, u, b);
    var n := With(m, u, Loaded(w, Sectors(s.p, w.iNo)));
    SectorsSize(s.p, w);
    SectorsSize(s.p, r);
    var p1 := WriteBack(s.p, w, Sectors(s.p, w.iNo));
    WriteBackMemory(s.p, w, Sectors(s.p, w.iNo));
    Then(s, n, SyncWrite(u), m.(p := p1)) by { assert n.pending - {u} == m.pending; }
    q := Sys(WriteBack(p1, r, buf), m.pending - {t}, false);
    Then(s, m.(p := p1), SyncWrite(t), q);
    BothSynced(s.p, r, buf, w);
    PutBack(s.p, p1, r, w.iNo);
  }

  lemma SectorsSize(p: Partition, r: Record)
    requires Fits(p) && Storable(r) && r.iNo < MAX_FILES_PER_PART
    ensures BufferOk(p.table, r, Sectors(p, r.iNo))
  {
  }

  lemma BothSynced(p: Partition, r: Record, buf: seq<Byte>, w: Record)
    requires Fits(p) && Storable(w) && w.iNo < MAX_FILES_PER_PART && BufferOk(p.table, w, Sectors(p, w.iNo))
    requires BufferOk(p.table, r, buf) && r.iNo != w.iNo
    ensures var p1 := WriteBack(p, w, Sectors(p, w.iNo));
            && Fits(p1) && p1.table == p.table && w.iNo in WriteBack(p1, r, buf).synced
            && WriteBack(p1, r, buf).synced[w.iNo] == DataOf(w)
  {
  }

  lemma SectorsByte(p: Partition, no: nat, i: nat)
    requires Fits(p) && no < MAX_FILES_PER_PART && i < |Sectors(p, no)|
    ensures var from := SECTOR * GetPosition(p.table, no).lba;
            from + i < |p.image| && Sectors(p, no)[i] == p.image[from + i]
  {
    ExtentSlot(p.image, p.table, no);
    hide GetPosition;
  }

  /** Sectors read from p and written back later put all records inside them back to what they were in p. */
  lemma PutBack(p: Partition, now: Partition, r: Record, no: nat)
    requires Fits(p) && Fits(now) && now.table == p.table && |now.image| == |p.image|
    requires r.iNo < MAX_FILES_PER_PART && no < MAX_FILES_PER_PART && no != r.iNo
    requires Shares(p.table, r.iNo, no) && BufferOk(p.table, r, Sectors(p, r.iNo))
    ensures Fits(WriteBack(now, r, Sectors(p, r.iNo)))
    ensures Stored(WriteBack(now, r, Sectors(p, r.iNo)), no) == Stored(p, no)
  {
    hide Decode, Sectors, WriteBack, GetPosition, Span, Storable;
    var buf := Sectors(p, r.iNo);
    var from := SECTOR * GetPosition(p.table, r.iNo).lba;
    BeneathIs(now, r, buf, no);
    ExtentSlot(p.image, p.table, no);
    forall i: nat | i < INODE_SIZE
      ensures SlotAt(p.table, no) + i < |p.image| && Beneath(now, r, buf, no)[i] == p.image[SlotAt(p.table, no) + i]
    {
      SectorsByte(p, r.iNo, SlotAt(p.table, no) + i - from);
    }
    assert Beneath(now, r, buf, no) == Slot(p.image, p.table, no);
  }
}
