/** Runs of inode_open, inode_close, inode_sync and changes to open inodes by any number of threads, statement
    by statement as far as others can come in between.  inode_open walks the list; after a hit it counts its
    user; after a miss it reads the record, looks for the head of the list, links the inode in front of it and
    sets its count.  inode_sync copies the inode, reads its sectors and writes them back.  Only inode_close and
    the linking itself run with interrupts off. */
module InodeRuns {
  import opened Wrappers
  import opened Disks
  import opened Inodes
  import opened InodeCache

  type Tid = nat

  /** Where a thread is.  In inode_open: at a node of the list (None is its end), with the inode it found, with
      memory for the one it missed, with the record it has read into it, with the node to link it in front of,
      and with the inode linked and its count still to be set.  In inode_sync: with the copy, and with the
      sectors it has read. */
  datatype Pending = Walking(no: nat, node: Option<Addr>)
    | Found(a: Addr, no: nat)
    | Missed(no: nat, at: Addr) | Got(no: nat, at: Addr, rec: Record)
    | Aimed(no: nat, at: Addr, rec: Record, target: Option<Addr>) | Linked(no: nat, at: Addr)
    | Copied(rec: Record) | Loaded(rec: Record, buf: seq<Byte>)

  /** `wild`: freed memory was read as a node of the list, or written to. */
  datatype Sys = Sys(p: Partition, pending: map<Tid, Pending>, wild: bool)

  datatype Event = Lookup(t: Tid, no: nat) | Walk(t: Tid, at: Addr) | Count(t: Tid)
    | Read(t: Tid) | Aim(t: Tid) | Push(t: Tid) | Finish(t: Tid)
    | Close(a: Addr) | Change(a: Addr, d: Data, writing: Byte)
    | SyncCopy(t: Tid, a: Addr) | SyncLoad(t: Tid) | SyncWrite(t: Tid)

  /** The memory a thread was given and has not linked yet. */
  function MemoryOf(o: Pending): Option<Addr> {
    match o
    case Missed(_, at) => Some(at)
    case Got(_, at, _) => Some(at)
    case Aimed(_, at, _, _) => Some(at)
    case _ => None
  }

  /** Memory that neither holds an inode nor was given to a thread inside inode_open. */
  predicate Unused(s: Sys, at: Addr) {
    at !in s.p.inodes && forall t :: t in s.pending ==> MemoryOf(s.pending[t]) != Some(at)
  }

  /** get_position's assertion; sys_kmalloc gives memory not in use; an inode is closed, synced and changed
      while it is open, and closed only by one of its users.  After an access to freed memory nothing is
      claimed. */
  predicate Enabled(s: Sys, e: Event) {
    Fits(s.p) && !s.wild &&
    match e
    case Lookup(t, _) => t !in s.pending
    case Walk(t, at) =>
      && t in s.pending && s.pending[t].Walking?
      && (s.pending[t].node.None? ==> s.pending[t].no < MAX_FILES_PER_PART && Unused(s, at))
    case Count(t) => t in s.pending && s.pending[t].Found?
    case Read(t) => t in s.pending && s.pending[t].Missed? && s.pending[t].no < MAX_FILES_PER_PART
    case Aim(t) => t in s.pending && s.pending[t].Got?
    case Push(t) => t in s.pending && s.pending[t].Aimed?
    case Finish(t) => t in s.pending && s.pending[t].Linked?
    case Close(a) =>
      a in s.p.inodes && (a in s.p.unset ==> Times(s.p.closes, s.p.inodes[a].iNo) < Times(s.p.opens, s.p.inodes[a].iNo))
    case Change(a, d, _) =>
      a in s.p.inodes && d.iSize < WORD && |d.iSectors| == INODE_SECTOR_CNT && forall x :: x in d.iSectors ==> x < WORD
    case SyncCopy(t, a) =>
      t !in s.pending && a in s.p.inodes && Storable(s.p.inodes[a]) && s.p.inodes[a].iNo < MAX_FILES_PER_PART
    case SyncLoad(t) =>
      && t in s.pending && s.pending[t].Copied?
      && Storable(s.pending[t].rec) && s.pending[t].rec.iNo < MAX_FILES_PER_PART
    case SyncWrite(t) =>
      t in s.pending && s.pending[t].Loaded? && BufferOk(s.p.table, s.pending[t].rec, s.pending[t].buf)
  }

  /** The node the inode is to be linked in front of is still there. */
  predicate Lands(p: Partition, target: Option<Addr>) { target.None? || target.value in p.inodes }

  function Sectors(p: Partition, no: nat): seq<Byte>
    requires Fits(p) && no < MAX_FILES_PER_PART
  {
    ExtentSlot(p.image, p.table, no);
    Extent(p.image, GetPosition(p.table, no).lba, Span(GetPosition(p.table, no)))
  }

  function WalkOn(s: Sys, t: Tid, at: Addr): Sys
    requires Enabled(s, Walk(t, at))
  {
    var o := s.pending[t];
    match o.node
    case None => s.(pending := s.pending[t := Missed(o.no, at)])
    case Some(a) =>
      if a !in s.p.inodes then s.(pending := s.pending - {t}, wild := true)
      else if s.p.inodes[a].iNo == o.no then s.(pending := s.pending[t := Found(a, o.no)])
      else s.(pending := s.pending[t := Walking(o.no, After(s.p.open, a))])
  }

  function Apply(s: Sys, e: Event): Sys
    requires Enabled(s, e)
  {
    match e
    case Lookup(t, no) => s.(pending := s.pending[t := Walking(no, First(s.p.open))])
    case Walk(t, at) => WalkOn(s, t, at)
    case Count(t) =>
      var a := s.pending[t].a;
      s.(p := if a in s.p.inodes then CountUser(s.p, a) else s.p, pending := s.pending - {t}, wild := a !in s.p.inodes)
    case Read(t) =>
      var o := s.pending[t];
      s.(pending := s.pending[t := Got(o.no, o.at, Stored(s.p, o.no))])
    case Aim(t) =>
      var o := s.pending[t];
      s.(pending := s.pending[t := Aimed(o.no, o.at, o.rec, First(s.p.open))])
    case Push(t) =>
      var o := s.pending[t];
      if Lands(s.p, o.target)
      then s.(p := Link(s.p, o.at, o.rec, o.target), pending := s.pending[t := Linked(o.no, o.at)])
      else s.(pending := s.pending - {t}, wild := true)
    case Finish(t) =>
      var o := s.pending[t];
      s.(p := if o.at in s.p.inodes then SetUser(s.p, o.no, o.at) else s.p,
         pending := s.pending - {t}, wild := o.at !in s.p.inodes)
    case Close(a) => s.(p := InodeClose(s.p, a))
    case Change(a, d, writing) => s.(p := Edit(s.p, a, d, writing))
    case SyncCopy(t, a) => s.(pending := s.pending[t := Copied(Cleared(s.p.inodes[a]))])
    case SyncLoad(t) =>
      var r := s.pending[t].rec;
      s.(pending := s.pending[t := Loaded(r, Sectors(s.p, r.iNo))])
    case SyncWrite(t) =>
      s.(p := WriteBack(s.p, s.pending[t].rec, s.pending[t].buf), pending := s.pending - {t})
  }

  ghost predicate Reaches(s: Sys, es: seq<Event>, q: Sys)
    decreases |es|
  {
    if es == [] then q == s else Enabled(s, es[0]) && Reaches(Apply(s, es[0]), es[1..], q)
  }

  lemma WriteBackMemory(p: Partition, r: Record, buf: seq<Byte>)
    requires Fits(p) && BufferOk(p.table, r, buf)
    ensures var q := WriteBack(p, r, buf);
            && Fits(q) && |q.image| == |p.image| && q.table == p.table && q.inodes == p.inodes && q.open == p.open
            && q.unset == p.unset && q.opens == p.opens && q.closes == p.closes
  {
  }

  // ---- One copy for each number, in every run ----

  /** The threads inside inode_open hold memory of their own. */
  ghost predicate MemoryOk(s: Sys) {
    && (forall t :: t in s.pending && MemoryOf(s.pending[t]).Some? ==> MemoryOf(s.pending[t]).value !in s.p.inodes)
    && (forall t, u :: t in s.pending && u in s.pending && t != u && MemoryOf(s.pending[t]).Some? ==>
          MemoryOf(s.pending[t]) != MemoryOf(s.pending[u]))
  }

  /** No memory is newly taken, and none of it has become an inode. */
  lemma MemorySame(s: Sys, q: Sys)
    requires MemoryOk(s)
    requires forall t :: t in q.pending && MemoryOf(q.pending[t]).Some? ==>
               t in s.pending && MemoryOf(q.pending[t]) == MemoryOf(s.pending[t])
    requires forall a :: a in q.p.inodes ==> a in s.p.inodes
    ensures MemoryOk(q)
  {
  }

  lemma MemoryStep(s: Sys, e: Event)
    requires MemoryOk(s) && Enabled(s, e)
    ensures MemoryOk(Apply(s, e))
  {
    hide Stored, Fits, WriteBack, Sectors, InFront, Without;
    var q := Apply(s, e);
    match e
    case Walk(t, at) => if s.pending[t].node.Some? { MemorySame(s, q); }
    case Push(t) => assert MemoryOf(s.pending[t]) == Some(s.pending[t].at);
    case SyncWrite(t) => WriteBackMemory(s.p, s.pending[t].rec, s.pending[t].buf); MemorySame(s, q);
    case _ => MemorySame(s, q);
  }

  /** A record is linked whose number is in memory already. */
  predicate Clashes(s: Sys, e: Event)
    requires Enabled(s, e)
  {
    e.Push? && Lands(s.p, s.pending[e.t].target) && Cached(s.p, s.pending[e.t].rec.iNo)
  }

  /** One copy for each number survives a step if and only if the step does not clash. */
  lemma StepOneCopyIff(s: Sys, e: Event)
    requires OneCopy(s.p) && MemoryOk(s) && Enabled(s, e)
    ensures OneCopy(Apply(s, e).p) <==> !Clashes(s, e)
  {
    hide Stored, Fits, WriteBack, Sectors, InFront, Without;
    match e
    case Push(t) =>
      var o := s.pending[t];
      assert MemoryOf(o).Some?;
      LinkIff(s.p, o.at, o.rec, o.target);
    case SyncWrite(t) => WriteBackMemory(s.p, s.pending[t].rec, s.pending[t].buf);
    case _ =>
  }

  /** No record the run links has its number in memory already. */
  ghost predicate NoClash(s: Sys, es: seq<Event>)
    decreases |es|
  {
    es != [] && Enabled(s, es[0]) ==> !Clashes(s, es[0]) && NoClash(Apply(s, es[0]), es[1..])
  }

  /** Every state of the run has one copy for each number. */
  ghost predicate AlwaysOne(s: Sys, es: seq<Event>)
    decreases |es|
  {
    OneCopy(s.p) && (es != [] && Enabled(s, es[0]) ==> AlwaysOne(Apply(s, es[0]), es[1..]))
  }

  /** Over every interleaving, one copy for each number is kept if and only if no record linked has its number in
      memory already. */
  lemma {:induction false} OneCopyIff(s: Sys, es: seq<Event>, q: Sys)
    requires OneCopy(s.p) && MemoryOk(s) && Reaches(s, es, q)
    ensures AlwaysOne(s, es) <==> NoClash(s, es)
    decreases |es|
  {
    if es != [] {
      var m := Apply(s, es[0]);
      hide Apply, Enabled, Clashes, OneCopy, MemoryOk;
      StepOneCopyIff(s, es[0]);
      MemoryStep(s, es[0]);
      if !Clashes(s, es[0]) { OneCopyIff(m, es[1..], q); } else { NotOne(m, es[1..]); }
    }
  }

  lemma NotOne(s: Sys, es: seq<Event>)
    requires !OneCopy(s.p)
    ensures !AlwaysOne(s, es)
  {
  }

  // ---- What inode_open returns ----

  /** The address inode_open returns at the end of a hit or a miss, and the number it was asked for. */
  function Answer(s: Sys, e: Event): Option<(Addr, nat)>
    requires Enabled(s, e)
  {
    match e
    case Count(t) => Some((s.pending[t].a, s.pending[t].no))
    case Finish(t) => Some((s.pending[t].at, s.pending[t].no))
    case _ => None
  }

  /** At the address there is an open inode of that number, the only one, and its count is that of its users. */
  ghost predicate Right(p: Partition, a: Addr, no: nat) {
    && a in p.inodes && p.inodes[a].iNo == no && p.inodes[a].openCnt > 0
    && p.inodes[a].openCnt + Times(p.closes, no) == Times(p.opens, no)
    && forall b :: b in p.inodes && p.inodes[b].iNo == no ==> b == a
  }

  /** The step goes to no freed memory and leaves one copy for each number; and if inode_open returns in it, it
      returns what it was asked for. */
  ghost predicate Serves(s: Sys, e: Event)
    requires Enabled(s, e)
  {
    var q := Apply(s, e);
    && !q.wild && OneCopy(q.p)
    && match Answer(s, e)
       case Some((a, no)) => Right(q.p, a, no)
       case None => true
  }

  /** The walk stands on an inode that was closed; the inode found is no longer there, or its memory has another
      number by now, or its count is at its end or was not 0 when it was linked; the node to link in front of
      is gone, or the number of the record is in memory; or the inode linked is gone, or has another number
      than was asked for, or its count is no longer what it was read with. */
  predicate Spoiled(s: Sys, e: Event)
    requires Enabled(s, e)
  {
    var p := s.p;
    match e
    case Walk(t, _) => s.pending[t].node.Some? && s.pending[t].node.value !in p.inodes
    case Count(t) =>
      var o := s.pending[t];
      !(o.a in p.inodes && p.inodes[o.a].iNo == o.no && p.inodes[o.a].openCnt + 1 < WORD
        && (o.a in p.unset ==> p.unset[o.a] == 0))
    case Push(t) => !Lands(p, s.pending[t].target) || Cached(p, s.pending[t].rec.iNo)
    case Finish(t) =>
      var o := s.pending[t];
      !(o.at in p.inodes && o.at in p.unset && p.inodes[o.at].iNo == o.no && p.inodes[o.at].openCnt == p.unset[o.at])
    case _ => false
  }

  predicate PendingOk(o: Pending) {
    match o
    case Got(_, _, rec) => Storable(rec)
    case Aimed(_, _, rec, _) => Storable(rec)
    case _ => true
  }

  ghost predicate PendingsOk(s: Sys) { forall t :: t in s.pending ==> PendingOk(s.pending[t]) }

  /** Every inode whose count is still to be set has a thread to set it. */
  ghost predicate OwnersOk(s: Sys) { forall a :: a in s.p.unset ==> HasOwner(s, a) }

  ghost predicate HasOwner(s: Sys, a: Addr) { exists t :: Owner(s, a, t) }

  predicate Owner(s: Sys, a: Addr, t: Tid) { t in s.pending && s.pending[t].Linked? && s.pending[t].at == a }

  ghost predicate SysInv(s: Sys) { CacheInv(s.p) && MemoryOk(s) && PendingsOk(s) && OwnersOk(s) && !s.wild }

  lemma PendingsStep(s: Sys, e: Event)
    requires PendingsOk(s) && Enabled(s, e)
    ensures PendingsOk(Apply(s, e))
  {
    hide Fits, WriteBack, Sectors, InFront, Without, Storable;
    if e.Read? { assert Storable(Stored(s.p, s.pending[e.t].no)); }
    hide Stored;
  }

  lemma OwnersStep(s: Sys, e: Event)
    requires OwnersOk(s) && UnsetOk(s.p) && Enabled(s, e)
    ensures OwnersOk(Apply(s, e))
  {
    hide Fits, Stored, Sectors, InFront, Without, Storable, WriteBack;
    var q := Apply(s, e);
    if e.SyncWrite? { WriteBackMemory(s.p, s.pending[e.t].rec, s.pending[e.t].buf); }
    forall a | a in q.p.unset ensures HasOwner(q, a) {
      if e.Push? && Lands(s.p, s.pending[e.t].target) && a == s.pending[e.t].at {
        assert Owner(q, a, e.t);
      } else {
        assert HasOwner(s, a);
        var t :| Owner(s, a, t);
        assert Owner(q, a, t);
      }
    }
  }

  /** A step that is not spoiled keeps the cache. */
  lemma CacheStep(s: Sys, e: Event)
    requires SysInv(s) && Enabled(s, e) && !Spoiled(s, e)
    ensures CacheInv(Apply(s, e).p) && !Apply(s, e).wild
  {
    hide ListOk, OneCopy, ClosedOk, UnsetOk, Fits, Stored, Sectors, WriteBack, InFront, Without;
    match e
    case Count(t) => HitKeeps(s.p, s.pending[t].a);
    case Push(t) =>
      var o := s.pending[t];
      assert PendingOk(o) && MemoryOf(o) == Some(o.at);
      LinkKeeps(s.p, o.at, o.rec, o.target);
    case Finish(t) => SetKeeps(s.p, s.pending[t].no, s.pending[t].at);
    case Close(a) => assert InodeOk(s.p, a); CloseKeeps(s.p, a);
    case Change(a, d, writing) => EditKeeps(s.p, a, d, writing);
    case SyncWrite(t) =>
      WriteBackMemory(s.p, s.pending[t].rec, s.pending[t].buf);
      CacheFrame(s.p, Apply(s, e).p);
    case _ =>
  }

  lemma StepKeeps(s: Sys, e: Event)
    requires SysInv(s) && Enabled(s, e) && !Spoiled(s, e)
    ensures SysInv(Apply(s, e))
  {
    CacheStep(s, e);
    MemoryStep(s, e);
    PendingsStep(s, e);
    OwnersStep(s, e);
    hide CacheInv, MemoryOk, PendingsOk, OwnersOk, Apply;
  }

  /** A step serves if and only if it is not spoiled. */
  lemma StepServesIff(s: Sys, e: Event)
    requires SysInv(s) && Enabled(s, e)
    ensures Serves(s, e) <==> !Spoiled(s, e)
  {
    StepOneCopyIff(s, e);
    hide ListOk, ClosedOk, UnsetOk, PendingsOk, OwnersOk, MemoryOk, Fits, Stored, Sectors, WriteBack, InFront, Without;
    match e
    case Count(t) => CountServesIff(s, t);
    case Finish(t) => FinishServesIff(s, t);
    case _ => hide InodesOk, OneCopy;
  }

  lemma CountServesIff(s: Sys, t: Tid)
    requires InodesOk(s.p) && OneCopy(s.p) && Enabled(s, Count(t))
    ensures var q := Apply(s, Count(t));
            var o := s.pending[t];
            !q.wild && Right(q.p, o.a, o.no) <==> !Spoiled(s, Count(t))
  {
    hide Fits;
    var o := s.pending[t];
    if o.a in s.p.inodes {
      assert InodeOk(s.p, o.a);
      OnceTimes(s.p.opens, s.p.inodes[o.a].iNo, o.no);
      hide Once, Times;
    }
  }

  lemma FinishServesIff(s: Sys, t: Tid)
    requires InodesOk(s.p) && OneCopy(s.p) && Enabled(s, Finish(t))
    ensures var q := Apply(s, Finish(t));
            var o := s.pending[t];
            !q.wild && Right(q.p, o.at, o.no) <==> !Spoiled(s, Finish(t))
  {
    hide Fits;
    var o := s.pending[t];
    if o.at in s.p.inodes {
      assert InodeOk(s.p, o.at);
      OnceTimes(s.p.opens, o.no, o.no);
      hide Once, Times;
    }
  }

  ghost predicate NoneSpoiled(s: Sys, es: seq<Event>)
    decreases |es|
  {
    es != [] && Enabled(s, es[0]) ==> !Spoiled(s, es[0]) && NoneSpoiled(Apply(s, es[0]), es[1..])
  }

  ghost predicate AlwaysServes(s: Sys, es: seq<Event>)
    decreases |es|
  {
    es != [] && Enabled(s, es[0]) ==> Serves(s, es[0]) && AlwaysServes(Apply(s, es[0]), es[1..])
  }

  /** Over every interleaving, each inode_open returns an open inode of the number it was asked for, in its only
      copy and with its users counted, and none goes to freed memory, if and only if no step is spoiled; and
      then the cache and the threads inside inode_open are in order in every state. */
  lemma {:induction false} ServesIff(s: Sys, es: seq<Event>, q: Sys)
    requires SysInv(s) && Reaches(s, es, q)
    ensures AlwaysServes(s, es) <==> NoneSpoiled(s, es)
    ensures NoneSpoiled(s, es) ==> SysInv(q)
    decreases |es|
  {
    if es != [] {
      hide SysInv, Apply, Enabled, Spoiled, Serves;
      StepServesIff(s, es[0]);
      if !Spoiled(s, es[0]) {
        StepKeeps(s, es[0]);
        ServesIff(Apply(s, es[0]), es[1..], q);
      }
    }
  }

  /** A partition just mounted: nothing open, nobody inside the functions. */
  predicate Mounted(s: Sys) {
    && s.p.inodes == map[] && s.p.open == [] && s.p.unset == map[] && s.p.opens == map[] && s.p.closes == map[]
    && s.p.synced == map[] && s.pending == map[] && !s.wild
  }

  lemma MountedInv(s: Sys)
    requires Mounted(s)
    ensures SysInv(s)
  {
    assert forall x :: !Cached(s.p, x);
  }

  /** The cache in every state up to which every inode_open got what it asked for: an inode is on the list
      exactly while it is in memory, in one copy, and counts opens less closes, on top of the count it was read
      with until inode_open has set it; a number that is open is in memory; and when nobody is inside
      inode_open, no other number is. */
  lemma CacheSafety(s: Sys, es: seq<Event>, q: Sys, no: nat, a: Addr, b: Addr)
    requires Mounted(s) && Reaches(s, es, q) && AlwaysServes(s, es)
    ensures a in q.p.open <==> a in q.p.inodes
    ensures a in q.p.inodes && q.p.inodes[a].iNo == no ==>
              q.p.inodes[a].openCnt + Times(q.p.closes, no)
              == Times(q.p.opens, no) + (if a in q.p.unset then q.p.unset[a] else 0)
    ensures a in q.p.inodes && b in q.p.inodes && q.p.inodes[a].iNo == q.p.inodes[b].iNo ==> a == b
    ensures Times(q.p.opens, no) > Times(q.p.closes, no) ==> Cached(q.p, no)
    ensures (forall t :: t in q.pending ==> !q.pending[t].Linked?) ==>
              q.p.unset == map[] && (Cached(q.p, no) <==> Times(q.p.opens, no) > Times(q.p.closes, no))
  {
    MountedInv(s);
    ServesIff(s, es, q);
    hide Reaches, NoneSpoiled, AlwaysServes, MemoryOk, PendingsOk, Times, Storable;
    if a in q.p.inodes { assert InodeOk(q.p, a); }
    if forall t :: t in q.pending ==> !q.pending[t].Linked? {
      forall c ensures !HasOwner(q, c) {}
      assert forall c :: c in q.p.unset ==> HasOwner(q, c);
      if Cached(q.p, no) {
        var c :| c in q.p.inodes && q.p.inodes[c].iNo == no;
        assert InodeOk(q.p, c);
      }
    }
  }
}
