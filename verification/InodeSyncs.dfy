/** What inode_sync does to the disk in every run: it reads whole sectors and writes them back later, so it may
    take back what was written beside its record in between. */
module InodeSyncs {
  import opened Disks
  import opened Inodes
  import opened InodeCache
  import opened InodeRuns

  /** A write of sectors in which the disk has changed beside the record since they were read. */
  ghost predicate Stale(s: Sys, e: Event)
    requires Enabled(s, e)
  {
    e.SyncWrite? && !BesideOk(s.p, s.pending[e.t].rec, s.pending[e.t].buf)
  }

  /** A sync changes no byte of the disk but its record's, and no other step changes any. */
  ghost predicate OnlyRecord(s: Sys, e: Event)
    requires Enabled(s, e)
  {
    var q := Apply(s, e).p;
    if e.SyncWrite? then
      var r := s.pending[e.t].rec;
      q.image == Store(s.p, r).image
    else
      q.image == s.p.image
  }

  lemma SameDisk(s: Sys, e: Event)
    requires Enabled(s, e) && !e.SyncWrite?
    ensures var q := Apply(s, e).p; q.image == s.p.image && q.table == s.p.table && q.synced == s.p.synced
  {
    hide Fits, Stored, Sectors, InFront, Without, WriteBack;
  }

  lemma StepOnlyIff(s: Sys, e: Event)
    requires Enabled(s, e)
    ensures OnlyRecord(s, e) <==> !Stale(s, e)
  {
    hide Overwrite, BesideOk, Encode, GetPosition, SlotAt, BufferOk, Storable;
    if e.SyncWrite? {
      var o := s.pending[e.t];
      WriteBackIff(s.p, o.rec, o.buf);
      SameButImage(s.p, o.rec, o.buf);
    } else {
      SameDisk(s, e);
    }
  }

  lemma SameButImage(p: Partition, r: Record, buf: seq<Byte>)
    requires Fits(p) && BufferOk(p.table, r, buf)
    ensures WriteBack(p, r, buf) == Store(p, r).(image := WriteBack(p, r, buf).image)
  {
  }

  /** The copies on their way to the disk carry no state. */
  ghost predicate CopiesOk(s: Sys) {
    forall t :: t in s.pending && (s.pending[t].Copied? || s.pending[t].Loaded?) ==> Stateless(s.pending[t].rec)
  }

  /** The copy a sync takes has the number, the size and the sectors the inode has at that moment, and no state. */
  lemma CopyAsInMemory(s: Sys, t: Tid, a: Addr)
    requires Enabled(s, SyncCopy(t, a))
    ensures var q := Apply(s, SyncCopy(t, a));
            var m := s.p.inodes[a];
            && q.p == s.p && q.pending == s.pending[t := q.pending[t]] && q.pending[t].Copied?
            && var r := q.pending[t].rec;
               r.iNo == m.iNo && r.iSize == m.iSize && r.iSectors == m.iSectors && r.openCnt == 0 && r.writing == 0
  {
    hide Fits, Storable;
  }

  lemma CopiesStep(s: Sys, e: Event)
    requires CopiesOk(s) && Enabled(s, e)
    ensures CopiesOk(Apply(s, e))
  {
    hide Stored, Fits, WriteBack, Sectors, InFront, Without, Storable, BufferOk, Link, SetUser, CountUser;
    if e.SyncCopy? { CopyAsInMemory(s, e.t, e.a); }
  }

  /** The disk holds what was last synced, under its number, after every step that is not a stale write. */
  lemma SyncedStep(s: Sys, e: Event)
    requires Fits(s.p) && SyncedOk(s.p) && CopiesOk(s) && Enabled(s, e) && !Stale(s, e)
    ensures Fits(Apply(s, e).p) && SyncedOk(Apply(s, e).p)
  {
    hide Stored, Fits, SyncedOk, BesideOk, Store, WriteBack, Storable, InFront, Without, Sectors;
    if e.SyncWrite? {
      WriteBackIff(s.p, s.pending[e.t].rec, s.pending[e.t].buf);
      StoreTable(s.p, s.pending[e.t].rec);
    } else {
      SameDisk(s, e);
      TableFrame(s.p, Apply(s, e).p);
    }
  }

  ghost predicate NoneStale(s: Sys, es: seq<Event>)
    decreases |es|
  {
    es != [] && Enabled(s, es[0]) ==> !Stale(s, es[0]) && NoneStale(Apply(s, es[0]), es[1..])
  }

  ghost predicate AlwaysOnly(s: Sys, es: seq<Event>)
    decreases |es|
  {
    es != [] && Enabled(s, es[0]) ==> OnlyRecord(s, es[0]) && AlwaysOnly(Apply(s, es[0]), es[1..])
  }

  /** Over every interleaving, whatever inode_open does: each sync changes its own record alone if and only if
      none writes sectors in which the disk changed beside the record since it read them; and then the disk
      holds what was last synced, under its number and without its state. */
  lemma {:induction false} SyncsIff(s: Sys, es: seq<Event>, q: Sys)
    requires Reaches(s, es, q)
    ensures AlwaysOnly(s, es) <==> NoneStale(s, es)
    ensures CopiesOk(s) ==> CopiesOk(q)
    ensures Fits(s.p) && SyncedOk(s.p) && CopiesOk(s) && NoneStale(s, es) ==> Fits(q.p) && SyncedOk(q.p)
    decreases |es|
  {
    if es != [] {
      hide Apply, Enabled, SyncedOk, Fits, Stale, OnlyRecord, CopiesOk;
      if CopiesOk(s) { CopiesStep(s, es[0]); }
      StepOnlyIff(s, es[0]);
      if !Stale(s, es[0]) {
        EnabledFits(s, es[0]);
        if SyncedOk(s.p) && CopiesOk(s) { SyncedStep(s, es[0]); }
      }
      SyncsIff(Apply(s, es[0]), es[1..], q);
    }
  }

  lemma EnabledFits(s: Sys, e: Event)
    requires Enabled(s, e)
    ensures Fits(s.p)
  {
  }

  /** From a partition just mounted. */
  lemma SyncSafety(s: Sys, es: seq<Event>, q: Sys, no: nat)
    requires Fits(s.p) && Mounted(s) && Reaches(s, es, q) && AlwaysOnly(s, es) && no < MAX_FILES_PER_PART
    ensures Fits(q.p)
    ensures no in q.p.synced ==>
              var d := Stored(q.p, no);
              d.iNo == no && DataOf(d) == q.p.synced[no] && d.openCnt == 0 && d.writing == 0
  {
    hide Stored, Reaches, AlwaysOnly, NoneStale;
    SyncsIff(s, es, q);
  }

  /** A thread that reads a number once synced reads that number, with the data last synced. */
  lemma SyncedRead(s: Sys, t: Tid)
    requires Fits(s.p) && SyncedOk(s.p) && Enabled(s, Read(t)) && s.pending[t].no in s.p.synced
    ensures var o := Apply(s, Read(t)).pending[t];
            o.Got? && o.rec.iNo == o.no == s.pending[t].no && DataOf(o.rec) == s.p.synced[o.no]
  {
    hide Stored;
  }

  // ---- From the copy to the disk ----

  /** Until its write a sync keeps its copy, whatever else happens. */
  lemma {:induction false} CopyStays(s: Sys, es: seq<Event>, q: Sys, t: Tid)
    requires Reaches(s, es, q) && t in s.pending && (s.pending[t].Copied? || s.pending[t].Loaded?)
    requires SyncWrite(t) !in es
    ensures t in q.pending && (q.pending[t].Copied? || q.pending[t].Loaded?) && q.pending[t].rec == s.pending[t].rec
    decreases |es|
  {
    if es != [] {
      hide Fits, Reaches;
      ReachesStep(s, es, q);
      CopyStep(s, es[0], t);
      CopyStays(Apply(s, es[0]), es[1..], q, t);
    }
  }

  lemma ReachesStep(s: Sys, es: seq<Event>, q: Sys)
    requires Reaches(s, es, q) && es != []
    ensures Enabled(s, es[0]) && Reaches(Apply(s, es[0]), es[1..], q)
  {
    hide Enabled, Apply;
  }

  lemma CopyStep(s: Sys, e: Event, t: Tid)
    requires Enabled(s, e) && t in s.pending && (s.pending[t].Copied? || s.pending[t].Loaded?) && e != SyncWrite(t)
    ensures var q := Apply(s, e);
            t in q.pending && (q.pending[t].Copied? || q.pending[t].Loaded?) && q.pending[t].rec == s.pending[t].rec
  {
    hide Stored, Fits, WriteBack, Sectors, InFront, Without, Storable, BufferOk, Link, SetUser, CountUser;
  }

  /** What a sync leaves under its number, stale or not and whatever happened in between: the number, the size and
      the sectors the inode had in memory when it was copied, and no state. */
  lemma SyncStores(s: Sys, t: Tid, a: Addr, es: seq<Event>, q: Sys)
    requires Enabled(s, SyncCopy(t, a)) && Reaches(Apply(s, SyncCopy(t, a)), es, q) && SyncWrite(t) !in es
    requires Enabled(q, SyncWrite(t))
    ensures var m := s.p.inodes[a];
            var z := Apply(q, SyncWrite(t)).p;
            && Fits(z) && m.iNo < MAX_FILES_PER_PART && m.iNo in z.synced && z.synced[m.iNo] == DataOf(m)
            && var d := Stored(z, m.iNo);
               d.iNo == m.iNo && d.iSize == m.iSize && d.iSectors == m.iSectors && d.openCnt == 0 && d.writing == 0
  {
    hide Stored, Fits, Reaches, BufferOk, Storable, WriteBack;
    CopyAsInMemory(s, t, a);
    CopyStays(Apply(s, SyncCopy(t, a)), es, q, t);
    WriteStores(q, t);
  }

  lemma WriteStores(q: Sys, t: Tid)
    requires Enabled(q, SyncWrite(t))
    ensures var r := q.pending[t].rec;
            var z := Apply(q, SyncWrite(t)).p;
            && Fits(z) && r.iNo < MAX_FILES_PER_PART && z.synced == q.p.synced[r.iNo := DataOf(r)]
            && Stored(z, r.iNo) == r
  {
    hide Stored, Storable;
    OwnStored(q.p, q.pending[t].rec, q.pending[t].buf);
  }

  // ---- Fresh and stale reads ----

  /** Record `no` as it will be read when the buffer, which is for another record, has been written back: what
      lies in those sectors comes from the buffer. */
  function Beneath(p: Partition, r: Record, buf: seq<Byte>, no: nat): seq<Byte>
    requires Fits(p) && BufferOk(p.table, r, buf) && no < MAX_FILES_PER_PART
    ensures |Beneath(p, r, buf, no)| == INODE_SIZE
  {
    ExtentSlot(p.image, p.table, no);
    var from := SECTOR * GetPosition(p.table, r.iNo).lba;
    var at := SlotAt(p.table, no);
    seq(INODE_SIZE, i requires 0 <= i < INODE_SIZE =>
          if from <= at + i < from + |buf| then buf[at + i - from] else p.image[at + i])
  }

  lemma SlotOutside(table: nat, no: nat, other: nat, i: nat)
    requires no != other && i < INODE_SIZE
    ensures SlotAt(table, no) + i < SlotAt(table, other) || SlotAt(table, other) + INODE_SIZE <= SlotAt(table, no) + i
  {
    SlotsDisjoint(table, no, other);
  }

  lemma BeneathByte(p: Partition, r: Record, buf: seq<Byte>, no: nat, i: nat)
    requires Fits(p) && BufferOk(p.table, r, buf) && no < MAX_FILES_PER_PART && no != r.iNo && i < INODE_SIZE
    ensures SlotAt(p.table, no) + INODE_SIZE <= |p.image|
    ensures WriteBack(p, r, buf).image[SlotAt(p.table, no) + i] == Beneath(p, r, buf, no)[i]
  {
    hide GetPosition, Span, Encode, Overwrite, SlotAt, Storable;
    var pos := GetPosition(p.table, r.iNo);
    ExtentSlot(p.image, p.table, r.iNo);
    ExtentSlot(p.image, p.table, no);
    PositionIsSlot(p.table, r.iNo);
    SlotOutside(p.table, no, r.iNo, i);
    StaleByte(p.image, SECTOR * pos.lba, buf, pos.offset, Encode(r), SlotAt(p.table, no) + i);
  }

  lemma BeneathIs(p: Partition, r: Record, buf: seq<Byte>, no: nat)
    requires Fits(p) && BufferOk(p.table, r, buf) && no < MAX_FILES_PER_PART && no != r.iNo
    ensures Fits(WriteBack(p, r, buf)) && Stored(WriteBack(p, r, buf), no) == Decode(Beneath(p, r, buf, no))
  {
    hide Decode, Beneath, BufferOk, SlotAt, Encode, Overwrite;
    var q := WriteBack(p, r, buf);
    ExtentSlot(p.image, p.table, no);
    forall i: nat | i < INODE_SIZE ensures q.image[SlotAt(p.table, no) + i] == Beneath(p, r, buf, no)[i] {
      BeneathByte(p, r, buf, no, i);
    }
    assert Slot(q.image, p.table, no) == Beneath(p, r, buf, no);
  }

  /** The record a thread has read stays what the disk holds under every step but the write of a sync.  After a
      sync of that number it is so exactly when the sync wrote what was read; after a sync of another number,
      exactly when what that one puts back in its sectors makes the same record. */
  lemma ReadStaysFreshIff(s: Sys, e: Event, t: Tid)
    requires Enabled(s, e) && t in s.pending && s.pending[t].Got? && e != Aim(t)
    requires s.pending[t].no < MAX_FILES_PER_PART && s.pending[t].rec == Stored(s.p, s.pending[t].no)
    ensures var q := Apply(s, e);
            var o := s.pending[t];
            && Fits(q.p) && t in q.pending && q.pending[t] == o
            && (o.rec == Stored(q.p, o.no) <==>
                  (e.SyncWrite? ==>
                     var w := s.pending[e.t];
                     o.rec == if w.rec.iNo == o.no then w.rec else Decode(Beneath(s.p, w.rec, w.buf, o.no))))
  {
    var o := s.pending[t];
    hide Stored, Sectors, InFront, Without, Beneath, Decode, Storable;
    if e.SyncWrite? {
      var w := s.pending[e.t];
      if w.rec.iNo == o.no { OwnStored(s.p, w.rec, w.buf); } else { BeneathIs(s.p, w.rec, w.buf, o.no); }
    } else {
      SameDisk(s, e);
      SameStored(s.p, Apply(s, e).p, o.no);
    }
  }

  lemma SameStored(p: Partition, q: Partition, no: nat)
    requires Fits(p) && q.image == p.image && q.table == p.table && no < MAX_FILES_PER_PART
    ensures Fits(q) && Stored(q, no) == Stored(p, no)
  {
  }

  /** A sync's own record is on the disk after it, stale or not. */
  lemma OwnStored(p: Partition, r: Record, buf: seq<Byte>)
    requires Fits(p) && BufferOk(p.table, r, buf)
    ensures Fits(WriteBack(p, r, buf)) && Stored(WriteBack(p, r, buf), r.iNo) == r
  {
    hide GetPosition, Span, Encode, Overwrite, SlotAt, Decode, Storable;
    var q := WriteBack(p, r, buf);
    var pos := GetPosition(p.table, r.iNo);
    var at := SlotAt(p.table, r.iNo);
    ExtentSlot(p.image, p.table, r.iNo);
    PositionIsSlot(p.table, r.iNo);
    RoundTrip(r);
    forall i: nat | i < INODE_SIZE ensures q.image[at + i] == Encode(r)[i] {
      StaleByte(p.image, SECTOR * pos.lba, buf, pos.offset, Encode(r), at + i);
    }
    assert Slot(q.image, p.table, r.iNo) == Encode(r);
  }
}
