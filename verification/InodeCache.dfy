/** The inode table refines a map from numbers to records, and the cache of open inodes counts its users: what
    each step of inode_open, inode_close and inode_sync does to them. */
module InodeCache {
  import opened Wrappers
  import opened Disks
  import opened Inodes

  // ---- inode_sync ----

  /** A sync changes no byte outside the record's 76. */
  lemma SyncOnly(s: Partition, a: Addr, i: nat)
    requires Fits(s) && a in s.inodes && Storable(s.inodes[a]) && s.inodes[a].iNo < MAX_FILES_PER_PART
    requires i < |s.image| && !(SlotAt(s.table, s.inodes[a].iNo) <= i < SlotAt(s.table, s.inodes[a].iNo) + INODE_SIZE)
    ensures |InodeSync(s, a).image| == |s.image| && InodeSync(s, a).image[i] == s.image[i]
  {
    ExtentSlot(s.image, s.table, s.inodes[a].iNo);
    hide Encode;
  }

  lemma SyncSlot(image: seq<Byte>, table: nat, no: nat, data: seq<Byte>)
    requires SlotAt(table, no) + INODE_SIZE <= |image| && |data| == INODE_SIZE
    ensures Slot(Overwrite(image, SlotAt(table, no), data), table, no) == data
  {
  }

  lemma OtherSlot(image: seq<Byte>, table: nat, no: nat, data: seq<Byte>, other: nat)
    requires SlotAt(table, no) + INODE_SIZE <= |image| && SlotAt(table, other) + INODE_SIZE <= |image|
    requires |data| == INODE_SIZE && no != other
    ensures Slot(Overwrite(image, SlotAt(table, no), data), table, other) == Slot(image, table, other)
  {
    SlotsDisjoint(table, no, other);
    hide SlotAt;
  }

  /** The table after a record was written: that record, and every other one as before. */
  lemma StoreStored(s: Partition, r: Record, no: nat)
    requires Fits(s) && Storable(r) && r.iNo < MAX_FILES_PER_PART && no < MAX_FILES_PER_PART
    ensures Fits(Store(s, r)) && Stored(Store(s, r), no) == if no == r.iNo then r else Stored(s, no)
  {
    ExtentSlot(s.image, s.table, r.iNo);
    ExtentSlot(s.image, s.table, no);
    RoundTrip(r);
    hide Encode, Decode, Slot, Overwrite, SlotAt;
    if no == r.iNo {
      SyncSlot(s.image, s.table, no, Encode(r));
    } else {
      OtherSlot(s.image, s.table, r.iNo, Encode(r), no);
    }
  }

  /** The table after a sync: under the inode's number the record has the number, the size and the sectors it has in
      memory, no users and nobody writing; and every other record is as before. */
  lemma SyncStored(s: Partition, a: Addr, no: nat)
    requires Fits(s) && a in s.inodes && Storable(s.inodes[a]) && s.inodes[a].iNo < MAX_FILES_PER_PART
    requires no < MAX_FILES_PER_PART
    ensures Fits(InodeSync(s, a))
    ensures var r := s.inodes[a];
            var d := Stored(InodeSync(s, a), no);
            if no == r.iNo
            then d.iNo == r.iNo && d.iSize == r.iSize && d.iSectors == r.iSectors && d.openCnt == 0 && d.writing == 0
            else d == Stored(s, no)
  {
    hide Stored, Store;
    StoreStored(s, Cleared(s.inodes[a]), no);
  }

  /** On the disk itself: the two link words, the count and the flag are zero. */
  lemma SyncZeroes(s: Partition, a: Addr, k: nat)
    requires Fits(s) && a in s.inodes && Storable(s.inodes[a]) && s.inodes[a].iNo < MAX_FILES_PER_PART
    requires k < 8 || 16 <= k <= 20
    ensures var at := 512 * s.table + 76 * s.inodes[a].iNo;
            at + 76 <= |InodeSync(s, a).image| && InodeSync(s, a).image[at + k] == 0
  {
    var r := Cleared(s.inodes[a]);
    ExtentSlot(s.image, s.table, r.iNo);
    StatelessBytes(r, k);
    hide Encode, Overwrite;
    SyncSlot(s.image, s.table, r.iNo, Encode(r));
    assert Slot(InodeSync(s, a).image, s.table, r.iNo)[k] == Encode(r)[k];
  }

  lemma StatelessBytes(r: Record, k: nat)
    requires Storable(r) && Stateless(r) && (k < 8 || 16 <= k <= 20)
    ensures Encode(r)[k] == 0
  {
    RecordLayout(r);
    hide Encode;
  }

  /** The disk holds what was just written, and what was synced before. */
  lemma StoreTable(s: Partition, r: Record)
    requires Fits(s) && SyncedOk(s) && Storable(r) && r.iNo < MAX_FILES_PER_PART && Stateless(r)
    ensures Fits(Store(s, r)) && SyncedOk(Store(s, r))
  {
    hide Stored, Overwrite, Encode, Storable, Fits;
    var q := Store(s, r);
    StoreStored(s, r, r.iNo);
    forall no: nat | no < MAX_FILES_PER_PART ensures Stored(q, no) == if no == r.iNo then r else Stored(s, no) {
      StoreStored(s, r, no);
    }
  }

  /** The cache invariant looks only at memory and its history. */
  lemma CacheFrame(s: Partition, q: Partition)
    requires CacheInv(s) && q.inodes == s.inodes && q.open == s.open && q.unset == s.unset
    requires q.opens == s.opens && q.closes == s.closes
    ensures CacheInv(q)
  {
    forall a | a in q.inodes ensures InodeOk(q, a) { assert InodeOk(s, a); }
    forall no: nat | !Cached(q, no) ensures Times(q.opens, no) == Times(q.closes, no) {
      assert Cached(q, no) == Cached(s, no);
    }
  }

  /** The table invariant looks only at the disk and what was synced. */
  lemma TableFrame(s: Partition, q: Partition)
    requires Fits(s) && SyncedOk(s) && q.image == s.image && q.table == s.table && q.synced == s.synced
    ensures Fits(q) && SyncedOk(q)
  {
    forall no: nat | no < MAX_FILES_PER_PART ensures Stored(q, no) == Stored(s, no) {}
    hide Stored;
  }

  // ---- inode_open ----

  /** Nothing changes for the other inodes. */
  predicate SameUnset(s: Partition, q: Partition, b: Addr) {
    (b in q.unset <==> b in s.unset) && (b in s.unset ==> q.unset[b] == s.unset[b])
  }

  /** The books of the other numbers are the same. */
  ghost predicate SameBooks(s: Partition, q: Partition, no: nat) {
    forall other: nat :: other != no ==>
      Times(q.opens, other) == Times(s.opens, other) && Times(q.closes, other) == Times(s.closes, other)
  }

  /** An inode's own record is rewritten without its number. */
  lemma Rewritten(s: Partition, q: Partition, a: Addr)
    requires CacheInv(s) && a in s.inodes
    requires a in q.inodes && q.inodes == s.inodes[a := q.inodes[a]] && q.inodes[a].iNo == s.inodes[a].iNo
    requires q.open == s.open && InodeOk(q, a) && (forall b :: b != a ==> SameUnset(s, q, b))
    requires SameBooks(s, q, s.inodes[a].iNo)
    ensures CacheInv(q)
  {
    forall b | b in q.inodes ensures InodeOk(q, b) { if b != a { OthersCount(s, q, a, b); } }
    hide InodeOk, SameBooks, ClosedOk, NoDup;
    RewrittenClosed(s, q, a);
    forall b | b in q.unset ensures b in q.inodes { if b != a { assert SameUnset(s, q, b); } }
    hide InodesOk, SameUnset;
  }

  lemma RewrittenClosed(s: Partition, q: Partition, a: Addr)
    requires ClosedOk(s) && a in s.inodes && SameBooks(s, q, s.inodes[a].iNo)
    requires a in q.inodes && q.inodes == s.inodes[a := q.inodes[a]] && q.inodes[a].iNo == s.inodes[a].iNo
    ensures ClosedOk(q)
  {
    StillCached(s, q);
    hide Times;
    assert forall no: nat :: !Cached(q, no) ==> !Cached(s, no) && no != s.inodes[a].iNo;
  }

  /** The other inodes have other numbers, whose history is the same. */
  lemma OthersCount(s: Partition, q: Partition, a: Addr, b: Addr)
    requires InodesOk(s) && OneCopy(s) && a in s.inodes && b in s.inodes && b != a && b in q.inodes
    requires q.inodes[b] == s.inodes[b] && SameUnset(s, q, b) && SameBooks(s, q, s.inodes[a].iNo)
    ensures InodeOk(q, b)
  {
    assert InodeOk(s, b) && s.inodes[b].iNo != s.inodes[a].iNo;
    hide Times;
  }

  /** What is in memory stays there under its number. */
  lemma StillCached(s: Partition, q: Partition)
    requires forall b :: b in s.inodes ==> b in q.inodes && q.inodes[b].iNo == s.inodes[b].iNo
    ensures forall no: nat :: Cached(s, no) ==> Cached(q, no)
    ensures forall b :: b in q.inodes ==> Cached(q, q.inodes[b].iNo)
  {
    forall no: nat | Cached(s, no) ensures Cached(q, no) {
      var b :| b in s.inodes && s.inodes[b].iNo == no;
      assert b in q.inodes && q.inodes[b].iNo == no;
    }
  }

  lemma OnceTimes(m: map<nat, nat>, no: nat, other: nat)
    ensures Times(Once(m, no), other) == Times(m, other) + if other == no then 1 else 0
  {
  }

  /** A hit on an inode that is still there counts its user, if and only if the count does not wrap to 0. */
  lemma HitIff(s: Partition, a: Addr)
    requires CacheInv(s) && a in s.inodes
    ensures CacheInv(CountUser(s, a)) <==> s.inodes[a].openCnt + 1 < WORD
  {
    assert InodeOk(s, a);
    if s.inodes[a].openCnt + 1 < WORD {
      HitKeeps(s, a);
    } else {
      OnceTimes(s.opens, s.inodes[a].iNo, s.inodes[a].iNo);
      assert !InodeOk(CountUser(s, a), a);
    }
  }

  lemma HitKeeps(s: Partition, a: Addr)
    requires CacheInv(s) && a in s.inodes && s.inodes[a].openCnt + 1 < WORD
    ensures CacheInv(CountUser(s, a))
  {
    var q := CountUser(s, a);
    var no := s.inodes[a].iNo;
    assert InodeOk(s, a);
    forall other: nat ensures Times(q.opens, other) == Times(s.opens, other) + if other == no then 1 else 0 {
      OnceTimes(s.opens, no, other);
    }
    hide Once, Times;
    Rewritten(s, q, a);
  }

  lemma InFrontHas(open: seq<Addr>, target: Option<Addr>, at: Addr)
    requires NoDup(open) && at !in open
    ensures NoDup(InFront(open, target, at)) && forall b :: b in InFront(open, target, at) <==> b == at || b in open
  {
    if open != [] {
      var rest := open[1..];
      assert open == [open[0]] + rest && NoDup(rest) && open[0] !in rest;
      if Some(open[0]) != target {
        InFrontHas(rest, target, at);
        assert open[0] !in InFront(rest, target, at);
      }
    }
  }

  /** Linking a record keeps one copy for each number if and only if its number is not in memory. */
  lemma LinkIff(s: Partition, at: Addr, rec: Record, target: Option<Addr>)
    requires OneCopy(s) && at !in s.inodes
    ensures OneCopy(Link(s, at, rec, target)) <==> !Cached(s, rec.iNo)
  {
    var q := Link(s, at, rec, target);
    if Cached(s, rec.iNo) {
      var b :| b in s.inodes && s.inodes[b].iNo == rec.iNo;
      assert b in q.inodes && at in q.inodes && b != at && q.inodes[b].iNo == q.inodes[at].iNo;
    }
  }

  lemma LinkKeeps(s: Partition, at: Addr, rec: Record, target: Option<Addr>)
    requires CacheInv(s) && at !in s.inodes && !Cached(s, rec.iNo) && Storable(rec)
    ensures CacheInv(Link(s, at, rec, target))
  {
    var q := Link(s, at, rec, target);
    InFrontHas(s.open, target, at);
    hide Times, InFront, Storable;
    forall b | b in q.inodes ensures InodeOk(q, b) { if b != at { assert InodeOk(s, b); } }
    assert ListOk(q) && OneCopy(q) by { hide InodeOk; }
    StillCached(s, q);
    hide InodesOk, ListOk, OneCopy, InodeOk, Cached;
  }

  /** Setting the count of an inode just linked keeps the cache, if nobody was counted in it before. */
  lemma SetKeeps(s: Partition, no: nat, at: Addr)
    requires CacheInv(s) && at in s.inodes && at in s.unset && s.inodes[at].iNo == no
    requires s.inodes[at].openCnt == s.unset[at]
    ensures CacheInv(SetUser(s, no, at))
  {
    var q := SetUser(s, no, at);
    assert InodeOk(s, at);
    forall other: nat ensures Times(q.opens, other) == Times(s.opens, other) + if other == no then 1 else 0 {
      OnceTimes(s.opens, no, other);
    }
    hide Once, Times;
    Rewritten(s, q, at);
  }

  /** Opening an inode that is not in memory gives what the disk has, in front of the list, with one user; and if
      its number was ever synced, that is the number, the size and the sectors last synced, with nobody writing. */
  lemma OpenReadsSynced(s: Partition, no: nat, at: Addr)
    requires Fits(s) && SyncedOk(s) && no < MAX_FILES_PER_PART && !Cached(s, no)
    ensures var (q, a) := InodeOpen(s, no, at);
            && a == at && q.inodes == s.inodes[at := Stored(s, no).(openCnt := 1)] && q.open == [at] + s.open
            && (no in s.synced ==>
                  q.inodes[a].iNo == no && DataOf(q.inodes[a]) == s.synced[no] && q.inodes[a].writing == 0)
  {
    hide Stored;
  }

  // ---- inode_close ----

  lemma WithoutOne(q: seq<Addr>, a: Addr)
    requires NoDup(q)
    ensures NoDup(Without(q, a)) && forall b :: b in Without(q, a) <==> b in q && b != a
  {
    if q != [] {
      var rest := q[1..];
      assert q == [q[0]] + rest && NoDup(rest) && q[0] !in rest;
      if q[0] != a {
        WithoutOne(rest, a);
        assert Without(q, a) == [q[0]] + Without(rest, a);
      }
    }
  }

  /** inode_close by one of its users. */
  lemma CloseKeeps(s: Partition, a: Addr)
    requires CacheInv(s) && a in s.inodes && Times(s.closes, s.inodes[a].iNo) < Times(s.opens, s.inodes[a].iNo)
    ensures CacheInv(InodeClose(s, a))
    ensures a in InodeClose(s, a).inodes <==> s.inodes[a].openCnt > 1
  {
    var q := InodeClose(s, a);
    var no := s.inodes[a].iNo;
    hide Without;
    assert InodeOk(s, a);
    forall other: nat ensures Times(q.closes, other) == Times(s.closes, other) + if other == no then 1 else 0 {
      OnceTimes(s.closes, no, other);
    }
    hide Once, Times;
    if s.inodes[a].openCnt > 1 {
      Rewritten(s, q, a);
    } else {
      Removed(s, q, a);
    }
  }

  /** In any state: one user less, and with it the inode and its place on the list; closing one that nobody is
      counted in wraps the count to its largest value. */
  lemma CloseCounts(s: Partition, a: Addr)
    requires a in s.inodes && s.inodes[a].openCnt < 0x1_0000_0000
    ensures var q := InodeClose(s, a);
            var n := s.inodes[a].openCnt;
            && (n == 1 ==> q.inodes == s.inodes - {a} && q.open == Without(s.open, a))
            && (n != 1 ==> q.open == s.open)
            && (n > 1 ==> q.inodes == s.inodes[a := s.inodes[a].(openCnt := n - 1)])
            && (n == 0 ==> q.inodes == s.inodes[a := s.inodes[a].(openCnt := 0xffff_ffff)])
  {
    hide Without, Once, Times;
    OneLess(s.inodes[a].openCnt);
  }

  lemma OneLess(n: nat)
    requires n < WORD
    ensures (n + WORD - 1) % WORD == if n == 0 then WORD - 1 else n - 1
  {
  }

  lemma Removed(s: Partition, q: Partition, a: Addr)
    requires CacheInv(s) && a in s.inodes && s.inodes[a].openCnt == 1
    requires q.inodes == s.inodes - {a} && q.open == Without(s.open, a) && q.unset == s.unset - {a}
    requires SameBooks(s, q, s.inodes[a].iNo)
    requires Times(q.opens, s.inodes[a].iNo) == Times(q.closes, s.inodes[a].iNo)
    ensures CacheInv(q)
  {
    hide NoDup, Without, Times;
    forall b | b in q.inodes ensures InodeOk(q, b) { OthersCount(s, q, a, b); }
    hide InodeOk, InodesOk, SameBooks, ClosedOk;
    WithoutOne(s.open, a);
    RemovedClosed(s, q, a);
  }

  lemma RemovedClosed(s: Partition, q: Partition, a: Addr)
    requires ClosedOk(s) && a in s.inodes && q.inodes == s.inodes - {a} && SameBooks(s, q, s.inodes[a].iNo)
    requires Times(q.opens, s.inodes[a].iNo) == Times(q.closes, s.inodes[a].iNo)
    ensures ClosedOk(q)
  {
    hide Times;
    forall other: nat | Cached(s, other) && other != s.inodes[a].iNo ensures Cached(q, other) {
      var b :| b in s.inodes && s.inodes[b].iNo == other;
      assert b in q.inodes && q.inodes[b].iNo == other;
    }
  }

  lemma EditKeeps(s: Partition, a: Addr, d: Data, writing: Byte)
    requires CacheInv(s) && a in s.inodes && d.iSize < WORD && |d.iSectors| == INODE_SECTOR_CNT
    requires forall x :: x in d.iSectors ==> x < WORD
    ensures CacheInv(Edit(s, a, d, writing))
  {
    var q := Edit(s, a, d, writing);
    assert InodeOk(s, a);
    assert Storable(q.inodes[a]) by { assert forall i :: 0 <= i < |d.iSectors| ==> d.iSectors[i] in d.iSectors; }
    hide Storable;
    Rewritten(s, q, a);
  }

  // ---- The limits of the guarantees ----

  /** A second inode_open of a number not in memory finds the first copy exactly when the record on the
      disk carries its own number. */
  lemma SecondOpenIff(s: Partition, no: nat, a: Addr, b: Addr)
    requires Fits(s) && ListOk(s) && no < MAX_FILES_PER_PART && !Cached(s, no) && a !in s.inodes
        && b !in s.inodes && a != b
    ensures var q := InodeOpen(s, no, a).0;
            Fits(q) && (InodeOpen(q, no, b).1 == a <==> Stored(s, no).iNo == no)
  {
    var q := InodeOpen(s, no, a).0;
    assert Find(s.open, s.inodes, no).None?;
    assert q.open == [a] + s.open && q.open[1..] == s.open;
    hide Stored, Fits;
    SameFind(s.open, s.inodes, q.inodes, no);
  }

  lemma SameFind(open: seq<Addr>, m: map<Addr, Record>, n: map<Addr, Record>, no: nat)
    requires forall a :: a in open ==> a in m && a in n && n[a] == m[a]
    ensures Find(open, n, no) == Find(open, m, no)
  {
  }

  /** The disk after inode_sync with ide_write as it is: 256 sectors go out, the one or two of the record
      and then the memory behind the buffer. */
  function SyncAsWritten(s: Partition, a: Addr, behind: seq<Byte>): seq<Byte>
    requires Fits(s) && a in s.inodes && Storable(s.inodes[a]) && s.inodes[a].iNo < MAX_FILES_PER_PART
    requires var p := GetPosition(s.table, s.inodes[a].iNo);
             SECTOR * (p.lba + 256) <= |s.image| && |behind| == SECTOR * (256 - Span(p))
  {
    var r := s.inodes[a];
    var p := GetPosition(s.table, r.iNo);
    ExtentSlot(s.image, s.table, r.iNo);
    Overwrite(s.image, SECTOR * p.lba,
              Overwrite(Extent(s.image, p.lba, Span(p)), p.offset, Encode(Cleared(r))) + behind)
  }

  /** It sends 256 sectors, and the disk comes out right exactly when the memory behind the buffer happens to
      be what the following sectors hold. */
  lemma SyncAsWrittenIff(s: Partition, a: Addr, behind: seq<Byte>)
    requires Fits(s) && a in s.inodes && Storable(s.inodes[a]) && s.inodes[a].iNo < MAX_FILES_PER_PART
    requires var p := GetPosition(s.table, s.inodes[a].iNo);
             SECTOR * (p.lba + 256) <= |s.image| && |behind| == SECTOR * (256 - Span(p))
    ensures var p := GetPosition(s.table, s.inodes[a].iNo);
            && Sent(Span(p)) == 256
            && (SyncAsWritten(s, a, behind) == InodeSync(s, a).image
                <==> behind == Extent(s.image, p.lba + Span(p), 256 - Span(p)))
  {
    hide Encode, GetPosition, SlotAt, Overwrite, Extent;
    var r := s.inodes[a];
    var p := GetPosition(s.table, r.iNo);
    ExtentSlot(s.image, s.table, r.iNo);
    PositionIsSlot(s.table, r.iNo);
    EditAndMore(s.image, p.lba, Span(p), p.offset, Encode(Cleared(r)), behind);
  }

  /** The buffer a sync writes back has the size of the record's sectors. */
  predicate BufferOk(table: nat, r: Record, buf: seq<Byte>) {
    Storable(r) && r.iNo < MAX_FILES_PER_PART && |buf| == SECTOR * Span(GetPosition(table, r.iNo))
  }

  /** What inode_sync leaves: the buffer it read, with its record in it, written back to the disk as it is now. */
  function WriteBack(s: Partition, r: Record, buf: seq<Byte>): Partition
    requires Fits(s) && BufferOk(s.table, r, buf)
  {
    var p := GetPosition(s.table, r.iNo);
    ExtentSlot(s.image, s.table, r.iNo);
    s.(image := Overwrite(s.image, SECTOR * p.lba, Overwrite(buf, p.offset, Encode(r))),
       synced := s.synced[r.iNo := DataOf(r)])
  }

  /** The buffer from byte `from` of the disk on has what is there now, but for the len bytes at `at`. */
  ghost predicate SameBeside(now: seq<Byte>, buf: seq<Byte>, from: nat, at: nat, len: nat)
    requires from + |buf| <= |now|
  {
    forall i :: from <= i < from + |buf| && (i < at || at + len <= i) ==> now[i] == buf[i - from]
  }

  /** Nothing beside the record in its sectors has changed since the buffer was read. */
  ghost predicate BesideOk(s: Partition, r: Record, buf: seq<Byte>)
    requires Fits(s) && BufferOk(s.table, r, buf)
  {
    ExtentSlot(s.image, s.table, r.iNo);
    SameBeside(s.image, buf, SECTOR * GetPosition(s.table, r.iNo).lba, SlotAt(s.table, r.iNo), INODE_SIZE)
  }

  /** Between the read and the write of a sync the disk may change: the write changes only its record if and
      only if nothing changed beside the record in its sectors. */
  lemma WriteBackIff(s: Partition, r: Record, buf: seq<Byte>)
    requires Fits(s) && BufferOk(s.table, r, buf)
    ensures WriteBack(s, r, buf) == Store(s, r) <==> BesideOk(s, r, buf)
  {
    hide Encode, GetPosition, SlotAt, Span, Overwrite, SameBeside, Extent, Slot, Storable;
    var p := GetPosition(s.table, r.iNo);
    ExtentSlot(s.image, s.table, r.iNo);
    PositionIsSlot(s.table, r.iNo);
    StaleEdit(s.image, SECTOR * p.lba, buf, p.offset, Encode(r));
    SameImage(s, WriteBack(s, r, buf).image, Store(s, r).image, Store(s, r).synced);
  }

  lemma SameImage(s: Partition, x: seq<Byte>, y: seq<Byte>, synced: map<nat, Data>)
    ensures s.(image := x, synced := synced) == s.(image := y, synced := synced) <==> x == y
  {
  }

  lemma StaleByte(now: seq<Byte>, from: nat, buf: seq<Byte>, offset: nat, data: seq<Byte>, i: nat)
    requires data != [] && offset + |data| <= |buf| && from + |buf| <= |now| && i < |now|
    ensures var q := Overwrite(now, from, Overwrite(buf, offset, data));
            q[i] == if from + offset <= i < from + offset + |data| then data[i - from - offset]
                    else if from <= i < from + |buf| then buf[i - from] else now[i]
    ensures Overwrite(now, from + offset, data)[i] ==
            if from + offset <= i < from + offset + |data| then data[i - from - offset] else now[i]
  {
    OverwriteAt(now, from, Overwrite(buf, offset, data), i);
    OverwriteAt(now, from + offset, data, i);
    if from <= i < from + |buf| { OverwriteAt(buf, offset, data, i - from); }
  }

  lemma StaleEdit(now: seq<Byte>, from: nat, buf: seq<Byte>, offset: nat, data: seq<Byte>)
    requires data != [] && offset + |data| <= |buf| && from + |buf| <= |now|
    ensures Overwrite(now, from, Overwrite(buf, offset, data)) == Overwrite(now, from + offset, data)
            <==> SameBeside(now, buf, from, from + offset, |data|)
  {
    hide Overwrite;
    var q := Overwrite(now, from, Overwrite(buf, offset, data));
    var w := Overwrite(now, from + offset, data);
    forall i: nat | i < |now| { StaleByte(now, from, buf, offset, data, i); }
    if q != w {
      var i :| 0 <= i < |now| && q[i] != w[i];
      assert now[i] != buf[i - from];
    }
  }

  /** With nobody in between, the steps of a sync are InodeSync. */
  lemma SyncSteps(s: Partition, a: Addr)
    requires Fits(s) && a in s.inodes && Storable(s.inodes[a]) && s.inodes[a].iNo < MAX_FILES_PER_PART
    ensures var r := Cleared(s.inodes[a]);
            var p := GetPosition(s.table, r.iNo);
            && SECTOR * (p.lba + Span(p)) <= |s.image| && BufferOk(s.table, r, Extent(s.image, p.lba, Span(p)))
            && WriteBack(s, r, Extent(s.image, p.lba, Span(p))) == InodeSync(s, a)
  {
    var r := Cleared(s.inodes[a]);
    var p := GetPosition(s.table, r.iNo);
    ExtentSlot(s.image, s.table, r.iNo);
    hide Store, WriteBack, Storable, GetPosition, SlotAt;
    WriteBackIff(s, r, Extent(s.image, p.lba, Span(p)));
  }

  lemma EditAndMore(image: seq<Byte>, lba: nat, n: nat, offset: nat, data: seq<Byte>, behind: seq<Byte>)
    requires data != [] && n < 256 && offset + |data| <= SECTOR * n
    requires SECTOR * (lba + 256) <= |image| && |behind| == SECTOR * (256 - n)
    ensures var now := Overwrite(image, SECTOR * lba + offset, data);
            Overwrite(image, SECTOR * lba, Overwrite(Extent(image, lba, n), offset, data) + behind) == now
            <==> behind == Extent(image, lba + n, 256 - n)
  {
    var block := Overwrite(Extent(image, lba, n), offset, data);
    SectorEdit(image, lba, n, offset, data);
    OverwriteAppend(image, SECTOR * lba, block, behind);
    SameIff(Overwrite(image, SECTOR * lba, block), image, SECTOR * (lba + n), SECTOR * lba, block, behind);
    assert Extent(image, lba + n, 256 - n) == image[SECTOR * (lba + n)..SECTOR * (lba + n) + |behind|];
    hide Overwrite, Extent;
  }

  /** Overwriting changes nothing exactly when the bytes are there already. */
  lemma SameIff(now: seq<Byte>, was: seq<Byte>, at: nat, from: nat, block: seq<Byte>, behind: seq<Byte>)
    requires behind != [] && at + |behind| <= |was| && from + |block| == at && now == Overwrite(was, from, block)
    ensures Overwrite(now, at, behind) == now <==> behind == was[at..at + |behind|]
  {
    assert now[at..] == was[at..];
    assert now[at..at + |behind|] == was[at..at + |behind|];
    assert Overwrite(now, at, behind)[at..at + |behind|] == behind;
    assert now == now[..at] + now[at..at + |behind|] + now[at + |behind|..];
  }
}
