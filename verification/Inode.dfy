/** The inode table of fs/inode.c: the 76-byte records, their place on the disk, and the cache of open
    inodes.  The links of the list of open inodes are the sequence `open`; a record on the disk has them
    cleared. */
module Inodes {
  import opened Wrappers
  import opened Disks

  const INODE_SIZE: nat := 76
  const INODE_SECTOR_CNT: nat := 13
  const MAX_FILES_PER_PART: nat := 4096
  /** The sectors 4096 records fill. */
  const TABLE_SECTORS: nat := 608

  /** An inode without its list links.  `pad` are the three bytes behind the flag. */
  datatype Record = Record(
    iNo: nat, iSize: nat, openCnt: nat, writing: Byte, pad: seq<Byte>, iSectors: seq<nat>)

  predicate Storable(r: Record) {
    && r.iNo < WORD && r.iSize < WORD && r.openCnt < WORD && |r.pad| == 3 && |r.iSectors| == INODE_SECTOR_CNT
    && forall i :: 0 <= i < INODE_SECTOR_CNT ==> r.iSectors[i] < WORD
  }

  // ---- The record's layout ----

  /** A little-endian word. */
  function Word(n: nat): (b: seq<Byte>)
    ensures |b| == 4
  {
    [n % 256, n / 0x100 % 256, n / 0x1_0000 % 256, n / 0x100_0000 % 256]
  }

  function Load(b: seq<Byte>, at: nat): (n: nat)
    requires at + 4 <= |b|
    ensures n < WORD
  {
    b[at] as nat + b[at + 1] as nat * 0x100 + b[at + 2] as nat * 0x1_0000 + b[at + 3] as nat * 0x100_0000
  }

  lemma LoadWord(n: nat)
    requires n < WORD
    ensures Load(Word(n), 0) == n
  {
    Digits(n);
  }

  function Words(s: seq<nat>): (b: seq<Byte>)
    ensures |b| == 4 * |s|
  {
    if s == [] then [] else Words(s[..|s| - 1]) + Word(s[|s| - 1])
  }

  function Encode(r: Record): (b: seq<Byte>)
    requires Storable(r)
    ensures |b| == INODE_SIZE
  {
    Word(0) + Word(0) + Word(r.iNo) + Word(r.iSize) + Word(r.openCnt) + [r.writing] + r.pad + Words(r.iSectors)
  }

  function Decode(b: seq<Byte>): (r: Record)
    requires |b| == INODE_SIZE
    ensures Storable(r)
  {
    Record(Load(b, 8), Load(b, 12), Load(b, 16), b[20], b[21..24],
           seq(INODE_SECTOR_CNT, i requires 0 <= i < INODE_SECTOR_CNT => Load(b, 24 + 4 * i)))
  }

  lemma {:induction false} WordsAt(s: seq<nat>, i: nat)
    requires i < |s|
    ensures Words(s)[4 * i..4 * i + 4] == Word(s[i])
    decreases |s|
  {
    if i < |s| - 1 { WordsAt(s[..|s| - 1], i); }
  }

  lemma LoadAt(b: seq<Byte>, at: nat, n: nat)
    requires at + 4 <= |b| && n < WORD && b[at..at + 4] == Word(n)
    ensures Load(b, at) == n
  {
    LoadWord(n);
    var w := b[at..at + 4];
    assert w[0] == b[at] && w[1] == b[at + 1] && w[2] == b[at + 2] && w[3] == b[at + 3];
    hide Word;
  }

  lemma EncodeFields(r: Record)
    requires Storable(r)
    ensures var b := Encode(r);
            && b[8..12] == Word(r.iNo) && b[12..16] == Word(r.iSize) && b[16..20] == Word(r.openCnt)
            && b[20] == r.writing && b[21..24] == r.pad && b[24..] == Words(r.iSectors)
  {
    hide Word, Words;
  }

  /** A record comes back from its bytes. */
  lemma RoundTrip(r: Record)
    requires Storable(r)
    ensures Decode(Encode(r)) == r
  {
    var b := Encode(r);
    EncodeFields(r);
    hide Encode;
    LoadAt(b, 8, r.iNo);
    LoadAt(b, 12, r.iSize);
    LoadAt(b, 16, r.openCnt);
    forall i: nat | i < INODE_SECTOR_CNT ensures Load(b, 24 + 4 * i) == r.iSectors[i] {
      WordsAt(r.iSectors, i);
      assert b[24..][4 * i..4 * i + 4] == b[24 + 4 * i..24 + 4 * i + 4];
      LoadAt(b, 24 + 4 * i, r.iSectors[i]);
    }
    hide Load;
    assert Decode(b).iSectors == r.iSectors;
  }

  /** Four bytes hold a number, the lowest first. */
  predicate Holds(b: seq<Byte>, at: nat, n: nat)
    requires at + 4 <= |b|
  {
    && b[at] as nat == n % 256 && b[at + 1] as nat == n / 256 % 256
    && b[at + 2] as nat == n / 65536 % 256 && b[at + 3] as nat == n / 16777216 % 256
  }

  /** Byte by byte: two cleared links, the number, the size, the count, the flag, and the sectors. */
  lemma RecordLayout(r: Record)
    requires Storable(r)
    ensures var b := Encode(r);
            && Holds(b, 0, 0) && Holds(b, 4, 0) && Holds(b, 8, r.iNo) && Holds(b, 12, r.iSize)
            && Holds(b, 16, r.openCnt) && b[20] == r.writing && b[21..24] == r.pad
            && forall i: nat :: i < 13 ==> Holds(b, 24 + 4 * i, r.iSectors[i])
  {
    var b := Encode(r);
    EncodeFields(r);
    assert b[..4] == Word(0) && b[4..8] == Word(0);
    hide Encode;
    HoldsWord(b, 0, 0);
    HoldsWord(b, 4, 0);
    HoldsWord(b, 8, r.iNo);
    HoldsWord(b, 12, r.iSize);
    HoldsWord(b, 16, r.openCnt);
    hide Holds;
    forall i: nat | i < INODE_SECTOR_CNT ensures Holds(b, 24 + 4 * i, r.iSectors[i]) {
      WordsAt(r.iSectors, i);
      assert b[24..][4 * i..4 * i + 4] == b[24 + 4 * i..24 + 4 * i + 4];
      HoldsWord(b, 24 + 4 * i, r.iSectors[i]);
    }
  }

  lemma HoldsWord(b: seq<Byte>, at: nat, n: nat)
    requires at + 4 <= |b| && b[at..at + 4] == Word(n)
    ensures Holds(b, at, n)
  {
    var w := b[at..at + 4];
    assert w[0] == b[at] && w[1] == b[at + 1] && w[2] == b[at + 2] && w[3] == b[at + 3];
  }

  // ---- Its place ----

  /** get_position: the first sector of record `no`, its offset there, and whether it runs into the next. */
  datatype Position = Position(lba: nat, offset: nat, cross: bool)

  function GetPosition(table: nat, no: nat): Position {
    var bytes := no * INODE_SIZE;
    Position(table + bytes / SECTOR, bytes % SECTOR, bytes % SECTOR + INODE_SIZE > SECTOR)
  }

  function Span(p: Position): nat { if p.cross then 2 else 1 }

  function SlotAt(table: nat, no: nat): nat { SECTOR * table + INODE_SIZE * no }

  /** The position names the record's bytes, and its one or two sectors hold all of them and belong to the
      table. */
  lemma PositionIsSlot(table: nat, no: nat)
    requires no < 4096
    ensures var p := GetPosition(table, no);
            && 512 * p.lba + p.offset == 512 * table + 76 * no == SlotAt(table, no)
            && p.offset < 512 && p.offset + 76 <= 512 * Span(p) && (Span(p) == 2 <==> p.offset + 76 > 512)
            && table <= p.lba && p.lba + Span(p) <= table + 608
  {
    var bytes := no * INODE_SIZE;
    assert bytes == bytes / SECTOR * SECTOR + bytes % SECTOR;
    assert bytes + INODE_SIZE <= TABLE_SECTORS * SECTOR;
  }

  /** Different records share no byte, though they may share a sector. */
  lemma SlotsDisjoint(table: nat, a: nat, b: nat)
    requires a != b
    ensures SlotAt(table, a) + INODE_SIZE <= SlotAt(table, b) || SlotAt(table, b) + INODE_SIZE <= SlotAt(table, a)
  {
  }

  function Slot(image: seq<Byte>, table: nat, no: nat): (b: seq<Byte>)
    requires SlotAt(table, no) + INODE_SIZE <= |image|
    ensures |b| == INODE_SIZE
  {
    image[SlotAt(table, no)..SlotAt(table, no) + INODE_SIZE]
  }

  lemma EditInside(image: seq<Byte>, from: nat, to: nat, offset: nat, data: seq<Byte>)
    requires from <= to <= |image| && from + offset + |data| <= to && data != []
    ensures Overwrite(image, from, Overwrite(image[from..to], offset, data)) == Overwrite(image, from + offset, data)
  {
    hide Overwrite;
    var mid := image[from..to];
    var l := Overwrite(image, from, Overwrite(mid, offset, data));
    var r := Overwrite(image, from + offset, data);
    forall i: nat | i < |image| ensures l[i] == r[i] {
      OverwriteAt(image, from, Overwrite(mid, offset, data), i);
      OverwriteAt(image, from + offset, data, i);
      if from <= i < to { OverwriteAt(mid, offset, data, i - from); }
    }
  }

  /** Reading whole sectors, replacing some bytes and writing them back replaces just those bytes. */
  lemma SectorEdit(image: seq<Byte>, lba: nat, n: nat, offset: nat, data: seq<Byte>)
    requires SECTOR * (lba + n) <= |image| && offset + |data| <= SECTOR * n && data != []
    ensures Overwrite(image, SECTOR * lba, Overwrite(Extent(image, lba, n), offset, data))
            == Overwrite(image, SECTOR * lba + offset, data)
  {
    EditInside(image, SECTOR * lba, SECTOR * (lba + n), offset, data);
  }

  lemma SliceOfSlice(s: seq<Byte>, a: nat, b: nat, c: nat, d: nat)
    requires c <= d && a + d <= b <= |s|
    ensures s[a..b][c..d] == s[a + c..a + d]
  {
    assert |s[a..b][c..d]| == d - c == |s[a + c..a + d]|;
    assert forall i :: 0 <= i < d - c ==> s[a..b][c..d][i] == s[a..b][c + i] == s[a + c..a + d][i];
  }

  lemma ExtentSlot(image: seq<Byte>, table: nat, no: nat)
    requires no < MAX_FILES_PER_PART && SECTOR * (table + TABLE_SECTORS) <= |image|
    ensures var p := GetPosition(table, no);
            && SECTOR * (p.lba + Span(p)) <= |image| && p.offset + INODE_SIZE <= SECTOR * Span(p)
            && SlotAt(table, no) + INODE_SIZE <= |image|
            && Extent(image, p.lba, Span(p))[p.offset..p.offset + INODE_SIZE] == Slot(image, table, no)
  {
    var p := GetPosition(table, no);
    PositionIsSlot(table, no);
    hide GetPosition;
    SliceOfSlice(image, SECTOR * p.lba, SECTOR * (p.lba + Span(p)), p.offset, p.offset + INODE_SIZE);
  }

  // ---- The table and the cache ----

  type Addr = nat

  /** What of an inode outlives it in memory. */
  datatype Data = Data(iSize: nat, iSectors: seq<nat>)

  /** A partition: the disk, the inodes in memory by address, and the list of open ones.  History: the inodes
      on the list whose open_cnt inode_open has still to set, with the count they were read with; how often
      each number was opened and closed; and what was last synced. */
  datatype Partition = Partition(
    image: seq<Byte>, table: nat, inodes: map<Addr, Record>, open: seq<Addr>, unset: map<Addr, nat>,
    opens: map<nat, nat>, closes: map<nat, nat>, synced: map<nat, Data>)

  function Times(m: map<nat, nat>, no: nat): nat { if no in m then m[no] else 0 }

  function Once(m: map<nat, nat>, no: nat): map<nat, nat> { m[no := Times(m, no) + 1] }

  predicate Fits(s: Partition) { SECTOR * (s.table + TABLE_SECTORS) <= |s.image| }

  /** find_in_list. */
  function Find(open: seq<Addr>, inodes: map<Addr, Record>, no: nat): (r: Option<Addr>)
    ensures r.Some? ==> r.value in open && r.value in inodes && inodes[r.value].iNo == no
    ensures r.None? ==> forall a :: a in open && a in inodes ==> inodes[a].iNo != no
  {
    if open == [] then None
    else if open[0] in inodes && inodes[open[0]].iNo == no then Some(open[0])
    else Find(open[1..], inodes, no)
  }

  function Cleared(r: Record): Record { r.(openCnt := 0, writing := 0) }

  function DataOf(r: Record): Data { Data(r.iSize, r.iSectors) }

  function Stored(s: Partition, no: nat): Record
    requires Fits(s) && no < MAX_FILES_PER_PART
  {
    ExtentSlot(s.image, s.table, no);
    Decode(Slot(s.image, s.table, no))
  }

  function First(open: seq<Addr>): Option<Addr> { if open == [] then None else Some(open[0]) }

  /** The inode behind a; None stands for the end of the list. */
  function After(open: seq<Addr>, a: Addr): Option<Addr> {
    if open == [] then None else if open[0] == a then First(open[1..]) else After(open[1..], a)
  }

  /** The list with `at` in front of the target. */
  function InFront(open: seq<Addr>, target: Option<Addr>, at: Addr): seq<Addr> {
    if open == [] then [at]
    else if Some(open[0]) == target then [at] + open
    else [open[0]] + InFront(open[1..], target, at)
  }

  /** inode_open after a miss: the record read, in the memory sys_kmalloc gave, goes on the list, */
  function Link(s: Partition, at: Addr, rec: Record, target: Option<Addr>): Partition {
    s.(inodes := s.inodes[at := rec], open := InFront(s.open, target, at), unset := s.unset[at := rec.openCnt])
  }

  /** and then it has one user. */
  function SetUser(s: Partition, no: nat, at: Addr): Partition
    requires at in s.inodes
  {
    s.(inodes := s.inodes[at := s.inodes[at].(openCnt := 1)], unset := s.unset - {at}, opens := Once(s.opens, no))
  }

  /** The end of inode_open after a hit. */
  function CountUser(s: Partition, a: Addr): Partition
    requires a in s.inodes
  {
    s.(inodes := s.inodes[a := s.inodes[a].(openCnt := (s.inodes[a].openCnt + 1) % WORD)],
       opens := Once(s.opens, s.inodes[a].iNo))
  }

  /** inode_open undisturbed. */
  function InodeOpen(s: Partition, no: nat, at: Addr): (Partition, Addr)
    requires Fits(s) && (no < MAX_FILES_PER_PART || Find(s.open, s.inodes, no).Some?)
  {
    match Find(s.open, s.inodes, no)
    case Some(a) => (CountUser(s, a), a)
    case None => (SetUser(Link(s, at, Stored(s, no), First(s.open)), no, at), at)
  }

  function Without(q: seq<Addr>, a: Addr): seq<Addr> {
    if q == [] then [] else if q[0] == a then q[1..] else [q[0]] + Without(q[1..], a)
  }

  function InodeClose(s: Partition, a: Addr): Partition
    requires a in s.inodes
  {
    var r := s.inodes[a];
    var cnt := (r.openCnt + WORD - 1) % WORD;
    var s1 := s.(closes := Once(s.closes, r.iNo));
    if cnt == 0 then s1.(inodes := s.inodes - {a}, open := Without(s.open, a), unset := s.unset - {a})
    else s1.(inodes := s.inodes[a := r.(openCnt := cnt)])
  }

  /** The record is on the disk, and nothing else has changed there. */
  function Store(s: Partition, r: Record): Partition
    requires Fits(s) && Storable(r) && r.iNo < MAX_FILES_PER_PART
  {
    s.(image := Overwrite(s.image, SlotAt(s.table, r.iNo), Encode(r)), synced := s.synced[r.iNo := DataOf(r)])
  }

  /** inode_sync undisturbed. */
  function InodeSync(s: Partition, a: Addr): Partition
    requires Fits(s) && a in s.inodes && Storable(s.inodes[a]) && s.inodes[a].iNo < MAX_FILES_PER_PART
  {
    Store(s, Cleared(s.inodes[a]))
  }

  /** A file operation changes an open inode in memory. */
  function Edit(s: Partition, a: Addr, d: Data, writing: Byte): Partition
    requires a in s.inodes
  {
    s.(inodes := s.inodes[a := s.inodes[a].(iSize := d.iSize, iSectors := d.iSectors, writing := writing)])
  }

  // ---- The invariant ----

  ghost predicate NoDup(q: seq<Addr>) { forall i, j :: 0 <= i < j < |q| ==> q[i] != q[j] }

  /** No state goes to the disk: nobody has a record open there, and nobody is writing it. */
  predicate Stateless(r: Record) { r.openCnt == 0 && r.writing == 0 }

  /** The disk holds what was last synced, under its number and without its state. */
  ghost predicate SyncedOk(s: Partition)
    requires Fits(s)
  {
    forall no: nat :: no in s.synced ==>
      && no < MAX_FILES_PER_PART && Stored(s, no).iNo == no && DataOf(Stored(s, no)) == s.synced[no]
      && Stateless(Stored(s, no))
  }

  ghost predicate ListOk(s: Partition) {
    NoDup(s.open) && forall a :: a in s.open <==> a in s.inodes
  }

  /** An inode in memory counts its users; until its count is set, on top of the count it was read with. */
  predicate InodeOk(s: Partition, a: Addr)
    requires a in s.inodes
  {
    var r := s.inodes[a];
    && Storable(r)
    && (if a in s.unset
        then r.openCnt >= s.unset[a] && r.openCnt + Times(s.closes, r.iNo) == Times(s.opens, r.iNo) + s.unset[a]
        else r.openCnt > 0 && r.openCnt + Times(s.closes, r.iNo) == Times(s.opens, r.iNo))
  }

  ghost predicate InodesOk(s: Partition) {
    forall a :: a in s.inodes ==> InodeOk(s, a)
  }

  /** One copy for each number. */
  ghost predicate OneCopy(s: Partition) {
    forall a, b :: a in s.inodes && b in s.inodes && s.inodes[a].iNo == s.inodes[b].iNo ==> a == b
  }

  predicate Cached(s: Partition, no: nat) { exists a :: a in s.inodes && s.inodes[a].iNo == no }

  ghost predicate ClosedOk(s: Partition) {
    forall no: nat :: !Cached(s, no) ==> Times(s.opens, no) == Times(s.closes, no)
  }

  ghost predicate UnsetOk(s: Partition) { forall a :: a in s.unset ==> a in s.inodes }

  /** The cache of open inodes. */
  ghost predicate CacheInv(s: Partition) { ListOk(s) && InodesOk(s) && OneCopy(s) && ClosedOk(s) && UnsetOk(s) }
}
