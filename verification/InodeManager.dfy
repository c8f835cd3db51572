/** inode_sync, inode_open and inode_close in place, over the disk driver: a partition object whose open
    list, inodes and disk the functions below change, proved to do what the functions of `Inodes` say. */
module InodeManager {
  import opened Wrappers
  import opened Disks
  import opened Inodes

  class OpenPartition {
    const disk: Disk
    const table: nat
    var inodes: map<Addr, Record>
    var open: seq<Addr>
    ghost var unset: map<Addr, nat>
    ghost var opens: map<nat, nat>
    ghost var closes: map<nat, nat>
    ghost var synced: map<nat, Data>

    ghost predicate Valid()
      reads this, disk
    {
      disk.Valid() && table + TABLE_SECTORS <= CAPACITY
    }

    ghost function View(): Partition
      reads this, disk
    {
      Partition(disk.image, table, inodes, open, unset, opens, closes, synced)
    }

    constructor (disk: Disk, table: nat)
      requires disk.Valid() && table + TABLE_SECTORS <= CAPACITY
      ensures Valid() && this.disk == disk
      ensures View() == Partition(disk.image, table, map[], [], map[], map[], map[], map[])
    {
      this.disk, this.table, inodes, open := disk, table, map[], [];
      unset, opens, closes, synced := map[], map[], map[], map[];
    }

    /** find_in_list. */
    method FindInList(no: nat) returns (r: Option<Addr>)
      requires forall a :: a in open ==> a in inodes
      ensures r == Find(open, inodes, no)
    {
      var i := 0;
      while i < |open|
        invariant i <= |open| && Find(open[i..], inodes, no) == Find(open, inodes, no)
      {
        if inodes[open[i]].iNo == no {
          return Some(open[i]);
        }
        i := i + 1;
      }
      return None;
    }

    /** Reads the sectors of record `no` into a new buffer. */
    method ReadSlot(no: nat) returns (buf: array<Byte>)
      requires Valid() && no < MAX_FILES_PER_PART
      modifies disk`device, disk`count, disk`low, disk`mid, disk`high, disk`commands
      ensures fresh(buf) && buf[..] == Extent(disk.image, GetPosition(table, no).lba, Span(GetPosition(table, no)))
    {
      var pos := GetPosition(table, no);
      PositionIsSlot(table, no);
      buf := new Byte[SECTOR * Span(pos)];
      var ok := disk.IdeRead(pos.lba, buf, Span(pos));
      assert buf[..] == Extent(disk.image, pos.lba, Span(pos));
    }

    /** None where the assertion of get_position fails.  sys_kmalloc gives `at`. */
    method InodeOpen(no: nat, at: Addr) returns (r: Option<Addr>)
      requires Valid() && at !in inodes && forall a :: a in open ==> a in inodes
      modifies this, disk`device, disk`count, disk`low, disk`mid, disk`high, disk`commands
      ensures Valid()
      ensures r.None? <==> no >= 4096 && old(Find(open, inodes, no)).None?
      ensures r.None? ==> View() == old(View())
      ensures r.Some? ==> (View(), r.value) == Inodes.InodeOpen(old(View()), no, at)
    {
      r := FindInList(no);
      if r.Some? {
        var a := r.value;
        inodes := inodes[a := inodes[a].(openCnt := (inodes[a].openCnt + 1) % WORD)];
        opens := Once(opens, no);
        return;
      }
      if no >= MAX_FILES_PER_PART { return None; }
      var pos := GetPosition(table, no);
      var buf := ReadSlot(no);
      ExtentSlot(disk.image, table, no);
      var inode := Decode(buf[pos.offset..pos.offset + INODE_SIZE]);
      assert inode == Stored(View(), no);
      Insert(no, at, inode);
      return Some(at);
    }

    /** list_push_front, and the first user. */
    method Insert(no: nat, at: Addr, inode: Record)
      modifies this
      ensures View() == SetUser(Link(old(View()), at, inode, First(old(open))), no, at)
    {
      inodes := inodes[at := inode];
      open := [at] + open;
      unset := unset[at := inode.openCnt];
      inodes := inodes[at := inodes[at].(openCnt := 1)];
      unset := unset - {at};
      opens := Once(opens, no);
    }

    method InodeClose(a: Addr)
      requires Valid() && a in inodes
      modifies this
      ensures View() == Inodes.InodeClose(old(View()), a)
    {
      closes := Once(closes, inodes[a].iNo);
      inodes := inodes[a := inodes[a].(openCnt := (inodes[a].openCnt + WORD - 1) % WORD)];
      if inodes[a].openCnt == 0 {
        open := Without(open, a);
        inodes := inodes - {a};
        unset := unset - {a};
      }
    }

    /** memcpy into the sector buffer. */
    method CopyIn(buf: array<Byte>, at: nat, data: seq<Byte>)
      requires at + |data| <= buf.Length
      modifies buf
      ensures buf[..] == Overwrite(old(buf[..]), at, data)
    {
      forall i | 0 <= i < |data| {
        buf[at + i] := data[i];
      }
    }

    /** Reads the sectors of record `no`, puts `temp` in and writes them back. */
    method WriteSlot(no: nat, temp: seq<Byte>)
      requires Valid() && no < MAX_FILES_PER_PART && |temp| == INODE_SIZE
      modifies disk
      ensures Valid() && disk.image == Overwrite(old(disk.image), SlotAt(table, no), temp)
    {
      hide GetPosition, Overwrite, Extent, SlotAt, Span;
      var pos := GetPosition(table, no);
      PositionIsSlot(table, no);
      var buf := ReadSlot(no);
      CopyIn(buf, pos.offset, temp);
      SectorEdit(disk.image, pos.lba, Span(pos), pos.offset, temp);
      assert buf[..SECTOR * Span(pos)] == buf[..];
      var ok := disk.IdeWriteMeant(pos.lba, buf, Span(pos));
    }

    /** False where the assertion of get_position fails. */
    method InodeSync(a: Addr) returns (ok: bool)
      requires Valid() && a in inodes && Storable(inodes[a])
      modifies this`synced, disk
      ensures Valid()
      ensures ok <==> inodes[a].iNo < 4096
      ensures View() == if ok then Inodes.InodeSync(old(View()), a) else old(View())
    {
      var no := inodes[a].iNo;
      if no >= MAX_FILES_PER_PART { return false; }
      var temp := inodes[a].(openCnt := 0, writing := 0);
      WriteSlot(no, Encode(temp));
      synced := synced[no := DataOf(inodes[a])];
      return true;
    }
  }
}
