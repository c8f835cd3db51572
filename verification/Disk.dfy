/** The sector transfers of device/disk.c: how a request is cut into commands, how each command is encoded
    in the device registers, and which sectors travel.  The device honours every command that stays on the
    disk.  ide_write is modelled twice: as it is, and with the arms of its chunk choice the way ide_read has
    them. */
module Disks {
  type Byte = x: nat | x < 256

  const SECTOR: nat := 512
  /** The number of sectors; MAX_LBA is the last one. */
  const CAPACITY: nat := 163840
  const MAX_LBA: nat := 80 * 1024 * 1024 / 512 - 1
  const WORD: nat := 0x1_0000_0000

  /** A command as the device sees it: the first sector and how many. */
  datatype Command = Command(lba: nat, sectors: nat)

  // ---- Register encoding ----

  /** The device register: fixed bits, LBA mode, which disk, and the top four bits of the address. */
  function DeviceByte(no: nat, lba: nat): Byte {
    0xa0 + 0x40 + (if no == 0 then 0 else 0x10) + lba / 0x100_0000 % 16
  }

  /** How the device reads the registers. */
  function DecodeLba(device: Byte, high: Byte, mid: Byte, low: Byte): nat {
    device % 16 * 0x100_0000 + high * 0x1_0000 + mid * 0x100 + low
  }

  function DecodeCount(count: Byte): nat { if count == 0 then 256 else count }

  /** The base-256 digits of a number. */
  lemma Digits(n: nat)
    ensures n == n / 0x100_0000 * 0x100_0000 + n / 0x1_0000 % 256 * 0x1_0000 + n / 0x100 % 256 * 0x100 + n % 256
  {
    var a, b := n / 0x100, n / 0x1_0000;
    assert n == a * 0x100 + n % 256;
    assert a == b * 0x100 + a % 256;
    assert b == n / 0x100_0000 * 0x100 + b % 256;
  }

  lemma DeviceNibbles(no: nat, lba: nat)
    ensures DeviceByte(no, lba) % 16 == lba / 0x100_0000 % 16
    ensures DeviceByte(no, lba) / 16 == (if no == 0 then 0xe else 0xf)
  {
  }

  /** The four pieces reassemble to the address modulo 2^28, so to the address itself exactly when it fits;
      every address the assertion lets through does.  The disk bit is not disturbed. */
  lemma LbaReassembles(no: nat, lba: nat)
    ensures DecodeLba(DeviceByte(no, lba), lba / 0x1_0000 % 256, lba / 0x100 % 256, lba % 256) == lba % 0x1000_0000
    ensures lba % 0x1000_0000 == lba <==> lba < 0x1000_0000
    ensures lba <= MAX_LBA ==> lba < 0x1000_0000
    ensures DeviceByte(no, lba) / 16 == (if no == 0 then 0xe else 0xf)
  {
    DeviceNibbles(no, lba);
    Digits(lba);
    hide DeviceByte;
    var c := lba / 0x100_0000;
    var low := c % 16 * 0x100_0000 + lba / 0x1_0000 % 256 * 0x1_0000 + lba / 0x100 % 256 * 0x100 + lba % 256;
    assert lba == c / 16 * 0x1000_0000 + low && low < 0x1000_0000;
  }

  /** The count byte of a chunk decodes to the chunk's size exactly for chunks of 1 to 256 sectors. */
  lemma CountDecodes(n: nat)
    ensures DecodeCount(n % 256) == n <==> 1 <= n <= 256
  {
  }

  // ---- How a request is cut ----

  /** Full chunks of 256 sectors and a last one with the rest. */
  function Chunks(lba: nat, cnt: nat): seq<Command>
    decreases cnt
  {
    if cnt == 0 then []
    else if cnt > 256 then [Command(lba, 256)] + Chunks(lba + 256, cnt - 256)
    else [Command(lba, cnt)]
  }

  /** A list of commands covers exactly the sectors lba .. lba + cnt - 1, in order. */
  predicate Covers(cs: seq<Command>, lba: nat, cnt: nat)
    decreases |cs|
  {
    if cs == [] then cnt == 0
    else cs[0].lba == lba && 1 <= cs[0].sectors <= cnt && Covers(cs[1..], lba + cs[0].sectors, cnt - cs[0].sectors)
  }

  lemma {:induction false} ChunksCover(lba: nat, cnt: nat)
    ensures Covers(Chunks(lba, cnt), lba, cnt)
    ensures forall i :: 0 <= i < |Chunks(lba, cnt)| ==> 1 <= Chunks(lba, cnt)[i].sectors <= 256
    decreases cnt
  {
    if cnt > 256 {
      ChunksCover(lba + 256, cnt - 256);
      assert Chunks(lba, cnt)[1..] == Chunks(lba + 256, cnt - 256);
    } else if cnt > 0 {
      assert Chunks(lba, cnt)[1..] == [];
    }
  }

  /** Each chunk but the last has 256 sectors. */
  lemma {:induction false} ChunkAt(lba: nat, cnt: nat, i: nat)
    ensures |Chunks(lba, cnt)| == (cnt + 255) / 256
    ensures i < |Chunks(lba, cnt)| ==>
              256 * i < cnt
              && Chunks(lba, cnt)[i] == Command(lba + 256 * i, if cnt - 256 * i < 256 then cnt - 256 * i else 256)
    decreases cnt
  {
    if cnt > 256 { ChunkAt(lba + 256, cnt - 256, if i > 0 then i - 1 else 0); }
  }

  /** Appending the next chunk, as the loop does. */
  lemma {:induction false} ChunksAppend(lba: nat, k: nat, rest: nat)
    ensures Chunks(lba, 256 * k) + Chunks(lba + 256 * k, rest) == Chunks(lba, 256 * k + rest)
    decreases k, rest
  {
    if k > 0 && rest > 0 {
      ChunksAppend(lba + 256, k - 1, rest);
      assert lba + 256 + 256 * (k - 1) == lba + 256 * k;
      assert 256 * k + rest - 256 == 256 * (k - 1) + rest;
      ChunksAppend(lba + 256, k - 1, 0);
    }
  }

  lemma NextChunk(lba: nat, k: nat, n: nat)
    requires 1 <= n <= 256
    ensures Chunks(lba, 256 * k) + [Command(lba + 256 * k, n)] == Chunks(lba, 256 * k + n)
  {
    ChunksAppend(lba, k, n);
  }

  // ---- Contents ----

  function Extent(image: seq<Byte>, lba: nat, cnt: nat): (r: seq<Byte>)
    requires cnt == 0 || SECTOR * (lba + cnt) <= |image|
    ensures |r| == SECTOR * cnt
  {
    if cnt == 0 then [] else image[SECTOR * lba..SECTOR * (lba + cnt)]
  }

  function Overwrite(image: seq<Byte>, at: nat, data: seq<Byte>): (r: seq<Byte>)
    requires data == [] || at + |data| <= |image|
    ensures |r| == |image|
  {
    if data == [] then image else image[..at] + data + image[at + |data|..]
  }

  lemma OverwriteAt(image: seq<Byte>, at: nat, data: seq<Byte>, i: nat)
    requires (data == [] || at + |data| <= |image|) && i < |image|
    ensures Overwrite(image, at, data)[i] == if at <= i < at + |data| then data[i - at] else image[i]
  {
  }

  lemma ExtentAppend(image: seq<Byte>, lba: nat, a: nat, b: nat)
    requires SECTOR * (lba + a + b) <= |image|
    ensures Extent(image, lba, a) + Extent(image, lba + a, b) == Extent(image, lba, a + b)
  {
  }

  /** The first n sectors of the request are in the buffer, which held `was`. */
  ghost predicate Filled(image: seq<Byte>, lba: nat, n: nat, was: seq<Byte>, now: seq<Byte>) {
    (n == 0 || SECTOR * (lba + n) <= |image|) && SECTOR * n <= |was| && now == Extent(image, lba, n) + was[SECTOR * n..]
  }

  lemma FilledAppend(image: seq<Byte>, lba: nat, a: nat, b: nat, was: seq<Byte>, mid: seq<Byte>, now: seq<Byte>)
    requires SECTOR * (lba + a + b) <= |image| && SECTOR * (a + b) <= |was| && Filled(image, lba, a, was, mid)
    requires now == mid[..SECTOR * a] + Extent(image, lba + a, b) + mid[SECTOR * a + SECTOR * b..]
    ensures Filled(image, lba, a + b, was, now)
  {
    ExtentAppend(image, lba, a, b);
  }

  lemma OverwriteAppend(image: seq<Byte>, at: nat, a: seq<Byte>, b: seq<Byte>)
    requires at + |a| + |b| <= |image|
    ensures Overwrite(Overwrite(image, at, a), at + |a|, b) == Overwrite(image, at, a + b)
  {
  }

  /** The first n sectors of the request are on the disk, which held `was`. */
  ghost predicate Written(image: seq<Byte>, lba: nat, n: nat, was: seq<Byte>, data: seq<Byte>) {
    (n == 0 || SECTOR * (lba + n) <= |was|) && SECTOR * n <= |data|
    && image == Overwrite(was, SECTOR * lba, data[..SECTOR * n])
  }

  lemma WrittenAppend(mid: seq<Byte>, now: seq<Byte>, lba: nat, a: nat, b: nat, was: seq<Byte>, data: seq<Byte>)
    requires SECTOR * (lba + a + b) <= |was| && SECTOR * (a + b) <= |data| && Written(mid, lba, a, was, data)
    requires now == Overwrite(mid, SECTOR * (lba + a), data[SECTOR * a..SECTOR * a + SECTOR * b])
    ensures Written(now, lba, a + b, was, data)
  {
    OverwriteAppend(was, SECTOR * lba, data[..SECTOR * a], data[SECTOR * a..SECTOR * a + SECTOR * b]);
    assert data[..SECTOR * a] + data[SECTOR * a..SECTOR * a + SECTOR * b] == data[..SECTOR * (a + b)];
  }

  /** What was written is what is read back, and nothing else changed. */
  lemma ReadBack(image: seq<Byte>, lba: nat, cnt: nat, data: seq<Byte>)
    requires |data| == SECTOR * cnt && SECTOR * (lba + cnt) <= |image|
    ensures Extent(Overwrite(image, SECTOR * lba, data), lba, cnt) == data
    ensures forall i :: 0 <= i < |image| && (i < SECTOR * lba || SECTOR * (lba + cnt) <= i) ==>
              Overwrite(image, SECTOR * lba, data)[i] == image[i]
  {
  }

  // ---- ide_write as it is ----

  /** The sectors ide_write sends for a request of cnt: the arms of its conditional are swapped, and the
      count is cut to a byte. */
  function Sent(cnt: nat): nat {
    if cnt == 0 then 0 else DecodeCount((if 256 < cnt then cnt else 256) % 256)
  }

  /** It sends what it was asked to exactly for no sectors or 256. */
  lemma SentIff(cnt: nat)
    ensures Sent(cnt) == cnt <==> cnt == 0 || cnt == 256
  {
  }

  /** One sector asked for, 256 overwritten; 257 asked for, one written. */
  lemma SentExamples()
    ensures Sent(1) == 256 && Sent(257) == 1
  {
  }

  // ---- The driver ----

  class Disk {
    const no: nat
    var device: Byte
    var count: Byte
    var low: Byte
    var mid: Byte
    var high: Byte
    var image: seq<Byte>
    /** History: the commands the device received. */
    ghost var commands: seq<Command>

    ghost predicate Valid()
      reads this
    {
      |image| == SECTOR * CAPACITY
    }

    constructor (no: nat, image: seq<Byte>)
      requires |image| == SECTOR * CAPACITY
      ensures Valid() && this.image == image && commands == []
    {
      this.no, this.image, commands := no, image, [];
      device, count, low, mid, high := 0, 0, 0, 0, 0;
    }

    method SelectDisk()
      modifies this`device
      ensures device == DeviceByte(no, 0)
    {
      device := 0xa0 + 0x40 + (if no == 0 then 0 else 0x10);
    }

    method CountOut(cnt: Byte)
      modifies this`count
      ensures count == cnt
    {
      count := cnt;
    }

    /** False where the assertion fails. */
    method SelectSector(lba: nat) returns (ok: bool)
      modifies this`device, this`low, this`mid, this`high
      ensures ok <==> lba < 163840
      ensures ok ==> DecodeLba(device, high, mid, low) == lba
    {
      if lba > MAX_LBA { return false; }
      low := lba % 256;
      mid := lba / 0x100 % 256;
      high := lba / 0x1_0000 % 256;
      device := DeviceByte(no, lba);
      LbaReassembles(no, lba);
      return true;
    }

    /** send_cmd and the wait: the device takes the command from its registers, if its sectors exist. */
    method SendCmd() returns (ready: bool)
      requires Valid()
      modifies this`commands
      ensures var c := Command(DecodeLba(device, high, mid, low), DecodeCount(count));
              commands == old(commands) + [c] && (ready <==> c.lba + c.sectors <= CAPACITY)
    {
      commands := commands + [Command(DecodeLba(device, high, mid, low), DecodeCount(count))];
      return DecodeLba(device, high, mid, low) + DecodeCount(count) <= CAPACITY;
    }

    /** disk_read: as many sectors as the byte cnt says, from the sectors of the present command. */
    method DiskRead(buf: array<Byte>, at: nat, cnt: Byte)
      requires Valid() && cnt == count && at + SECTOR * DecodeCount(cnt) <= buf.Length
      requires DecodeLba(device, high, mid, low) + DecodeCount(count) <= CAPACITY
      modifies buf
      ensures buf[..] == old(buf[..at]) + Extent(image, DecodeLba(device, high, mid, low), DecodeCount(cnt))
                         + old(buf[at + SECTOR * DecodeCount(cnt)..])
    {
      var n := SECTOR * (if cnt == 0 then 256 else cnt);
      var from := SECTOR * DecodeLba(device, high, mid, low);
      forall i | 0 <= i < n {
        buf[at + i] := image[from + i];
      }
    }

    /** disk_write. */
    method DiskWrite(buf: array<Byte>, at: nat, cnt: Byte)
      requires Valid() && cnt == count && at + SECTOR * DecodeCount(cnt) <= buf.Length
      requires DecodeLba(device, high, mid, low) + DecodeCount(count) <= CAPACITY
      modifies this`image
      ensures Valid()
      ensures image == Overwrite(old(image), SECTOR * DecodeLba(device, high, mid, low),
                                 buf[at..at + SECTOR * DecodeCount(cnt)])
    {
      var n := SECTOR * (if cnt == 0 then 256 else cnt);
      var from := SECTOR * DecodeLba(device, high, mid, low);
      image := image[..from] + buf[at..at + n] + image[from + n..];
    }

    /** The commands of one chunk, whose size is cut to a byte; false where the kernel panics. */
    method Request(lba: nat, cnt: nat) returns (ok: bool)
      requires Valid()
      modifies this`device, this`count, this`low, this`mid, this`high, this`commands
      ensures ok <==> lba + DecodeCount(cnt % 256) <= CAPACITY
      ensures ok ==> count == cnt % 256 && DecodeLba(device, high, mid, low) == lba
      ensures ok ==> commands == old(commands) + [Command(lba, DecodeCount(cnt % 256))]
    {
      CountOut(cnt % 256);
      ok := SelectSector(lba);
      if ok { ok := SendCmd(); }
    }

    /** One round of ide_read's loop. */
    method ReadChunk(lba: nat, buf: array<Byte>, offset: nat, cnt: nat, ghost was: seq<Byte>) returns (ok: bool)
      requires Valid() && 1 <= cnt <= 256 && SECTOR * (offset + cnt) <= buf.Length == |was|
      requires Filled(image, lba, offset, was, buf[..])
      modifies buf, this`device, this`count, this`low, this`mid, this`high, this`commands
      ensures ok <==> lba + offset + cnt <= CAPACITY
      ensures ok ==> Filled(image, lba, offset + cnt, was, buf[..])
      ensures ok ==> commands == old(commands) + [Command(lba + offset, cnt)]
    {
      CountDecodes(cnt);
      ok := Request(lba + offset, cnt);
      if ok {
        DiskRead(buf, SECTOR * offset, cnt % 256);
        FilledAppend(image, lba, offset, cnt, was, old(buf[..]), buf[..]);
      }
    }

    /** ide_read: false where the kernel panics.  It succeeds exactly when all sectors exist, and then the
        buffer holds them in order. */
    method IdeRead(lba: nat, buf: array<Byte>, cnt: nat) returns (ok: bool)
      requires Valid() && lba < WORD && cnt < WORD && SECTOR * cnt <= buf.Length
      modifies buf, this`device, this`count, this`low, this`mid, this`high, this`commands
      ensures ok <==> cnt == 0 || lba + cnt <= 163840
      ensures ok ==> buf[..] == Extent(image, lba, cnt) + old(buf[SECTOR * cnt..])
      ensures ok ==> commands == old(commands) + Chunks(lba, cnt)
    {
      hide Filled, Extent;
      SelectDisk();
      var offset := 0;
      ghost var k, was := 0, buf[..];
      FilledStart(image, lba, was);
      while offset < cnt
        invariant offset <= cnt && (offset == 256 * k || offset == cnt)
        invariant offset == 0 || lba + offset <= CAPACITY
        invariant Filled(image, lba, offset, was, buf[..])
        invariant commands == old(commands) + Chunks(lba, offset)
        decreases cnt - offset
      {
        var currCnt := if (offset + 256) % WORD < cnt then 256 else cnt - offset;
        ok := ReadChunk(lba, buf, offset, currCnt, was);
        if !ok { return; }
        NextChunk(lba, k, currCnt);
        offset := offset + currCnt;
        k := k + 1;
      }
      FilledEnd(image, lba, cnt, was, buf[..]);
      ok := true;
    }

    /** One round of the loop of ide_write with ide_read's chunk choice. */
    method WriteChunk(lba: nat, buf: array<Byte>, offset: nat, cnt: nat, ghost was: seq<Byte>) returns (ok: bool)
      requires Valid() && 1 <= cnt <= 256 && SECTOR * (offset + cnt) <= buf.Length && |was| == |image|
      requires Written(image, lba, offset, was, buf[..])
      modifies this`image, this`device, this`count, this`low, this`mid, this`high, this`commands
      ensures Valid()
      ensures ok <==> lba + offset + cnt <= CAPACITY
      ensures ok ==> Written(image, lba, offset + cnt, was, buf[..])
      ensures ok ==> commands == old(commands) + [Command(lba + offset, cnt)]
    {
      CountDecodes(cnt);
      hide Written, Overwrite, DecodeLba, DecodeCount;
      ok := Request(lba + offset, cnt);
      if ok {
        DiskWrite(buf, SECTOR * offset, cnt % 256);
        WrittenAppend(old(image), image, lba, offset, cnt, was, buf[..]);
      }
    }

    /** ide_write as meant: false where the kernel panics.  It succeeds exactly when all sectors exist, and
        then the disk holds the buffer there and is unchanged elsewhere. */
    method IdeWriteMeant(lba: nat, buf: array<Byte>, cnt: nat) returns (ok: bool)
      requires Valid() && lba < WORD && cnt < WORD && SECTOR * cnt <= buf.Length
      modifies this`image, this`device, this`count, this`low, this`mid, this`high, this`commands
      ensures Valid()
      ensures ok <==> cnt == 0 || lba + cnt <= 163840
      ensures ok ==> image == Overwrite(old(image), SECTOR * lba, buf[..SECTOR * cnt])
      ensures ok ==> commands == old(commands) + Chunks(lba, cnt)
    {
      hide Written, Overwrite;
      SelectDisk();
      var offset := 0;
      ghost var k, was := 0, image;
      WrittenStart(lba, was, buf[..]);
      while offset < cnt
        invariant Valid() && offset <= cnt && (offset == 256 * k || offset == cnt)
        invariant offset == 0 || lba + offset <= CAPACITY
        invariant Written(image, lba, offset, was, buf[..])
        invariant commands == old(commands) + Chunks(lba, offset)
        decreases cnt - offset
      {
        var currCnt := if (offset + 256) % WORD < cnt then 256 else cnt - offset;
        ok := WriteChunk(lba, buf, offset, currCnt, was);
        if !ok { return; }
        NextChunk(lba, k, currCnt);
        offset := offset + currCnt;
        k := k + 1;
      }
      WrittenEnd(image, lba, cnt, was, buf[..]);
      ok := true;
    }

    /** One round of ide_write's loop, with a chunk of any size. */
    method WriteRound(lba: nat, buf: array<Byte>, at: nat, cnt: nat) returns (ok: bool)
      requires Valid() && at + SECTOR * DecodeCount(cnt % 256) <= buf.Length
      modifies this`image, this`device, this`count, this`low, this`mid, this`high, this`commands
      ensures Valid()
      ensures ok <==> lba + DecodeCount(cnt % 256) <= CAPACITY
      ensures ok ==> image == Overwrite(old(image), SECTOR * lba, buf[at..at + SECTOR * DecodeCount(cnt % 256)])
      ensures ok ==> commands == old(commands) + [Command(lba, DecodeCount(cnt % 256))]
    {
      hide Overwrite, DecodeLba;
      ok := Request(lba, cnt);
      if ok { DiskWrite(buf, at, cnt % 256); }
    }

    /** ide_write as it is.  For a short request it reads memory behind the buffer, which must exist. */
    method IdeWrite(lba: nat, buf: array<Byte>, cnt: nat) returns (ok: bool)
      requires Valid() && lba < WORD && cnt < WORD && SECTOR * Sent(cnt) <= buf.Length
      modifies this`image, this`device, this`count, this`low, this`mid, this`high, this`commands
      ensures Valid()
      ensures ok <==> cnt == 0 || lba + Sent(cnt) <= 163840
      ensures ok ==> image == Overwrite(old(image), SECTOR * lba, buf[..SECTOR * Sent(cnt)])
      ensures ok && cnt > 0 ==> commands == old(commands) + [Command(lba, Sent(cnt))]
    {
      assert cnt == 0 ==> image == Overwrite(image, SECTOR * lba, buf[..SECTOR * Sent(cnt)]);
      hide Overwrite, DecodeLba, DecodeCount;
      SelectDisk();
      var offset := 0;
      while offset < cnt
        invariant Valid()
        invariant offset == 0 ==> image == old(image) && commands == old(commands)
        invariant offset == 0 || (cnt <= offset && lba + Sent(cnt) <= CAPACITY)
        invariant offset > 0 ==> image == Overwrite(old(image), SECTOR * lba, buf[..SECTOR * Sent(cnt)])
        invariant offset > 0 ==> commands == old(commands) + [Command(lba, Sent(cnt))]
        decreases cnt - offset
      {
        var currCnt := if (offset + 256) % WORD < cnt then cnt - offset else 256;
        ok := WriteRound(lba + offset, buf, SECTOR * offset, currCnt);
        if !ok { return; }
        offset := offset + currCnt;
      }
      ok := true;
    }
  }

  lemma FilledStart(image: seq<Byte>, lba: nat, was: seq<Byte>)
    ensures Filled(image, lba, 0, was, was)
  {
  }

  lemma FilledEnd(image: seq<Byte>, lba: nat, n: nat, was: seq<Byte>, now: seq<Byte>)
    requires Filled(image, lba, n, was, now)
    ensures (n == 0 || SECTOR * (lba + n) <= |image|) && SECTOR * n <= |was|
        && now == Extent(image, lba, n) + was[SECTOR * n..]
  {
  }

  lemma WrittenStart(lba: nat, was: seq<Byte>, data: seq<Byte>)
    ensures Written(was, lba, 0, was, data)
  {
  }

  lemma WrittenEnd(image: seq<Byte>, lba: nat, n: nat, was: seq<Byte>, data: seq<Byte>)
    requires Written(image, lba, n, was, data)
    ensures (n == 0 || SECTOR * (lba + n) <= |was|) && SECTOR * n <= |data|
    ensures image == Overwrite(was, SECTOR * lba, data[..SECTOR * n])
  {
  }
}
