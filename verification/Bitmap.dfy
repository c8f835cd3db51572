/** lib/bitmap.c: a bit set over an array of bytes, with first-fit search. */
module Bitmaps {
  import opened Wrappers

  // ---- Specification on sequences of bits ----

  /** Positions p .. p+cnt-1 are in range and all clear. */
  ghost predicate Run(bits: seq<bool>, p: nat, cnt: nat) {
    p + cnt <= |bits| && forall i :: p <= i < p + cnt ==> !bits[i]
  }

  ghost predicate Full(bits: seq<bool>) { forall i :: 0 <= i < |bits| ==> bits[i] }

  /** What bitmap_scan does: a position, -1, or a failed assertion that stops the kernel. */
  datatype ScanResult = Found(pos: nat) | NotFound | Panic

  /** The lowest run of cnt clear bits that starts at or after `from`. */
  ghost function LowestRun(bits: seq<bool>, cnt: nat, from: nat): (r: Option<nat>)
    ensures r.Some? ==> from <= r.value && Run(bits, r.value, cnt)
    ensures r.Some? ==> forall q :: from <= q < r.value ==> !Run(bits, q, cnt)
    ensures r.None? ==> forall q :: from <= q ==> !Run(bits, q, cnt)
    decreases |bits| - from
  {
    if Run(bits, from, cnt) then Some(from)
    else if from >= |bits| then None
    else LowestRun(bits, cnt, from + 1)
  }

  /** bitmap_scan as written.  A failed search for two or more bits runs past the end of the bitmap
      and trips the assertion of bitmap_has instead of returning -1. */
  ghost function ScanSpec(bits: seq<bool>, cnt: nat): ScanResult {
    if Full(bits) then NotFound
    else match LowestRun(bits, cnt, 0)
         case Some(p) => Found(p)
         case None => Panic
  }

  function SetRun(bits: seq<bool>, p: nat, cnt: nat, value: bool): (r: seq<bool>)
    requires p + cnt <= |bits|
    ensures |r| == |bits|
    ensures forall i :: 0 <= i < |bits| ==> r[i] == if p <= i < p + cnt then value else bits[i]
  {
    seq(|bits|, i requires 0 <= i < |bits| => if p <= i < p + cnt then value else bits[i])
  }

  /** The scan returns -1 exactly when there is no run, if and only if it looks for a single bit, or
      every bit is set, or a run exists: otherwise the kernel stops. */
  lemma ScanMeetsItsPromise(bits: seq<bool>, cnt: nat)
    requires cnt >= 1
    ensures (ScanSpec(bits, cnt) == NotFound && forall p: nat :: !Run(bits, p, cnt))
            || (ScanSpec(bits, cnt).Found? && Run(bits, ScanSpec(bits, cnt).pos, cnt))
            <==> cnt == 1 || Full(bits) || exists p: nat :: Run(bits, p, cnt)
    ensures ScanSpec(bits, cnt).Found? ==> forall q: nat :: q < ScanSpec(bits, cnt).pos ==> !Run(bits, q, cnt)
  {
    if Full(bits) {
      forall p: nat ensures !Run(bits, p, cnt) {
        if p + cnt <= |bits| { assert bits[p]; }
      }
    } else {
      var i :| 0 <= i < |bits| && !bits[i];
      assert Run(bits, i, 1);
    }
  }

  /** A concrete failed search: one clear bit, two wanted. */
  lemma FailedScanPanics()
    ensures ScanSpec([false, true, true, true, true, true, true, true], 2) == Panic
  {
    var bits := [false, true, true, true, true, true, true, true];
    assert !bits[0];
    forall p: nat ensures !Run(bits, p, 2) {
      if p + 2 <= |bits| { assert bits[p + 1]; }
    }
  }

  /** Setting then clearing a run the scan found restores the bitmap bit for bit. */
  lemma SetThenClearRestores(bits: seq<bool>, cnt: nat)
    requires ScanSpec(bits, cnt).Found?
    ensures var p := ScanSpec(bits, cnt).pos;
            SetRun(SetRun(bits, p, cnt, true), p, cnt, false) == bits
  {
    var p := ScanSpec(bits, cnt).pos;
    assert Run(bits, p, cnt);
  }

  // ---- Bytes ----

  /** 0x1 << offset. */
  function Mask(k: nat): bv8
    requires k < 8
  {
    1 << k
  }

  function Bit(b: bv8, k: nat): bool
    requires k < 8
  {
    b & Mask(k) != 0
  }

  lemma MaskIsOneBit(j: nat, k: nat)
    requires j < 8 && k < 8
    ensures Bit(Mask(j), k) == (j == k)
  {
    var masks: seq<bv8> := [1, 2, 4, 8, 16, 32, 64, 128];
    forall i: nat | i < 8 ensures Mask(i) == masks[i] {
      if i == 0 {} else if i == 1 {} else if i == 2 {} else if i == 3 {}
      else if i == 4 {} else if i == 5 {} else if i == 6 {} else { assert i == 7; }
    }
  }

  lemma SetBit(b: bv8, j: nat, k: nat)
    requires j < 8 && k < 8
    ensures Bit(b | Mask(j), k) == (j == k || Bit(b, k))
  {
    MaskIsOneBit(j, k);
    assert (b | Mask(j)) & Mask(k) == (b & Mask(k)) | (Mask(j) & Mask(k));
  }

  lemma ClearBit(b: bv8, j: nat, k: nat)
    requires j < 8 && k < 8
    ensures Bit(b & !Mask(j), k) == (j != k && Bit(b, k))
  {
    MaskIsOneBit(j, k);
    var x, y := Mask(j), Mask(k);
    if j == k {
      assert (b & !x) & x == 0;
    } else {
      assert x & y == 0;
      assert !x & y == y by { assert (!x & y) | (x & y) == y; }
      assert (b & !x) & y == b & (!x & y);
    }
  }

  lemma FullByte(b: bv8)
    ensures b == 0xff <==> forall k: nat :: k < 8 ==> Bit(b, k)
  {
    assert Mask(0) == 1 && Mask(1) == 2 && Mask(2) == 4 && Mask(3) == 8;
    assert Mask(4) == 16 && Mask(5) == 32 && Mask(6) == 64 && Mask(7) == 128;
    if b == 0xff {
      forall k: nat | k < 8 ensures Bit(b, k) {
        if k == 0 {} else if k == 1 {} else if k == 2 {} else if k == 3 {}
        else if k == 4 {} else if k == 5 {} else if k == 6 {} else { assert k == 7; }
      }
    } else {
      assert !Bit(b, 0) || !Bit(b, 1) || !Bit(b, 2) || !Bit(b, 3)
          || !Bit(b, 4) || !Bit(b, 5) || !Bit(b, 6) || !Bit(b, 7);
    }
  }

  /** The bits of a byte string, lowest bit of the first byte first. */
  ghost function BitsOf(bytes: seq<bv8>): (r: seq<bool>)
    ensures |r| == 8 * |bytes|
    ensures forall i :: 0 <= i < 8 * |bytes| ==> r[i] == Bit(bytes[i / 8], i % 8)
  {
    seq(8 * |bytes|, i requires 0 <= i < 8 * |bytes| => Bit(bytes[i / 8], i % 8))
  }

  /** Bit i is one bit of byte i / 8: of weight 1 for the first, of weight 128 for the last of eight. */
  lemma BitPlace(bytes: seq<bv8>, i: nat)
    requires i < 8 * |bytes|
    ensures BitsOf(bytes)[i] <==> bytes[i / 8] & [1, 2, 4, 8, 16, 32, 64, 128][i % 8] != 0
  {
    hide Mask;
    MaskWeight(i % 8);
  }

  lemma MaskWeight(k: nat)
    requires k < 8
    ensures Mask(k) == [1, 2, 4, 8, 16, 32, 64, 128][k]
  {
    if k == 0 {} else if k == 1 {} else if k == 2 {} else if k == 3 {}
    else if k == 4 {} else if k == 5 {} else if k == 6 {} else { assert k == 7; }
  }

  /** bits[idx] |= mask, or bits[idx] &= ~mask. */
  function Rewritten(b: bv8, j: nat, value: bool): bv8
    requires j < 8
  {
    if value then b | Mask(j) else b & !Mask(j)
  }

  lemma RewrittenBit(b: bv8, j: nat, value: bool, k: nat)
    requires j < 8 && k < 8
    ensures Bit(Rewritten(b, j, value), k) == if k == j then value else Bit(b, k)
  {
    if value { SetBit(b, j, k); } else { ClearBit(b, j, k); }
  }

  /** Replacing a byte by one that differs in one bit changes exactly the bit at `position`. */
  lemma ByteUpdate(bytes: seq<bv8>, position: nat, byte: bv8, value: bool)
    requires position < 8 * |bytes|
    requires forall k: nat :: k < 8 ==>
      Bit(byte, k) == if k == position % 8 then value else Bit(bytes[position / 8], k)
    ensures BitsOf(bytes[position / 8 := byte]) == BitsOf(bytes)[position := value]
  {
    var was, now := BitsOf(bytes), BitsOf(bytes[position / 8 := byte]);
    forall i | 0 <= i < 8 * |bytes| ensures now[i] == was[position := value][i] {
      assert i == 8 * (i / 8) + i % 8 && position == 8 * (position / 8) + position % 8;
    }
  }

  // ---- The bitmap ----

  class Bitmap {
    const bits: array<bv8>

    ghost function Bits(): (r: seq<bool>)
      reads bits
      ensures |r| == 8 * bits.Length
    {
      BitsOf(bits[..])
    }

    /** bitmap_init: len bytes, all clear. */
    constructor (len: nat)
      ensures fresh(bits) && bits.Length == len
      ensures Bits() == seq(8 * len, _ => false)
    {
      bits := new bv8[len](_ => 0);
      new;
      assert forall i :: 0 <= i < 8 * len ==> !Bit(bits[..][i / 8], i % 8);
    }

    /** bitmap_has; its assertion is the precondition. */
    method Has(position: nat) returns (r: bool)
      requires position < 8 * bits.Length
      ensures r == Bits()[position]
    {
      var idx, offset := position / 8, position % 8;
      r := bits[idx] & Mask(offset) != 0;
      assert r == Bit(bits[..][idx], offset);
    }

    method Write(position: nat, value: bool)
      requires position < 8 * bits.Length
      modifies bits
      ensures Bits() == old(Bits())[position := value]
    {
      var idx, offset := position / 8, position % 8;
      var byte := Rewritten(bits[idx], offset, value);
      forall k: nat | k < 8 ensures Bit(byte, k) == if k == offset then value else Bit(bits[idx], k) {
        RewrittenBit(bits[idx], offset, value, k);
      }
      ByteUpdate(bits[..], position, byte, value);
      bits[idx] := byte;
      assert bits[..] == old(bits[..])[idx := byte];
    }

    /** bitmap_set; its assertion is the precondition. */
    method Set(position: nat)
      requires position < 8 * bits.Length
      modifies bits
      ensures Bits() == old(Bits())[position := true]
    {
      Write(position, true);
    }

    /** bitmap_clear; its assertion is the precondition. */
    method Clear(position: nat)
      requires position < 8 * bits.Length
      modifies bits
      ensures Bits() == old(Bits())[position := false]
    {
      Write(position, false);
    }

    /** The first two loops of bitmap_scan: the first byte that is not 0xff, then its lowest clear bit. */
    method FirstClear() returns (r: Option<nat>)
      ensures r.None? <==> Full(Bits())
      ensures r.Some? ==> r.value < 8 * bits.Length && !Bits()[r.value]
      ensures r.Some? ==> forall i :: 0 <= i < r.value ==> Bits()[i]
    {
      var idx, offset := 0, 0;
      while idx < bits.Length && bits[idx] == 0xff
        invariant idx <= bits.Length
        invariant forall i :: 0 <= i < idx ==> bits[i] == 0xff
      {
        idx := idx + 1;
      }
      forall i | 0 <= i < 8 * idx ensures Bits()[i] {
        FullByte(bits[i / 8]);
      }
      if idx == bits.Length {
        return None;
      }
      FullByte(bits[idx]);
      while Mask(offset) & bits[idx] != 0
        invariant offset < 8
        invariant forall k: nat :: k < offset ==> Bit(bits[idx], k)
        decreases 8 - offset
      {
        assert Bit(bits[idx], offset);
        offset := offset + 1;
      }
      var position := idx * 8 + offset;
      assert !Bits()[position];
      return Some(position);
    }

    /** bitmap_scan. */
    method Scan(cnt: nat) returns (r: ScanResult)
      requires cnt >= 1
      ensures r == ScanSpec(Bits(), cnt)
    {
      ghost var b := Bits();
      var first := FirstClear();
      if first.None? {
        return NotFound;
      }
      forall q | 0 <= q < first.value ensures !Run(b, q, cnt) {
        assert b[q];
      }
      if cnt == 1 {
        assert Run(b, first.value, 1);
        return Found(first.value);
      }
      var nextBit, count := first.value + 1, 1;
      // left starts at length * 8 + 1, because position was overwritten with -1 before it is computed
      var left := bits.Length * 8 + 1;
      while left > 0
        invariant 1 <= nextBit && count < cnt && count <= nextBit <= |b|
        invariant left >= |b| - nextBit + 1
        invariant forall i :: nextBit - count <= i < nextBit ==> !b[i]
        invariant forall q: nat :: q < nextBit - count ==> !Run(b, q, cnt)
        decreases left
      {
        if nextBit >= 8 * bits.Length {
          return Panic;
        }
        var has := Has(nextBit);
        if !has {
          count := count + 1;
        } else {
          forall q: nat | nextBit - count <= q < nextBit + 1 ensures !Run(b, q, cnt) {
            assert q + cnt > nextBit && b[nextBit];
          }
          count := 0;
        }
        if count == cnt {
          var position := nextBit - cnt + 1;
          assert Run(b, position, cnt);
          return Found(position);
        }
        nextBit := nextBit + 1;
        left := left - 1;
      }
      assert false;
    }
  }
}
