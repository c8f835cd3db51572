/** Taking a block off a free list and putting one back: the steps of sys_malloc and sys_free that
    touch one arena's counter and one list. */
module HeapBlocks {
  import opened Paging
  import opened Pages
  import opened Heap
  import PageAlloc

  /** A block lies in its arena's page after the header, and masking its address gives the arena. */
  lemma BlockInPage(a: nat, i: Index, k: nat)
    requires k < BlocksCnt(i)
    ensures ArenaOf(Block(a, i, k)) == a
    ensures a * PAGE_SIZE + HEADER <= Block(a, i, k)
    ensures Block(a, i, k) + BlockSize(i) <= (a + 1) * PAGE_SIZE
  {
    BlockEnd(i, k);
    var off := Block(a, i, k) - a * PAGE_SIZE;
    assert 0 <= off < PAGE_SIZE;
    assert (a * PAGE_SIZE + off) / PAGE_SIZE == a;
  }

  lemma BlockEnd(i: Index, k: nat)
    requires k < BlocksCnt(i)
    ensures HEADER + k * BlockSize(i) + BlockSize(i) <= PAGE_SIZE
  {
    if i == 0 {} else if i == 1 {} else if i == 2 {} else if i == 3 {}
    else if i == 4 {} else if i == 5 {} else {}
  }

  /** Two blocks of one arena do not overlap. */
  lemma BlocksApart(a: nat, i: Index, k: nat, l: nat)
    requires k < l
    ensures Block(a, i, k) + BlockSize(i) <= Block(a, i, l)
  {
    var s := BlockSize(i);
    assert (k + 1) * s <= l * s by { MulMono(k + 1, l, s); }
    assert (k + 1) * s == k * s + s;
  }

  lemma MulMono(x: nat, y: nat, s: nat)
    requires x <= y
    ensures x * s <= y * s
  {
  }

  lemma BlockInjective(a: nat, i: Index, k: nat, l: nat)
    requires Block(a, i, k) == Block(a, i, l)
    ensures k == l
  {
    if k < l { BlocksApart(a, i, k, l); } else if l < k { BlocksApart(a, i, l, k); }
  }

  /** Blocks of different arenas differ. */
  lemma BlocksOfArenas(a: nat, i: Index, k: nat, b: nat, j: Index, l: nat)
    requires k < BlocksCnt(i) && l < BlocksCnt(j) && a != b
    ensures Block(a, i, k) != Block(b, j, l)
  {
    BlockInPage(a, i, k);
    BlockInPage(b, j, l);
  }

  // ---- Taking a block ----

  lemma TakeShape(h: HeapState, d: Desc) returns (a: nat, k: nat)
    requires FreeOk(h) && FreeList(h, d) != []
    ensures var x := FreeList(h, d)[0];
            a == ArenaOf(x) && IsBlock(h, a, k, x) && h.arenas[a].desc == d && h.arenas[a].cnt > 0
            && TakeBlock(h, d) == (
                WithFree(h, d, FreeList(h, d)[1..]).(arenas := h.arenas[a := Small(d, h.arenas[a].cnt - 1)]),
                Ptr.Ptr(x))
    ensures k in FreeOf(h, a)
  {
    var x := FreeList(h, d)[0];
    assert x in FreeList(h, d) && OwnBlock(h, d, x);
    a := ArenaOf(x);
    k :| IsBlock(h, a, k, x);
    assert k in FreeOf(h, a);
    assert FreeOf(h, a) != {};
  }

  lemma TakeFreeOf(h: HeapState, h': HeapState, d: Desc, a: nat, k: nat, b: nat)
    requires FreeOk(h) && FreeList(h, d) != [] && IsBlock(h, a, k, FreeList(h, d)[0]) && h.arenas[a].desc == d
    requires h' == WithFree(h, d, FreeList(h, d)[1..]).(arenas := h'.arenas) && h.arenas[a].cnt > 0
    requires h'.arenas == h.arenas[a := Small(d, h.arenas[a].cnt - 1)]
    requires b in h.arenas && h.arenas[b].Small?
    ensures FreeOf(h', b) == if b == a then FreeOf(h, a) - {k} else FreeOf(h, b)
  {
    var s, e := FreeList(h, d), h.arenas[b].desc;
    assert s == [s[0]] + s[1..];
    forall l: nat | l < BlocksCnt(e.idx)
      ensures Block(b, e.idx, l) in FreeList(h', e) <==> Block(b, e.idx, l) in FreeList(h, e) && !(b == a && l == k)
    {
      if e == d {
        if b == a {
          if l != k && Block(a, d.idx, l) == s[0] { BlockInjective(a, d.idx, l, k); }
        } else {
          BlocksOfArenas(a, d.idx, k, b, e.idx, l);
        }
        assert s[0] !in s[1..];
      }
    }
  }

  lemma TakeKeepsCounts(h: HeapState, d: Desc)
    requires FreeOk(h) && FreeList(h, d) != []
    ensures Counts(TakeBlock(h, d).0)
  {
    var a, k := TakeShape(h, d);
    var h' := TakeBlock(h, d).0;
    forall b: nat | b in h'.arenas && h'.arenas[b].Small? ensures h'.arenas[b].cnt == |FreeOf(h', b)| {
      TakeFreeOf(h, h', d, a, k, b);
    }
  }

  lemma TakeKeepsLists(h: HeapState, d: Desc)
    requires FreeOk(h) && FreeList(h, d) != []
    ensures ListsNoDup(TakeBlock(h, d).0) && ListsOwn(TakeBlock(h, d).0)
  {
    hide Counts, Block, BlocksCnt;
    var a, k := TakeShape(h, d);
    var h' := TakeBlock(h, d).0;
    assert FreeList(h', d) == FreeList(h, d)[1..];
    forall e: Desc ensures NoDup(FreeList(h', e)) {
      if e != d { assert FreeList(h', e) == FreeList(h, e); }
    }
    forall e: Desc, x: nat | x in FreeList(h', e) ensures OwnBlock(h', e, x) {
      assert x in FreeList(h, e);
      OwnBlockTransfer(h, h', e, x);
    }
  }

  /** Whose block an address is depends only on the arenas' descriptors. */
  lemma OwnBlockTransfer(h: HeapState, h': HeapState, d: Desc, x: nat)
    requires OwnBlock(h, d, x) && ArenaOf(x) in h'.arenas && h'.arenas[ArenaOf(x)].Small?
    requires h'.arenas[ArenaOf(x)].desc == d
    ensures OwnBlock(h', d, x)
  {
    var l: nat :| IsBlock(h, ArenaOf(x), l, x);
    assert IsBlock(h', ArenaOf(x), l, x);
  }

  lemma TakeKeepsLive(h: HeapState, live: map<nat, Object>, d: Desc, o: Object)
    requires FreeOk(h) && LiveOk(h, live) && FreeList(h, d) != []
    requires o.flag == d.flag && o.size <= BlockSize(d.idx)
    ensures LiveOk(TakeBlock(h, d).0, live[FreeList(h, d)[0] := o])
  {
    hide Counts, ListsOwn, Block, BlocksCnt;
    var a, k := TakeShape(h, d);
    var s := FreeList(h, d);
    var x0 := s[0];
    var h' := TakeBlock(h, d).0;
    var live' := live[x0 := o];
    assert s == [x0] + s[1..] && x0 !in s[1..];
    forall x: nat | x in live' ensures LiveObject(h', x, live'[x]) {
      if x == x0 {
        assert IsBlock(h', a, k, x);
      } else {
        assert LiveObject(h, x, live[x]);
        LiveTransfer(h, h', x, live[x]);
      }
    }
    forall b: nat, l: nat, x: nat | IsBlock(h', b, l, x)
      ensures x in FreeList(h', h'.arenas[b].desc) || x in live'
    {
      assert IsBlock(h, b, l, x);
    }
  }

  /** Taking the first block of a non-empty list makes it live and keeps everything else. */
  lemma TakeKeeps(h: HeapState, own: map<nat, Use>, live: map<nat, Object>, d: Desc, o: Object)
    requires Core(h, own, live) && FreeList(h, d) != []
    requires o.flag == d.flag && o.size <= BlockSize(d.idx)
    ensures var (h', r) := TakeBlock(h, d);
            var x := FreeList(h, d)[0];
            && r == Ptr.Ptr(x) && x !in live && Core(h', own, live[x := o])
            && ArenaOf(x) in h.arenas && h.arenas[ArenaOf(x)].Small? && h.arenas[ArenaOf(x)].cnt > 0
            && h'.arenas == h.arenas[ArenaOf(x) := Small(d, h.arenas[ArenaOf(x)].cnt - 1)]
            && h'.pages == h.pages
  {
    hide Inv, ListsNoDup, ListsOwn, Counts, LiveOk, ArenaOk, ArenasOk;
    var a, k := TakeShape(h, d);
    TakeKeepsCounts(h, d);
    TakeKeepsLists(h, d);
    TakeKeepsLive(h, live, d, o);
    TakeFresh(h, live, d);
    assert h.arenas[a].cnt <= BlocksCnt(d.idx) by { ArenaCount(h, a); }
    CountChange(h, TakeBlock(h, d).0, a, h.arenas[a].cnt - 1);
  }

  lemma ArenaCount(h: HeapState, a: nat)
    requires ArenasOk(h) && a in h.arenas && h.arenas[a].Small?
    ensures h.arenas[a].cnt <= BlocksCnt(h.arenas[a].desc.idx)
  {
    assert ArenaOk(h.pages, a, h.arenas[a]);
  }

  lemma TakeFresh(h: HeapState, live: map<nat, Object>, d: Desc)
    requires FreeOk(h) && LiveOk(h, live) && FreeList(h, d) != []
    ensures FreeList(h, d)[0] !in live
  {
    var a, k := TakeShape(h, d);
    assert FreeList(h, d)[0] in live ==> LiveObject(h, FreeList(h, d)[0], live[FreeList(h, d)[0]]);
  }

  // ---- Putting a block back ----

  lemma {:induction false} PageSetSize(page: nat, cnt: nat)
    ensures |PageSet(page, cnt)| == cnt
  {
    if cnt > 0 { PageSetSize(page, cnt - 1); }
  }

  /** A set of block indices has at most as many elements as there are blocks, and all of them when
      it has as many. */
  lemma IndexSet(s: set<nat>, n: nat)
    requires forall k: nat :: k in s ==> k < n
    ensures |s| <= n
    ensures |s| == n ==> forall k: nat :: k < n ==> k in s
  {
    PageSetSize(0, n);
    var all := PageSet(0, n);
    assert s <= all;
    SubsetSize(s, all);
  }

  lemma {:induction false} SubsetSize(s: set<nat>, t: set<nat>)
    requires s <= t
    ensures |s| <= |t|
    ensures |s| == |t| ==> s == t
  {
    if s != {} {
      var x :| x in s;
      SubsetSize(s - {x}, t - {x});
    }
  }

  /** The block a live small object occupies. */
  lemma LiveBlock(h: HeapState, live: map<nat, Object>, ptr: nat) returns (k: nat)
    requires LiveOk(h, live) && ptr in live && h.arenas[ArenaOf(ptr)].Small?
    ensures IsBlock(h, ArenaOf(ptr), k, ptr) && ptr !in FreeList(h, h.arenas[ArenaOf(ptr)].desc)
    ensures live[ptr].flag == h.arenas[ArenaOf(ptr)].desc.flag
  {
    assert LiveObject(h, ptr, live[ptr]);
    k :| IsBlock(h, ArenaOf(ptr), k, ptr);
  }

  lemma PutFreeOf(h: HeapState, ptr: nat, k: nat, b: nat)
    requires IsBlock(h, ArenaOf(ptr), k, ptr) && ptr !in FreeList(h, h.arenas[ArenaOf(ptr)].desc)
    requires b in h.arenas && h.arenas[b].Small?
    ensures FreeOf(PutBlock(h, ptr), b) == if b == ArenaOf(ptr) then FreeOf(h, b) + {k} else FreeOf(h, b)
    ensures k !in FreeOf(h, ArenaOf(ptr))
  {
    var h' := PutBlock(h, ptr);
    var a := ArenaOf(ptr);
    var d, e := h.arenas[a].desc, h.arenas[b].desc;
    forall l: nat | l < BlocksCnt(e.idx)
      ensures Block(b, e.idx, l) in FreeList(h', e) <==> Block(b, e.idx, l) in FreeList(h, e) || (b == a && l == k)
    {
      if e == d {
        if b == a {
          if Block(a, d.idx, l) == ptr { BlockInjective(a, d.idx, l, k); }
        } else {
          BlocksOfArenas(a, d.idx, k, b, e.idx, l);
        }
      }
    }
  }

  lemma PutKeepsCounts(h: HeapState, live: map<nat, Object>, ptr: nat)
    requires FreeOk(h) && LiveOk(h, live) && ptr in live && h.arenas[ArenaOf(ptr)].Small?
    ensures Counts(PutBlock(h, ptr))
    ensures h.arenas[ArenaOf(ptr)].cnt < BlocksCnt(h.arenas[ArenaOf(ptr)].desc.idx)
  {
    var k := LiveBlock(h, live, ptr);
    var a, h' := ArenaOf(ptr), PutBlock(h, ptr);
    forall b: nat | b in h'.arenas && h'.arenas[b].Small? ensures h'.arenas[b].cnt == |FreeOf(h', b)| {
      PutFreeOf(h, ptr, k, b);
    }
    IndexSet(FreeOf(h', a), BlocksCnt(h.arenas[a].desc.idx));
  }

  lemma PutKeepsLists(h: HeapState, live: map<nat, Object>, ptr: nat)
    requires FreeOk(h) && LiveOk(h, live) && ptr in live && h.arenas[ArenaOf(ptr)].Small?
    ensures ListsNoDup(PutBlock(h, ptr)) && ListsOwn(PutBlock(h, ptr))
  {
    hide Counts, Block, BlocksCnt;
    var k := LiveBlock(h, live, ptr);
    var a, h' := ArenaOf(ptr), PutBlock(h, ptr);
    var d := h.arenas[a].desc;
    assert IsBlock(h', a, k, ptr);
    assert FreeList(h', d) == FreeList(h, d) + [ptr];
    forall e: Desc ensures NoDup(FreeList(h', e)) {
      if e != d { assert FreeList(h', e) == FreeList(h, e); }
    }
    forall e: Desc, x: nat | x in FreeList(h', e) ensures OwnBlock(h', e, x) {
      if e != d || x != ptr {
        assert x in FreeList(h, e);
        OwnBlockTransfer(h, h', e, x);
      }
    }
  }

  /** An object stays what it is while its arena's descriptor does, and its block is not freed. */
  lemma LiveTransfer(h: HeapState, h': HeapState, x: nat, o: Object)
    requires LiveObject(h, x, o) && ArenaOf(x) in h'.arenas
    requires match h.arenas[ArenaOf(x)]
             case Small(d, _) => h'.arenas[ArenaOf(x)].Small? && h'.arenas[ArenaOf(x)].desc == d
                 && x !in FreeList(h', d)
             case Large(cnt) => h'.arenas[ArenaOf(x)] == Large(cnt)
    requires PageAlloc.SameShape(h.pages, h'.pages)
    ensures LiveObject(h', x, o)
  {
    var b := ArenaOf(x);
    if h.arenas[b].Small? {
      var l: nat :| IsBlock(h, b, l, x);
      assert IsBlock(h', b, l, x);
    }
  }

  lemma PutKeepsLive(h: HeapState, live: map<nat, Object>, ptr: nat)
    requires FreeOk(h) && LiveOk(h, live) && ptr in live && h.arenas[ArenaOf(ptr)].Small?
    ensures LiveOk(PutBlock(h, ptr), live - {ptr})
  {
    hide Counts, ListsNoDup, ListsOwn, Block, BlocksCnt;
    var k := LiveBlock(h, live, ptr);
    var h' := PutBlock(h, ptr);
    var live' := live - {ptr};
    forall x: nat | x in live' ensures LiveObject(h', x, live'[x]) {
      assert LiveObject(h, x, live[x]);
      LiveTransfer(h, h', x, live[x]);
    }
    forall a: nat, l: nat, x: nat | IsBlock(h', a, l, x)
      ensures x in FreeList(h', h'.arenas[a].desc) || x in live'
    {
      assert IsBlock(h, a, l, x);
      if x == ptr { BlockArena(h, a, l, x); }
    }
    LargeNotInSmall(h, ptr);
  }

  lemma BlockArena(h: HeapState, a: nat, k: nat, x: nat)
    requires IsBlock(h, a, k, x)
    ensures ArenaOf(x) == a
  {
    BlockInPage(a, h.arenas[a].desc.idx, k);
  }

  lemma LargeNotInSmall(h: HeapState, ptr: nat)
    requires ArenaOf(ptr) in h.arenas && h.arenas[ArenaOf(ptr)].Small?
    ensures forall a: nat :: a in h.arenas && h.arenas[a].Large? ==> a * PAGE_SIZE + HEADER != ptr
  {
    forall a: nat ensures ArenaOf(a * PAGE_SIZE + HEADER) == a {}
  }

  /** Changing one small arena's counter. */
  lemma CountChange(h: HeapState, h': HeapState, a: nat, n: nat)
    requires ArenasOk(h) && h'.pages == h.pages && a in h.arenas && h.arenas[a].Small?
    requires h'.arenas == h.arenas[a := Small(h.arenas[a].desc, n)] && n <= BlocksCnt(h.arenas[a].desc.idx)
    ensures ArenasOk(h')
  {
    assert forall b: nat :: b in h'.arenas ==> b in h.arenas && Span(h'.arenas[b]) == Span(h.arenas[b]);
    forall b: nat | b in h'.arenas ensures ArenaOk(h'.pages, b, h'.arenas[b]) {
      assert ArenaOk(h.pages, b, h.arenas[b]);
    }
  }

  /** Putting a live block back makes it free and keeps everything else; its arena's counter stays
      within the number of its blocks. */
  lemma PutKeeps(h: HeapState, own: map<nat, Use>, live: map<nat, Object>, ptr: nat)
    requires Core(h, own, live) && ptr in live && h.arenas[ArenaOf(ptr)].Small?
    ensures Core(PutBlock(h, ptr), own, live - {ptr})
    ensures h.arenas[ArenaOf(ptr)].cnt < BlocksCnt(h.arenas[ArenaOf(ptr)].desc.idx)
  {
    assert LiveObject(h, ptr, live[ptr]);
    hide Inv, ListsNoDup, ListsOwn, Counts, LiveOk, ArenaOk, ArenasOk;
    PutKeepsCounts(h, live, ptr);
    PutKeepsLists(h, live, ptr);
    PutKeepsLive(h, live, ptr);
    var a := ArenaOf(ptr);
    CountChange(h, PutBlock(h, ptr), a, h.arenas[a].cnt + 1);
  }
}
