/** sys_malloc and sys_free in the form kernel/memory.c has them: an object whose free lists and arena
    headers the loops below change, proved to do what the functions of `Heap` say. */
module HeapManager {
  import opened Paging
  import opened Pages
  import opened PoolLayout
  import PageManager
  import opened Heap
  import HeapSafety

  /** mem_block_init: block sizes and counts of the seven descriptors. */
  method MemBlockInit() returns (sizes: array<nat>, counts: array<nat>)
    ensures sizes[..] == [16, 32, 64, 128, 256, 512, 1024] && counts[..] == [255, 127, 63, 31, 15, 7, 3]
    ensures forall i: Index :: sizes[i] == BlockSize(i) && counts[i] == BlocksCnt(i)
  {
    sizes, counts := new nat[MEM_BLOCK_DESC_CNT], new nat[MEM_BLOCK_DESC_CNT];
    var blkSize := 16;
    var i := 0;
    while i < MEM_BLOCK_DESC_CNT
      invariant i <= MEM_BLOCK_DESC_CNT && (i < MEM_BLOCK_DESC_CNT ==> blkSize == BlockSize(i))
      invariant forall j: Index :: j < i ==> sizes[j] == BlockSize(j) && counts[j] == BlocksCnt(j)
    {
      sizes[i] := blkSize;
      counts[i] := (PAGE_SIZE - HEADER) / blkSize;
      blkSize := blkSize * 2 % 0x10000;
      i := i + 1;
    }
    assert forall j: Index :: sizes[j] == [16, 32, 64, 128, 256, 512, 1024][j];
    assert forall j: Index :: counts[j] == [255, 127, 63, 31, 15, 7, 3][j];
  }

  class KernelHeap {
    const memory: PageManager.Memory
    const ksize: nat
    const usize: nat
    var arenas: map<nat, Arena>
    var free: map<Desc, seq<nat>>

    ghost predicate Valid() { memory.Valid() }

    ghost function View(): HeapState
      reads this, memory, memory.Arrays()
    {
      HeapState(memory.View(), ksize, usize, arenas, free)
    }

    /** mem_init. */
    constructor (allMem: nat, userLength: nat)
      ensures Valid() && fresh(memory) && fresh(memory.Arrays())
      ensures View() == HeapSafety.BootHeap(allMem, userLength)
    {
      var l := MemPoolInit(allMem);
      memory := new PageManager.Memory(allMem, userLength);
      ksize, usize := l.kern.size, l.user.size;
      arenas, free := map[], map[];
    }

    function List(d: Desc): seq<nat>
      reads this`free
    {
      if d in free then free[d] else []
    }

    /** The loop of sys_malloc over the blocks of a new arena; false where its assertion fails. */
    method CutArena(page: nat, d: Desc) returns (ok: bool)
      modifies this`free
      ensures ok == old(CutBlocks(List(d), page, d.idx, 0)).Some?
      ensures ok ==> free == old(free)[d := old(CutBlocks(List(d), page, d.idx, 0)).value]
    {
      free := free[d := List(d)];
      var k := 0;
      while k < BlocksCnt(d.idx)
        invariant k <= BlocksCnt(d.idx) && d in free && free == old(free)[d := free[d]]
        invariant CutBlocks(free[d], page, d.idx, k) == old(CutBlocks(List(d), page, d.idx, 0))
      {
        var mb := Block(page, d.idx, k);
        if mb in free[d] {
          return false;
        }
        free := free[d := free[d] + [mb]];
        k := k + 1;
      }
      return true;
    }

    method NewArena(d: Desc) returns (r: Ptr)
      requires Valid()
      modifies this`arenas, this`free, memory`mem, memory`nullTables, memory`lost, memory.Arrays()
      ensures r == old(Heap.NewArena(View(), d)).1
      ensures !r.Halt? ==> View() == old(Heap.NewArena(View(), d)).0
    {
      hide Pages.MallocPage;
      var page := memory.MallocPage(d.flag, 1);
      if page.Halt? {
        return Ptr.Halt;
      }
      if page.Null? {
        return Ptr.Null;
      }
      arenas := arenas[page.page := Small(d, BlocksCnt(d.idx))];
      var ok := CutArena(page.page, d);
      return if ok then Ptr.Ptr(page.page * PAGE_SIZE) else Ptr.Halt;
    }

    method TakeBlock(d: Desc) returns (r: Ptr)
      requires List(d) != []
      modifies this`arenas, this`free
      ensures (View(), r) == old(Heap.TakeBlock(View(), d))
    {
      var mb := List(d)[0];
      var a := ArenaOf(mb);
      if a !in arenas || arenas[a].cnt == 0 {
        return Ptr.Halt;
      }
      free := free[d := List(d)[1..]];
      arenas := arenas[a := arenas[a].(cnt := arenas[a].cnt - 1)];
      return Ptr.Ptr(mb);
    }

    /** The first descriptor large enough, found by the loop of sys_malloc. */
    method FindClass(size: nat) returns (i: Index)
      requires size <= 1024
      ensures i == SizeClass(size)
    {
      var j: nat := 0;
      while j < MEM_BLOCK_DESC_CNT - 1 && size > BlockSize(j)
        invariant j < MEM_BLOCK_DESC_CNT
        invariant forall k: Index :: k < j ==> BlockSize(k) < size
      {
        j := j + 1;
      }
      i := j;
      ghost var c := SizeClass(size);
    }

    method SysMalloc(t: Flag, size: nat) returns (r: Ptr)
      requires Valid()
      modifies this`arenas, this`free, memory`mem, memory`nullTables, memory`lost, memory.Arrays()
      ensures r == old(Heap.SysMalloc(View(), t, size)).1
      ensures !r.Halt? ==> View() == old(Heap.SysMalloc(View(), t, size)).0
    {
      hide Pages.MallocPage, Heap.NewArena, Heap.TakeBlock;
      if size > (if t.Kernel? then ksize else usize) {
        return Ptr.Null;
      }
      if size > 1024 {
        var pageCnt := LargePages(size);
        var page := memory.MallocPage(t, pageCnt);
        if page.Halt? {
          return Ptr.Halt;
        }
        if page.Null? {
          return Ptr.Null;
        }
        arenas := arenas[page.page := Large(pageCnt)];
        return Ptr.Ptr(page.page * PAGE_SIZE + HEADER);
      }
      var i := FindClass(size);
      var d := Desc(t, i);
      if List(d) == [] {
        r := NewArena(d);
        if !r.Ptr? {
          return r;
        }
        if List(d) == [] {
          return Ptr.Halt;
        }
      }
      r := TakeBlock(d);
    }

    /** The loop of sys_free that takes an arena's blocks off the list. */
    method DropBlocks(a: nat, d: Desc)
      modifies this`free
      ensures free == old(free)[d := RemoveBlocks(old(List(d)), a, d.idx, 0)]
    {
      free := free[d := List(d)];
      var k := 0;
      while k < BlocksCnt(d.idx)
        invariant k <= BlocksCnt(d.idx) && d in free && free == old(free)[d := free[d]]
        invariant RemoveBlocks(free[d], a, d.idx, k) == RemoveBlocks(old(List(d)), a, d.idx, 0)
      {
        var mb := Block(a, d.idx, k);
        if mb in free[d] {
          free := free[d := RemoveOne(free[d], mb)];
        }
        k := k + 1;
      }
    }

    /** sys_free; false where the kernel stops or the pointer's header is not there. */
    method SysFree(t: Flag, ptr: nat) returns (ok: bool)
      requires Valid()
      modifies this`arenas, this`free, memory`mem, memory.Arrays()
      ensures ok == old(Heap.SysFree(View(), t, ptr)).Some?
      ensures ok ==> View() == old(Heap.SysFree(View(), t, ptr)).value
    {
      hide Pages.FreePage, Heap.RemoveBlocks;
      var a := ArenaOf(ptr);
      if a !in arenas {
        return false;
      }
      match arenas[a]
      case Large(cnt) =>
        ok := memory.FreePage(t, a, cnt);
        arenas := arenas - {a};
      case Small(d, cnt) =>
        free := free[d := List(d) + [ptr]];
        arenas := arenas[a := Small(d, cnt + 1)];
        if cnt + 1 == BlocksCnt(d.idx) {
          DropBlocks(a, d);
          ok := memory.FreePage(t, a, 1);
          arenas := arenas - {a};
        } else {
          ok := true;
        }
    }
  }
}
