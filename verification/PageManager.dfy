/** The page layer in the form kernel/memory.c has it: bitmaps updated bit by bit and page tables
    written through the self-map, each method proved to do what the functions of `Pages` say. */
module PageManager {
  import opened Wrappers
  import opened Bitmaps
  import opened Paging
  import opened Pages
  import opened PoolLayout

  class Memory {
    const kpool: Bitmap
    const upool: Bitmap
    const kvirt: Bitmap
    const uvirt: Bitmap
    const kpoolStart: nat
    const upoolStart: nat
    const kvirtStart: nat
    const uvirtStart: nat
    const dir: nat
    var mem: Mem
    ghost var lost: set<nat>
    ghost var nullTables: nat

    ghost predicate Valid() {
      kpool.bits != upool.bits && kpool.bits != kvirt.bits && kpool.bits != uvirt.bits
      && upool.bits != kvirt.bits && upool.bits != uvirt.bits && kvirt.bits != uvirt.bits
    }

    ghost function Arrays(): set<object> {
      {kpool.bits, upool.bits, kvirt.bits, uvirt.bits}
    }

    ghost function View(): State
      reads this, Arrays()
    {
      State(dir, mem,
                  Region(kpool.Bits(), kpoolStart), Region(upool.Bits(), upoolStart),
                  Region(kvirt.Bits(), kvirtStart), Region(uvirt.Bits(), uvirtStart),
                  lost, nullTables)
    }

    /** mem_pool_init over the loader's page directory, with room for a process's user range. */
    constructor (allMem: nat, userLength: nat)
      ensures Valid() && fresh(Arrays())
      ensures View() == BootState(allMem, userLength)
    {
      var l := MemPoolInit(allMem);
      kpool := new Bitmap(l.kern.length);
      upool := new Bitmap(l.user.length);
      kvirt := new Bitmap(l.vlength);
      uvirt := new Bitmap(userLength);
      kpoolStart := l.kern.phyStart / PAGE_SIZE;
      upoolStart := l.user.phyStart / PAGE_SIZE;
      kvirtStart := l.vstart / PAGE_SIZE;
      uvirtStart := 0x8048;
      dir := 0x100;
      mem := BootMem();
      lost := {};
      nullTables := 0;
      new;
    }

    function PoolMap(t: Flag): Bitmap { if t.Kernel? then kpool else upool }
    function PoolStart(t: Flag): nat { if t.Kernel? then kpoolStart else upoolStart }
    function VirtMap(t: Flag): Bitmap { if t.Kernel? then kvirt else uvirt }
    function VirtStart(t: Flag): nat { if t.Kernel? then kvirtStart else uvirtStart }

    method SetBits(t: Flag, pos: nat, cnt: nat)
      requires Valid() && pos + cnt <= 8 * VirtMap(t).bits.Length
      modifies VirtMap(t).bits
      ensures View() == old(Pages.WithVirt(View(), t,
                Virt(View(), t).(bits := SetRun(VirtMap(t).Bits(), pos, cnt, true))))
    {
      var i := 0;
      ghost var b := VirtMap(t).Bits();
      while i < cnt
        invariant i <= cnt && VirtMap(t).Bits() == SetRun(b, pos, i, true)
      {
        VirtMap(t).Set(pos + i);
        assert VirtMap(t).Bits() == SetRun(b, pos, i + 1, true);
        i := i + 1;
      }
    }

    method ClearBits(t: Flag, pos: nat, cnt: nat)
      requires Valid() && pos + cnt <= 8 * VirtMap(t).bits.Length
      modifies VirtMap(t).bits
      ensures View() == old(Pages.WithVirt(View(), t,
                Virt(View(), t).(bits := SetRun(VirtMap(t).Bits(), pos, cnt, false))))
    {
      var i := 0;
      ghost var b := VirtMap(t).Bits();
      while i < cnt
        invariant i <= cnt && VirtMap(t).Bits() == SetRun(b, pos, i, false)
      {
        VirtMap(t).Clear(pos + i);
        assert VirtMap(t).Bits() == SetRun(b, pos, i + 1, false);
        i := i + 1;
      }
    }

    method VaddrGet(t: Flag, cnt: nat) returns (r: Alloc)
      requires Valid() && cnt >= 1
      modifies this`lost, VirtMap(t).bits
      ensures (View(), r) == old(Pages.VaddrGet(View(), t, cnt))
    {
      hide Pages.Reserve;
      var scan := VirtMap(t).Scan(cnt);
      match scan
      case NotFound => return Null;
      case Panic => return Halt;
      case Found(pos) =>
        assert Run(VirtMap(t).Bits(), pos, cnt);
        r := Reserve(t, pos, cnt);
    }

    /** The loop of vaddr_get over the run the scan found, and its range assertion. */
    method Reserve(t: Flag, pos: nat, cnt: nat) returns (r: Alloc)
      requires Valid() && pos + cnt <= 8 * VirtMap(t).bits.Length
      modifies this`lost, VirtMap(t).bits
      ensures (View(), r) == old(Pages.Reserve(View(), t, pos, cnt))
    {
      SetBits(t, pos, cnt);
      var page := VirtStart(t) + pos;
      if t.User? && page * PAGE_SIZE >= 0xc0000000 - PAGE_SIZE {
        return Halt;
      }
      lost := lost + PageSet(page, cnt);
      return Page(page);
    }

    method Palloc(t: Flag) returns (r: Option<nat>)
      requires Valid()
      modifies PoolMap(t).bits
      ensures (View(), r) == old(Pages.Palloc(View(), t))
    {
      var scan := PoolMap(t).Scan(1);
      if scan.Found? {
        assert Run(PoolMap(t).Bits(), scan.pos, 1);
        PoolMap(t).Set(scan.pos);
        return Some(PoolStart(t) + scan.pos);
      }
      return None;
    }

    /** page_table_add; false where the kernel stops, and then nothing more is claimed. */
    method PageTableAdd(page: nat, frame: nat) returns (ok: bool)
      requires Valid()
      modifies this`mem, this`nullTables, kpool.bits
      ensures ok == old(Pages.PageTableAdd(View(), page, frame)).Some?
      ensures ok ==> View() == old(Pages.PageTableAdd(View(), page, frame)).value
    {
      var va := page * PAGE_SIZE;
      var pde := Target(mem, dir, PdePtr(va));
      if pde.None? {
        return false;
      }
      if !Present(Load(mem, pde.value.frame, pde.value.index)) {
        var table := Palloc(Kernel);
        mem := Store(mem, pde.value.frame, pde.value.index, Entry(if table.Some? then table.value else 0));
        var pte := Target(mem, dir, PtePtr(va));
        if pte.None? {
          return false;
        }
        mem := ZeroFrame(mem, pte.value.frame);
        nullTables := if table.Some? then nullTables else nullTables + 1;
      }
      var pte := Target(mem, dir, PtePtr(va));
      if pte.None? || Present(Load(mem, pte.value.frame, pte.value.index)) {
        return false;
      }
      mem := Store(mem, pte.value.frame, pte.value.index, Entry(frame));
      return true;
    }

    /** malloc_page's loop over the run from `page` on; it ends at the page after the run. */
    method MapPages(t: Flag, page: nat, cnt: nat) returns (r: Alloc)
      requires Valid()
      modifies this`mem, this`nullTables, kpool.bits, upool.bits
      ensures var s := old(Pages.MapPages(View(), t, page, cnt));
              r == s.1 && (!r.Halt? ==> View() == s.0)
    {
      hide Pages.PageTableAdd, Pages.Palloc;
      var i := 0;
      while i < cnt
        invariant i <= cnt
        invariant Pages.MapPages(View(), t, page + i, cnt - i) == old(Pages.MapPages(View(), t, page, cnt))
      {
        var frame := Palloc(t);
        if frame.None? {
          return Null;
        }
        var ok := PageTableAdd(page + i, frame.value);
        if !ok {
          return Halt;
        }
        i := i + 1;
      }
      return Page(page + cnt);
    }

    method MallocPage(t: Flag, cnt: nat) returns (r: Alloc)
      requires Valid()
      modifies this`mem, this`nullTables, this`lost, Arrays()
      ensures var s := old(Pages.MallocPage(View(), t, cnt));
              r == s.1 && (!r.Halt? ==> View() == s.0)
    {
      if !(0 < cnt < 3840) {
        return Halt;
      }
      var v := VaddrGet(t, cnt);
      if !v.Page? {
        return v;
      }
      r := MapPages(t, v.page, cnt);
      if r.Page? {
        lost := lost - PageSet(v.page, cnt);
        r := v;
      }
    }

    method Pfree(t: Flag, frame: nat) returns (ok: bool)
      requires Valid()
      modifies PoolMap(t).bits
      ensures ok == old(Pages.Pfree(View(), t, frame)).Some?
      ensures ok ==> View() == old(Pages.Pfree(View(), t, frame)).value
    {
      // on unsigned numbers a frame below the pool wraps to a position past its end
      if frame < PoolStart(t) || frame - PoolStart(t) >= 8 * PoolMap(t).bits.Length {
        return false;
      }
      PoolMap(t).Clear(frame - PoolStart(t));
      return true;
    }

    method PageTableRemove(page: nat) returns (ok: bool)
      requires Valid()
      modifies this`mem
      ensures ok == old(Pages.PageTableRemove(View(), page)).Some?
      ensures ok ==> View() == old(Pages.PageTableRemove(View(), page)).value
    {
      var va := page * PAGE_SIZE;
      var pde := Target(mem, dir, PdePtr(va));
      var pte := Target(mem, dir, PtePtr(va));
      if pde.None? || pte.None? || !Present(Load(mem, pde.value.frame, pde.value.index)) {
        return false;
      }
      var word := Load(mem, pte.value.frame, pte.value.index);
      mem := Store(mem, pte.value.frame, pte.value.index, word - word % 2);
      return true;
    }

    /** One round of free_page's loop. */
    method UnmapOne(t: Flag, page: nat) returns (ok: bool)
      requires Valid()
      modifies this`mem, PoolMap(t).bits
      ensures ok == old(Pages.UnmapOne(View(), t, page)).Some?
      ensures ok ==> View() == old(Pages.UnmapOne(View(), t, page)).value
    {
      hide Pages.Pfree, Pages.PageTableRemove, VaddrToPhy;
      var paddr := VaddrToPhy(mem, dir, page * PAGE_SIZE);
      if paddr.None? {
        return false;
      }
      ok := Pfree(t, paddr.value / PAGE_SIZE);
      if ok {
        ok := PageTableRemove(page);
      }
    }

    method FreePage(t: Flag, page: nat, cnt: nat) returns (ok: bool)
      requires Valid()
      modifies this`mem, PoolMap(t).bits, VirtMap(t).bits
      ensures ok == old(Pages.FreePage(View(), t, page, cnt)).Some?
      ensures ok ==> View() == old(Pages.FreePage(View(), t, page, cnt)).value
    {
      hide Pages.UnmapOne;
      if !(0 < cnt < 3840) || page < VirtStart(t) || page + cnt > VirtStart(t) + 8 * VirtMap(t).bits.Length {
        return false;
      }
      ClearBits(t, page - VirtStart(t), cnt);
      var i := 0;
      while i < cnt
        invariant i <= cnt
        invariant Pages.UnmapPages(View(), t, page + i, cnt - i) == old(Pages.FreePage(View(), t, page, cnt))
      {
        var done := UnmapOne(t, page + i);
        if !done {
          return false;
        }
        i := i + 1;
      }
      return true;
    }
  }
}
