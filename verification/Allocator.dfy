/** malloc_page, mfree_page, sys_malloc and sys_free as they run, on the fields they change. */
module Allocator {
  import opened Bitmap
  import opened Pages
  import opened Heap
  import opened HeapInv
  import opened HeapOps
  import opened HeapRuns

  datatype PageResult = At(page: nat) | NoPage | NoPageTable

  datatype Reply = To(x: Addr) | NoBlock | Lost

  class Memory {
    var m: Mem
    var sp: Space
    var arenas: map<nat, Arena>
    var lists: seq<seq<Addr>>
    ghost var live: map<Addr, nat>

    ghost function H(): Heap
      reads this
    {
      Heap(m, sp, arenas, lists, live)
    }

    /** The loops of vaddr_get and vaddr_remove. */
    method SetBits(start: nat, cnt: nat, v: bool)
      requires start + cnt <= |sp.bits|
      modifies this`sp
      ensures sp == old(sp).(bits := SetRange(old(sp).bits, start, cnt, v))
    {
      var i := 0;
      while i < cnt
        invariant 0 <= i <= cnt && sp == old(sp).(bits := sp.bits) && sp.bits == SetRange(old(sp).bits, start, i, v)
      {
        sp := sp.(bits := sp.bits[start + i := v]);
        i := i + 1;
      }
    }

    /** malloc_page. */
    method MallocPage(cnt: nat) returns (r: PageResult)
      requires cnt > 0
      modifies this`m, this`sp
      ensures var start := FindRun(old(sp).bits, cnt);
        if start == -1 then r == NoPage && m == old(m) && sp == old(sp)
        else match MallocAt(old(m), old(sp), start, cnt)
          case Mapped(m', sp') => r == At(start) && m == m' && sp == sp'
          case NoFrame(m', sp') => r == NoPage && m == m' && sp == sp'
          case NoTable => r == NoPageTable
    {
      var start := FindRun(sp.bits, cnt);
      if start == -1 {
        return NoPage;
      }
      assert ClearRun(sp.bits, start, cnt);
      SetBits(start, cnt, true);
      var page, left := start, cnt;
      while left > 0
        invariant page == start + (cnt - left) && 0 <= left <= cnt
        invariant MapPages(m, sp, page, left) == MallocAt(old(m), old(sp), start, cnt)
      {
        match MapPage(m, sp, page) {
          case Mapped(m1, sp1) => m, sp := m1, sp1;
          case NoFrame(m1, sp1) =>
            m, sp := m1, sp1;
            return NoPage;
          case NoTable => return NoPageTable;
        }
        page, left := page + 1, left - 1;
      }
      return At(start);
    }

    /** mfree_page. */
    method MfreePage(start: nat, cnt: nat)
      requires CanUnmap(m, sp, start, cnt) && start + cnt <= |sp.bits|
      modifies this`m, this`sp
      ensures (m, sp) == Pages.MfreePage(old(m), old(sp), start, cnt)
    {
      var page, left := start, cnt;
      while left > 0
        invariant page == start + (cnt - left) && 0 <= left <= cnt && |sp.bits| == |old(sp).bits|
        invariant CanUnmap(m, sp, page, left) && Unmap(m, sp, page, left) == Unmap(old(m), old(sp), start, cnt)
      {
        var f := sp.pages[page];
        m := Pfree(m, f);
        sp := sp.(pages := sp.pages - {page});
        page, left := page + 1, left - 1;
      }
      SetBits(start, cnt, false);
    }

    /** The loop that puts the blocks of a new arena on the list. */
    method AppendBlocks(a: nat, c: nat)
      requires c < |lists|
      modifies this`lists
      ensures lists == old(lists)[c := old(lists)[c] + BlocksFrom(a, c, 0)]
    {
      var k := 0;
      while k < PerArena(c)
        invariant 0 <= k <= PerArena(c) && |lists| == |old(lists)|
        invariant lists == old(lists)[c := lists[c]]
          && lists[c] + BlocksFrom(a, c, k) == old(lists)[c] + BlocksFrom(a, c, 0)
      {
        assert BlocksFrom(a, c, k) == [Block(a, c, k)] + BlocksFrom(a, c, k + 1);
        assert lists[c] + BlocksFrom(a, c, k) == lists[c] + [Block(a, c, k)] + BlocksFrom(a, c, k + 1);
        lists := lists[c := lists[c] + [Block(a, c, k)]];
        k := k + 1;
      }
      assert BlocksFrom(a, c, k) == [] && lists[c] + [] == lists[c];
    }

    /** The loop that takes the blocks of an arena off the list. */
    method RemoveAll(a: nat, c: nat)
      requires c < |lists|
      modifies this`lists
      ensures lists == old(lists)[c := RemoveBlocks(old(lists)[c], a, c, 0)]
    {
      var k := 0;
      while k < PerArena(c)
        invariant 0 <= k <= PerArena(c) && |lists| == |old(lists)|
        invariant lists == old(lists)[c := lists[c]]
          && RemoveBlocks(lists[c], a, c, k) == RemoveBlocks(old(lists)[c], a, c, 0)
      {
        lists := lists[c := RemoveOne(lists[c], Block(a, c, k))];
        k := k + 1;
      }
    }

    /** The loop that picks the smallest block size that is enough. */
    method PickClass(size: nat) returns (c: nat)
      requires size <= 1024
      ensures c == ClassOf(size, 0)
    {
      c := 0;
      while size > Size(c)
        invariant c < CLASSES && ClassOf(size, c) == ClassOf(size, 0)
        decreases CLASSES - c
      {
        c := c + 1;
      }
    }

    method GrowClass(c: nat) returns (r: PageResult)
      requires c < |lists|
      modifies this`m, this`sp, this`arenas, this`lists
      ensures match NewArena(old(H()), c)
        case Got(h, _) => r.At? && H() == h
        case Null(h) => r == NoPage && H() == h
        case Broken => r == NoPageTable
    {
      hide FindRun, MapPages, BlocksFrom, SetRange, PerArena;
      r := MallocPage(1);
      if r.At? {
        arenas := arenas[r.page := Small(c, PerArena(c))];
        AppendBlocks(r.page, c);
      }
    }

    /** sys_malloc. */
    method SysMalloc(size: nat, poolSize: nat, ghost rest: set<nat>) returns (r: Reply)
      requires HeapOk(H(), rest)
      modifies this
      ensures match Malloc(old(H()), rest, size, poolSize)
        case Got(h, x) => r == To(x) && H() == h
        case Null(h) => r == NoBlock && H() == h
        case Broken => r == Lost
      ensures 0 < size < poolSize && HasRoom(old(H()), size) ==> r.To?
    {
      hide Core, Busy, NewArena, FindRun, MallocAt, HasRoom;
      RoomMeansBlock(H(), rest, size, poolSize);
      if !(0 < size < poolSize) {
        return NoBlock;
      }
      if size > 1024 {
        PagesForSize(size);
        var n := PagesFor(size);
        var p := MallocPage(n);
        match p {
          case NoPage => return NoBlock;
          case NoPageTable => return Lost;
          case At(a) =>
            arenas := arenas[a := Large(n)];
            live := live[Block(a, 0, 0) := size];
            return To(Block(a, 0, 0));
        }
      }
      var c := PickClass(size);
      ClassExists(H(), rest, c);
      if lists[c] == [] {
        NewArenaKeeps(H(), rest, c);
        var p := GrowClass(c);
        if p.NoPage? {
          return NoBlock;
        } else if p.NoPageTable? {
          return Lost;
        }
        ClassExists(H(), rest, c);
      }
      HeadIsFree(H(), rest, c);
      var x := lists[c][0];
      lists := lists[c := lists[c][1..]];
      var a := ArenaOf(x);
      arenas := arenas[a := arenas[a].(cnt := arenas[a].cnt - 1)];
      live := live[x := size];
      return To(x);
    }

    /** sys_free of a block that is out. */
    method SysFree(x: Addr, ghost rest: set<nat>)
      requires HeapOk(H(), rest) && x in live
      modifies this
      ensures H() == Free(old(H()), rest, x)
    {
      hide Core, Busy, Pages.MfreePage, RemoveBlocks, PerArena;
      Inside(H(), rest, x);
      var a := ArenaOf(x);
      if arenas[a].Large? {
        DropLargeKeeps(H(), rest, a);
        LargeAddr(H(), rest, x);
        PagesInside(H(), rest, a);
        MfreePage(a, arenas[a].cnt);
        arenas := arenas - {a};
        live := live - {x};
      } else {
        GiveBackKeeps(H(), rest, x);
        var c := arenas[a].cls;
        lists := lists[c := lists[c] + [x]];
        arenas := arenas[a := Small(c, arenas[a].cnt + 1)];
        live := live - {x};
        if arenas[a].cnt == PerArena(c) {
          DropSmallKeeps(H(), rest, a, c);
          PagesInside(H(), rest, a);
          RemoveAll(a, c);
          MfreePage(a, 1);
          arenas := arenas - {a};
        }
      }
    }
  }

  lemma PagesInside(h: Heap, rest: set<nat>, a: nat)
    requires Core(h, rest) && a in h.arenas
    ensures a + Span(h.arenas[a]) <= |h.sp.bits|
  {
    assert Extent(h, a);
    assert a + Span(h.arenas[a]) - 1 in h.sp.pages;
  }
}
