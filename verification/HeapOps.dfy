/** sys_malloc and sys_free keep the invariant of the heap, in every run. */
module HeapOps {
  import opened Bitmap
  import opened Pages
  import opened PageInv
  import opened Heap
  import opened HeapInv

  // ---------------------------------------------------------------- new arenas

  /** Pages that were not mapped are in no arena and hold no block. */
  lemma Untouched(h: Heap, rest: set<nat>, a: nat)
    requires Core(h, rest) && a !in h.sp.pages
    ensures a !in h.arenas && forall x :: x in h.live ==> ArenaOf(x) != a
    ensures forall b :: b in h.arenas ==> !(b <= a < b + Span(h.arenas[b]))
  {
    hide Frames, Covers, ListOk, CountOk;
    forall b | b in h.arenas ensures !(b <= a < b + Span(h.arenas[b])) {
      assert Extent(h, b);
    }
    assert a in h.arenas ==> Extent(h, a);
    forall x | x in h.live ensures ArenaOf(x) != a {
      assert LiveOk(h, x);
    }
  }

  lemma NewExtents(h: Heap, h': Heap, rest: set<nat>, a: nat, n: nat)
    requires Core(h, rest) && n >= 1 && (forall j :: a <= j < a + n ==> j !in h.sp.pages && j in h'.sp.pages)
    requires (forall j :: j in h.sp.pages ==> j in h'.sp.pages)
    requires a in h'.arenas && Span(h'.arenas[a]) == n && h'.arenas == h.arenas[a := h'.arenas[a]]
    ensures Extents(h')
  {
    hide Frames, Covers, ListOk, CountOk;
    Untouched(h, rest, a);
    forall b | b in h'.arenas ensures Extent(h', b) {
      assert b != a ==> Extent(h, b);
    }
    forall b, d | b in h'.arenas && d in h'.arenas && b <= d < b + Span(h'.arenas[b]) ensures b == d {
      assert d != a ==> Extent(h, d) && d in h.sp.pages;
    }
  }

  lemma FreshBlocks(a: nat, c: nat)
    ensures Distinct(BlocksFrom(a, c, 0)) && |BlocksFrom(a, c, 0)| == PerArena(c)
    ensures forall x :: x in BlocksFrom(a, c, 0) <==> InArena(x, a, c)
    ensures forall x :: x in BlocksFrom(a, c, 0) ==> ArenaOf(x) == a
  {
    var s := BlocksFrom(a, c, 0);
    forall i, j | 0 <= i < j < |s| ensures s[i] != s[j] {
      BlocksApart(a, c, i, j);
    }
    forall x ensures x in s <==> InArena(x, a, c) {
      if InArena(x, a, c) {
        var k: nat :| k < PerArena(c) && x == Block(a, c, k);
        assert s[k] == x;
      }
    }
    forall x | x in s ensures ArenaOf(x) == a {
      var k: nat :| k < PerArena(c) && x == Block(a, c, k);
      BlockFits(a, c, k);
    }
  }

  /** A new arena puts all its blocks on the empty list of its class. */
  lemma NewArenaKeeps(h: Heap, rest: set<nat>, c: nat)
    requires Core(h, rest) && c < CLASSES && h.lists[c] == []
    ensures match NewArena(h, c)
      case Got(h', _) =>
        && Core(h', rest) && h'.live == h.live && h'.lists[c] != [] && |h'.arenas| == |h.arenas| + 1
        && (forall b :: b in h.arenas ==> b in h'.arenas && (Busy(h, b) ==> Busy(h', b)))
        && (forall b :: b in h'.arenas && b !in h.arenas ==> b == ArenaOf(h'.lists[c][0]))
      case Null(h') => Core(h', rest) && h' == h.(m := h'.m, sp := h'.sp)
      case Broken => h.sp.user
  {
    hide Core, FreeCount, FindRun, BlocksFrom, PerArena, Frames, Covers, GrewBy, MallocAt;
    var a := FindRun(h.sp.bits, 1);
    if a != -1 {
      PagesOk(h, rest);
      MallocExact(h.m, h.sp, rest, a, 1);
      OnePage(h, rest, a);
      match MallocAt(h.m, h.sp, a, 1)
      case Mapped(m, sp) =>
        assert h.lists[c] + BlocksFrom(a, c, 0) == BlocksFrom(a, c, 0);
        ArenaMade(h, NewArena(h, c).h, rest, a, c);
        MadeList(h, NewArena(h, c).h, rest, a, c);
      case NoFrame(m, sp) => PagesLost(h, rest, m, sp);
      case NoTable =>
    }
  }

  lemma OnePage(h: Heap, rest: set<nat>, a: nat)
    requires Core(h, rest) && FindRun(h.sp.bits, 1) == a
    ensures var o := MallocAt(h.m, h.sp, a, 1);
      o.Mapped? ==> forall j :: j in o.sp.pages <==> j in h.sp.pages || j == a
  {
    hide FindRun, Frames;
    PagesOk(h, rest);
    MallocExact(h.m, h.sp, rest, a, 1);
  }

  lemma PagesOk(h: Heap, rest: set<nat>)
    requires Core(h, rest)
    ensures |h.lists| == CLASSES && Frames(h.m, h.sp, rest) && Covers(h.sp)
  {
  }

  lemma PagesLost(h: Heap, rest: set<nat>, m: Mem, sp: Space)
    requires Core(h, rest) && Frames(m, sp, rest) && Covers(sp) && forall i :: i in h.sp.pages ==> i in sp.pages
    ensures Core(h.(m := m, sp := sp), rest)
    ensures forall b :: b in h.arenas && Busy(h, b) ==> Busy(h.(m := m, sp := sp), b)
  {
    hide Frames, Covers;
    var h' := h.(m := m, sp := sp);
    forall a | a in h'.arenas ensures Extent(h', a) {
      assert Extent(h, a);
    }
    forall x | x in h'.live ensures LiveOk(h', x) {
      assert LiveOk(h, x);
    }
    forall c | 0 <= c < CLASSES ensures ListOk(h', c) {
      assert ListOk(h, c);
      forall x ensures FreeBlock(h', c, x) <==> FreeBlock(h, c, x) {
      }
    }
    forall a | a in h'.arenas ensures CountOk(h', a) {
      assert CountOk(h, a);
    }
  }

  ghost predicate Made(h: Heap, h': Heap, a: nat, c: nat) {
    && c < CLASSES && |h.lists| == CLASSES && h.lists[c] == [] && a !in h.sp.pages
    && h' == h.(m := h'.m, sp := h'.sp, arenas := h.arenas[a := Small(c, PerArena(c))],
      lists := h.lists[c := BlocksFrom(a, c, 0)])
    && (forall j :: j in h'.sp.pages <==> j in h.sp.pages || j == a)
  }

  lemma ArenaMade(h: Heap, h': Heap, rest: set<nat>, a: nat, c: nat)
    requires Core(h, rest) && Made(h, h', a, c) && Frames(h'.m, h'.sp, rest) && Covers(h'.sp)
    ensures Core(h', rest) && forall b :: b in h.arenas ==> b in h'.arenas && (Busy(h, b) ==> Busy(h', b))
  {
    hide Frames, Covers, ListOk, CountOk, Extents, LiveOk, BlocksFrom, Core, PerArena;
    Untouched(h, rest, a);
    NewExtents(h, h', rest, a, 1);
    FreshList(h, h', rest, a, c);
    FreshCount(h', a, c);
    RestKept(h, h', rest, a, c);
    BusyKept(h, h', rest, a, c);
  }

  lemma MadeList(h: Heap, h': Heap, rest: set<nat>, a: nat, c: nat)
    requires Core(h, rest) && Made(h, h', a, c)
    ensures h'.lists[c] != [] && ArenaOf(h'.lists[c][0]) == a && |h'.arenas| == |h.arenas| + 1
  {
    hide Frames, Covers, ListOk, CountOk, Extents, LiveOk, BlocksFrom;
    Untouched(h, rest, a);
    FreshBlocks(a, c);
    assert h'.lists[c][0] in h'.lists[c];
    assert h'.arenas.Keys == h.arenas.Keys + {a};
  }

  lemma FreshCount(h: Heap, a: nat, c: nat)
    requires a in h.arenas && h.arenas[a] == Small(c, PerArena(c)) && c < CLASSES && forall x :: x in h.live ==>
      ArenaOf(x) != a
    ensures CountOk(h, a)
  {
    IdxFull(h.live, a, c);
    forall k: nat | k < PerArena(c) ensures Block(a, c, k) !in h.live {
      BlockFits(a, c, k);
    }
  }

  lemma FreshList(h: Heap, h': Heap, rest: set<nat>, a: nat, c: nat)
    requires Core(h, rest) && c < CLASSES && |h.lists| == CLASSES && h.lists[c] == [] && a !in h.arenas
    requires h'.live == h.live && h'.arenas == h.arenas[a := Small(c, PerArena(c))] && |h'.lists| == CLASSES
      && h'.lists[c] == BlocksFrom(a, c, 0)
    requires forall x :: x in h.live ==> ArenaOf(x) != a
    ensures ListOk(h', c)
  {
    hide Frames, Covers, Extents, CountOk;
    FreshBlocks(a, c);
    assert ListOk(h, c);
    forall x ensures x in h'.lists[c] <==> FreeBlock(h', c, x) {
      assert x in h.lists[c] <==> FreeBlock(h, c, x);
    }
  }

  lemma PagesForSize(size: nat)
    requires size > 0
    ensures PagesFor(size) >= 1 && HEADER + size <= PagesFor(size) * PG_SIZE
    ensures (PagesFor(size) - 1) * PG_SIZE < HEADER + size
  {
  }

  lemma MallocLargeKeeps(h: Heap, rest: set<nat>, size: nat)
    requires HeapOk(h, rest) && size > 0
    ensures match MallocLarge(h, size)
      case Got(h', x) => HeapOk(h', rest) && x !in h.live && h'.live == h.live[x := size]
      case Null(h') => HeapOk(h', rest) && h' == h.(m := h'.m, sp := h'.sp)
      case Broken => h.sp.user
  {
    hide Core, FreeCount, FindRun, PagesFor;
    var n := PagesFor(size);
    var a := FindRun(h.sp.bits, n);
    PagesForSize(size);
    if a != -1 {
      PagesOk(h, rest);
      MallocExact(h.m, h.sp, rest, a, n);
      match MallocAt(h.m, h.sp, a, n)
      case Mapped(m, sp) => LargeMade(h, rest, a, n, m, sp, size);
      case NoFrame(m, sp) => PagesLost(h, rest, m, sp);
      case NoTable =>
    }
  }

  lemma LargeMade(h: Heap, rest: set<nat>, a: nat, n: nat, m: Mem, sp: Space, size: nat)
    requires HeapOk(h, rest) && n >= 1 && 0 < size && HEADER + size <= n * PG_SIZE && Frames(m, sp, rest) && Covers(sp)
    requires forall j :: a <= j < a + n ==> j !in h.sp.pages
    requires forall j :: j in sp.pages <==> j in h.sp.pages || a <= j < a + n
    ensures var h' := h.(m := m, sp := sp, arenas := h.arenas[a := Large(n)], live := h.live[Block(a, 0, 0) := size]);
      HeapOk(h', rest) && Block(a, 0, 0) !in h.live
  {
    hide Frames, Covers, ListOk, CountOk, Extents;
    var x := Block(a, 0, 0);
    var h' := h.(m := m, sp := sp, arenas := h.arenas[a := Large(n)], live := h.live[x := size]);
    BlockFits(a, 0, 0);
    Untouched(h, rest, a);
    NewExtents(h, h', rest, a, n);
    assert OnlyArena(h, h', a, 0);
    OtherList(h, h', a, 0, 0);
    LargeCount(h', a);
    RestKept(h, h', rest, a, 0);
    BusyKept(h, h', rest, a, 0);
  }

  lemma LargeCount(h: Heap, a: nat)
    requires a in h.arenas && h.arenas[a].Large?
    ensures CountOk(h, a)
  {
  }

  // ---------------------------------------------------------------- freeing

  lemma GiveBackList(h: Heap, x: Addr, c: nat)
    requires ArenaOf(x) in h.arenas && h.arenas[ArenaOf(x)].Small? && h.arenas[ArenaOf(x)].cls == c && c < |h.lists|
    requires ListOk(h, c) && x in h.live && InArena(x, ArenaOf(x), c)
    ensures ListOk(GiveBack(h, x), c)
  {
    var h' := GiveBack(h, x);
    assert x in h.lists[c] <==> FreeBlock(h, c, x);
    forall y ensures FreeBlock(h', c, y) <==> FreeBlock(h, c, y) || y == x {
    }
  }

  /** A block that comes back is on its list and counted; its arena may now be unused. */
  lemma GiveBackKeeps(h: Heap, rest: set<nat>, x: Addr)
    requires Core(h, rest) && x in h.live && ArenaOf(x) in h.arenas && h.arenas[ArenaOf(x)].Small?
    ensures h.arenas[ArenaOf(x)].cls < |h.lists| && Core(GiveBack(h, x), rest)
    ensures forall b :: b in h.arenas && b != ArenaOf(x) && Busy(h, b) ==>
      b in GiveBack(h, x).arenas && Busy(GiveBack(h, x), b)
    ensures h.arenas[ArenaOf(x)].cnt < PerArena(h.arenas[ArenaOf(x)].cls)
  {
    hide Frames, Covers, ListOk, CountOk, Extents, LiveOk;
    var a: nat := ArenaOf(x);
    var c := h.arenas[a].cls;
    SmallIs(h, rest, x);
    var h' := GiveBack(h, x);
    GiveBackList(h, x, c);
    GiveBackCount(h, h', a, c, x);
    SameExtents(h, h');
    forall y | y in h'.live && ArenaOf(y) == a ensures LiveOk(h', y) {
      LiveStays(h, h', y);
    }
    assert OnlyArena(h, h', a, c);
    RestKept(h, h', rest, a, c);
    BusyKept(h, h', rest, a, c);
  }

  lemma SmallIs(h: Heap, rest: set<nat>, x: Addr)
    requires Core(h, rest) && x in h.live && ArenaOf(x) in h.arenas && h.arenas[ArenaOf(x)].Small?
    ensures |h.lists| == CLASSES && CountOk(h, ArenaOf(x)) && h.arenas[ArenaOf(x)].cls < CLASSES
    ensures InArena(x, ArenaOf(x), h.arenas[ArenaOf(x)].cls)
  {
    assert LiveOk(h, x) && CountOk(h, ArenaOf(x));
  }

  lemma LiveStays(h: Heap, h': Heap, y: Addr)
    requires y in h.live && LiveOk(h, y) && y in h'.live && h'.live[y] == h.live[y] && ArenaOf(y) in h'.arenas
    requires h.arenas[ArenaOf(y)].Small? && h'.arenas[ArenaOf(y)].Small?
      && h'.arenas[ArenaOf(y)].cls == h.arenas[ArenaOf(y)].cls
    ensures LiveOk(h', y)
  {
  }

  lemma GiveBackCount(h: Heap, h': Heap, a: nat, c: nat, x: Addr)
    requires a in h.arenas && CountOk(h, a) && h.arenas[a].Small? && h.arenas[a].cls == c && InArena(x, a, c)
      && x in h.live
    requires h'.live == h.live - {x} && a in h'.arenas && h'.arenas[a] == Small(c, h.arenas[a].cnt + 1)
    ensures CountOk(h', a) && h.arenas[a].cnt < PerArena(c)
  {
    var k: nat :| k < PerArena(c) && x == Block(a, c, k);
    IdxPlus(h.live, a, c, k);
    IdxFull(h'.live, a, c);
  }

  lemma {:induction false} RemoveOneIs(s: seq<Addr>, x: Addr)
    requires Distinct(s)
    ensures Distinct(RemoveOne(s, x)) && forall y :: y in RemoveOne(s, x) <==> y in s && y != x
  {
    if s != [] {
      assert s == [s[0]] + s[1..];
      if s[0] != x {
        RemoveOneIs(s[1..], x);
        assert s[0] !in RemoveOne(s[1..], x);
      }
    }
  }

  lemma {:induction false} RemoveBlocksIs(s: seq<Addr>, a: nat, c: nat, k: nat)
    requires Distinct(s)
    ensures var r := RemoveBlocks(s, a, c, k);
      Distinct(r) && forall y :: y in r <==> y in s && !(exists j: nat :: k <= j < PerArena(c) && y == Block(a, c, j))
    decreases PerArena(c) - k
  {
    if k < PerArena(c) {
      var s1 := RemoveOne(s, Block(a, c, k));
      RemoveOneIs(s, Block(a, c, k));
      RemoveBlocksIs(s1, a, c, k + 1);
      forall y ensures y in RemoveBlocks(s, a, c, k) <==>
        y in s && !(exists j: nat :: k <= j < PerArena(c) && y == Block(a, c, j)) {
        assert (exists j: nat :: k <= j < PerArena(c) && y == Block(a, c, j)) <==>
          y == Block(a, c, k) || (exists j: nat :: k + 1 <= j < PerArena(c) && y == Block(a, c, j));
      }
    }
  }

  lemma DropExtents(h: Heap, h': Heap, a: nat, n: nat)
    requires Extents(h) && a in h.arenas && Span(h.arenas[a]) == n && h'.arenas == h.arenas - {a}
    requires forall j :: j in h'.sp.pages <==> j in h.sp.pages && !(a <= j < a + n)
    ensures Extents(h')
  {
    assert Extent(h, a);
    forall b | b in h'.arenas ensures Extent(h', b) {
      assert Extent(h, b);
    }
  }

  /** All blocks of a small arena are free: its list gives them up and its page goes back. */
  ghost function DropSmall(h: Heap, a: nat, c: nat): Heap
    requires c < |h.lists| && CanUnmap(h.m, h.sp, a, 1)
  {
    DropArena(h.(lists := h.lists[c := RemoveBlocks(h.lists[c], a, c, 0)]), a, 1)
  }

  lemma DropSmallList(h: Heap, h': Heap, a: nat, c: nat)
    requires c < |h.lists| == |h'.lists| && ListOk(h, c) && a in h.arenas && h.arenas[a].Small? && h.arenas[a].cls == c
    requires h'.lists[c] == RemoveBlocks(h.lists[c], a, c, 0) && h'.live == h.live && h'.arenas == h.arenas - {a}
    ensures ListOk(h', c)
  {
    RemoveBlocksIs(h.lists[c], a, c, 0);
    forall y ensures y in h'.lists[c] <==> FreeBlock(h', c, y) {
      assert y in h.lists[c] <==> FreeBlock(h, c, y);
      if j: nat :| j < PerArena(c) && y == Block(a, c, j) {
        BlockFits(a, c, j);
      } else if ArenaOf(y) == a {
        assert !InArena(y, a, c);
      }
    }
  }

  lemma NothingLive(h: Heap, rest: set<nat>, a: nat, c: nat)
    requires Core(h, rest) && a in h.arenas && h.arenas[a] == Small(c, PerArena(c))
    ensures c < |h.lists| == CLASSES && forall x :: x in h.live ==> ArenaOf(x) != a
  {
    hide Frames, Covers, ListOk, Extents;
    assert CountOk(h, a);
    IdxFull(h.live, a, c);
    forall x | x in h.live ensures ArenaOf(x) != a {
      assert LiveOk(h, x);
      assert ArenaOf(x) == a ==> InArena(x, a, c);
    }
  }

  lemma DropSmallKeeps(h: Heap, rest: set<nat>, a: nat, c: nat)
    requires Core(h, rest) && a in h.arenas && h.arenas[a] == Small(c, PerArena(c))
    ensures c < |h.lists| && CanUnmap(h.m, h.sp, a, 1)
    ensures Core(DropSmall(h, a, c), rest)
    ensures forall b :: b in h.arenas && b != a && Busy(h, b) ==>
      b in DropSmall(h, a, c).arenas && Busy(DropSmall(h, a, c), b)
  {
    hide Frames, Covers, ListOk, CountOk, Extents, LiveOk, Busy, PerArena, RemoveBlocks, Unmap;
    PagesOk(h, rest);
    OnOnePage(h, rest, a);
    MfreeWorks(h.m, h.sp, rest, a, 1);
    NothingLive(h, rest, a, c);
    var h' := DropSmall(h, a, c);
    DropExtents(h, h', a, 1);
    DropSmallList(h, h', a, c);
    assert OnlyArena(h, h', a, c);
    RestKept(h, h', rest, a, c);
    BusyKept(h, h', rest, a, c);
  }

  lemma OnOnePage(h: Heap, rest: set<nat>, a: nat)
    requires Core(h, rest) && a in h.arenas
    ensures Extents(h) && forall j :: a <= j < a + Span(h.arenas[a]) ==> j in h.sp.pages
  {
    assert Extent(h, a);
  }

  /** A large block is its arena. */
  ghost function DropLarge(h: Heap, a: nat): Heap
    requires a in h.arenas && CanUnmap(h.m, h.sp, a, h.arenas[a].cnt)
  {
    DropArena(h, a, h.arenas[a].cnt).(live := h.live - {Block(a, 0, 0)})
  }

  lemma DropLargeKeeps(h: Heap, rest: set<nat>, a: nat)
    requires Core(h, rest) && a in h.arenas && h.arenas[a].Large?
    ensures CanUnmap(h.m, h.sp, a, h.arenas[a].cnt)
    ensures Core(DropLarge(h, a), rest)
    ensures forall b :: b in h.arenas && b != a && Busy(h, b) ==>
      b in DropLarge(h, a).arenas && Busy(DropLarge(h, a), b)
  {
    hide Frames, Covers, ListOk, CountOk, Extents, Busy, Unmap;
    PagesOk(h, rest);
    OnOnePage(h, rest, a);
    MfreeWorks(h.m, h.sp, rest, a, h.arenas[a].cnt);
    var h' := DropLarge(h, a);
    BlockFits(a, 0, 0);
    DropExtents(h, h', a, h.arenas[a].cnt);
    assert OnlyArena(h, h', a, 0);
    OtherList(h, h', a, 0, 0);
    forall x | x in h'.live ensures ArenaOf(x) != a {
      assert LiveOk(h, x);
    }
    RestKept(h, h', rest, a, 0);
    BusyKept(h, h', rest, a, 0);
  }
}
