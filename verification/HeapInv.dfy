/** The one invariant of the heap: arenas and blocks apart, counters and free lists in agreement. */
module HeapInv {
  import opened Pages
  import opened Heap

  // ---------------------------------------------------------------- the invariant

  function Span(ar: Arena): nat { if ar.Small? then 1 else ar.cnt }

  ghost predicate Extent(h: Heap, a: nat)
    requires a in h.arenas
  {
    Span(h.arenas[a]) >= 1 && forall j :: a <= j < a + Span(h.arenas[a]) ==> j in h.sp.pages
  }

  /** Arenas lie on mapped pages, and none starts inside another. */
  ghost predicate Extents(h: Heap) {
    && (forall a :: a in h.arenas ==> Extent(h, a))
    && (forall a, b :: a in h.arenas && b in h.arenas && a <= b < a + Span(h.arenas[a]) ==> a == b)
  }

  ghost predicate InArena(x: Addr, a: nat, c: nat) {
    exists k: nat :: k < PerArena(c) && x == Block(a, c, k)
  }

  /** A block handed out is a block of an arena, and holds what was asked for. */
  ghost predicate LiveOk(h: Heap, x: Addr)
    requires x in h.live
  {
    && ArenaOf(x) in h.arenas
    && match h.arenas[ArenaOf(x)]
       case Small(c, _) => InArena(x, ArenaOf(x), c) && 0 < h.live[x] <= Size(c)
       case Large(n) => x == Block(ArenaOf(x), 0, 0) && 0 < h.live[x] && HEADER + h.live[x] <= n * PG_SIZE
  }

  ghost predicate FreeBlock(h: Heap, c: nat, x: Addr) {
    && ArenaOf(x) in h.arenas && h.arenas[ArenaOf(x)].Small? && h.arenas[ArenaOf(x)].cls == c
    && InArena(x, ArenaOf(x), c) && x !in h.live
  }

  ghost predicate Distinct(s: seq<Addr>) { forall i, j :: 0 <= i < j < |s| ==> s[i] != s[j] }

  /** A free list holds exactly the free blocks of the arenas of its class, once each. */
  ghost predicate ListOk(h: Heap, c: nat)
    requires c < |h.lists|
  {
    Distinct(h.lists[c]) && forall x :: x in h.lists[c] <==> FreeBlock(h, c, x)
  }

  ghost function FreeIdx(live: map<Addr, nat>, a: nat, c: nat): set<nat> {
    set k: nat | 0 <= k < PerArena(c) && Block(a, c, k) !in live
  }

  /** The counter of a small arena is the number of its free blocks. */
  ghost predicate CountOk(h: Heap, a: nat)
    requires a in h.arenas
  {
    h.arenas[a].Small? ==> h.arenas[a].cls < CLASSES && h.arenas[a].cnt == |FreeIdx(h.live, a, h.arenas[a].cls)|
  }

  ghost predicate Core(h: Heap, rest: set<nat>) {
    && |h.lists| == CLASSES && Frames(h.m, h.sp, rest) && Covers(h.sp) && Extents(h)
    && (forall x :: x in h.live ==> LiveOk(h, x))
    && (forall c :: 0 <= c < CLASSES ==> ListOk(h, c))
    && (forall a :: a in h.arenas ==> CountOk(h, a))
  }

  /** An arena is in use: some block of it is out. */
  ghost predicate Busy(h: Heap, a: nat)
    requires a in h.arenas
  {
    match h.arenas[a]
    case Small(c, cnt) => cnt < PerArena(c)
    case Large(_) => Block(a, 0, 0) in h.live
  }

  ghost predicate HeapOk(h: Heap, rest: set<nat>) {
    Core(h, rest) && forall a :: a in h.arenas ==> Busy(h, a)
  }

  // ---------------------------------------------------------------- what it means

  /** Live blocks do not overlap, and none overlaps the header of an arena. */
  lemma LiveApart(h: Heap, rest: set<nat>, x: Addr, y: Addr)
    requires Core(h, rest) && x in h.live && y in h.live && x < y
    ensures x + h.live[x] <= y
  {
    hide Frames, Covers, ListOk, CountOk;
    assert LiveOk(h, x) && LiveOk(h, y);
    Inside(h, rest, x);
    Inside(h, rest, y);
    var a: nat, b: nat := ArenaOf(x), ArenaOf(y);
    if a != b {
      assert a < b;
      assert b >= a + Span(h.arenas[a]);
    } else if h.arenas[a].Small? {
      var c := h.arenas[a].cls;
      var j: nat :| j < PerArena(c) && x == Block(a, c, j);
      var k: nat :| k < PerArena(c) && y == Block(a, c, k);
      if j < k {
        BlocksApart(a, c, j, k);
      } else if k < j {
        BlocksApart(a, c, k, j);
      }
    }
  }

  /** A live block lies inside its arena, after the header. */
  lemma Inside(h: Heap, rest: set<nat>, x: Addr)
    requires Core(h, rest) && x in h.live
    ensures ArenaOf(x) in h.arenas && 0 < h.live[x]
    ensures var a: nat := ArenaOf(x);
      a * PG_SIZE + HEADER <= x && x + h.live[x] <= (a + Span(h.arenas[a])) * PG_SIZE
  {
    hide Frames, Covers, ListOk, CountOk, Extents;
    assert LiveOk(h, x);
    var a: nat := ArenaOf(x);
    if h.arenas[a].Small? {
      var c := h.arenas[a].cls;
      var k: nat :| k < PerArena(c) && x == Block(a, c, k);
      BlockFits(a, c, k);
    }
  }

  /** Headers and live blocks do not overlap. */
  lemma HeadersApart(h: Heap, rest: set<nat>, x: Addr, b: nat)
    requires Core(h, rest) && x in h.live && b in h.arenas
    ensures x + h.live[x] <= b * PG_SIZE || b * PG_SIZE + HEADER <= x
  {
    hide Frames, Covers, ListOk, CountOk;
    Inside(h, rest, x);
    var a: nat := ArenaOf(x);
    if a < b {
      assert b >= a + Span(h.arenas[a]);
    }
  }

  /** A small arena's counter is the number of its blocks on the free list of its class, and every
      block on a free list is a free block of one arena. */
  lemma CounterIsOnList(h: Heap, rest: set<nat>, a: nat)
    requires Core(h, rest) && a in h.arenas && h.arenas[a].Small?
    ensures var c := h.arenas[a].cls;
      c < CLASSES && |h.lists| == CLASSES && h.arenas[a].cnt == |set k: nat | 0 <= k < PerArena(c)
        && Block(a, c, k) in h.lists[c]|
  {
    hide Frames, Covers, Extents;
    assert CountOk(h, a);
    var c := h.arenas[a].cls;
    assert ListOk(h, c);
    forall k: nat | k < PerArena(c) ensures Block(a, c, k) in h.lists[c] <==> Block(a, c, k) !in h.live {
      BlockFits(a, c, k);
      assert InArena(Block(a, c, k), a, c);
      assert Block(a, c, k) in h.lists[c] <==> FreeBlock(h, c, Block(a, c, k));
    }
    assert FreeIdx(h.live, a, c) == set k: nat | 0 <= k < PerArena(c) && Block(a, c, k) in h.lists[c];
  }

  // ---------------------------------------------------------------- counting

  lemma IdxMinus(live: map<Addr, nat>, a: nat, c: nat, k: nat, size: nat)
    requires k < PerArena(c) && Block(a, c, k) !in live
    ensures |FreeIdx(live[Block(a, c, k) := size], a, c)| == |FreeIdx(live, a, c)| - 1
  {
    forall j: nat | j < PerArena(c) ensures Block(a, c, j) == Block(a, c, k) <==> j == k {
      if j < k {
        BlocksApart(a, c, j, k);
      } else if k < j {
        BlocksApart(a, c, k, j);
      }
    }
    assert FreeIdx(live[Block(a, c, k) := size], a, c) == FreeIdx(live, a, c) - {k};
  }

  lemma IdxPlus(live: map<Addr, nat>, a: nat, c: nat, k: nat)
    requires k < PerArena(c) && Block(a, c, k) in live
    ensures |FreeIdx(live - {Block(a, c, k)}, a, c)| == |FreeIdx(live, a, c)| + 1
  {
    forall j: nat | j < PerArena(c) ensures Block(a, c, j) == Block(a, c, k) <==> j == k {
      if j < k {
        BlocksApart(a, c, j, k);
      } else if k < j {
        BlocksApart(a, c, k, j);
      }
    }
    assert FreeIdx(live - {Block(a, c, k)}, a, c) == FreeIdx(live, a, c) + {k};
  }

  ghost function Upto(n: nat): (s: set<nat>)
    ensures |s| == n && forall k :: k in s <==> 0 <= k < n
  {
    if n == 0 then {} else Upto(n - 1) + {n - 1}
  }

  /** Every block is free exactly when the counter says so. */
  lemma IdxFull(live: map<Addr, nat>, a: nat, c: nat)
    ensures |FreeIdx(live, a, c)| <= PerArena(c)
    ensures |FreeIdx(live, a, c)| == PerArena(c) <==> forall k: nat :: k < PerArena(c) ==> Block(a, c, k) !in live
  {
    var all := Upto(PerArena(c));
    SubsetSize(FreeIdx(live, a, c), all);
    assert (forall k: nat :: k < PerArena(c) ==> Block(a, c, k) !in live) ==> FreeIdx(live, a, c) == all;
    if |FreeIdx(live, a, c)| == PerArena(c) {
      forall k: nat | k < PerArena(c) ensures Block(a, c, k) !in live {
        assert k in all;
      }
    }
  }

  lemma SubsetSize(s: set<nat>, t: set<nat>)
    requires s <= t
    ensures |s| <= |t| && (|s| == |t| ==> s == t)
  {
    assert t == s + (t - s);
    assert |t| == |s| + |t - s|;
  }

  // ---------------------------------------------------------------- a block goes out

  /** Only arena a, its blocks and list c may differ. */
  ghost predicate OnlyArena(h: Heap, h': Heap, a: nat, c: nat) {
    && |h.lists| == CLASSES && |h'.lists| == CLASSES && c < CLASSES
    && (forall d :: 0 <= d < CLASSES && d != c ==> h'.lists[d] == h.lists[d])
    && (forall b :: b != a ==> (b in h'.arenas <==> b in h.arenas) && (b in h.arenas ==> h'.arenas[b] == h.arenas[b]))
    && (forall x :: ArenaOf(x) != a ==> (x in h'.live <==> x in h.live) && (x in h.live ==> h'.live[x] == h.live[x]))
  }

  lemma OtherList(h: Heap, h': Heap, a: nat, c: nat, d: nat)
    requires OnlyArena(h, h', a, c) && d < CLASSES && ListOk(h, d) && h'.lists[d] == h.lists[d]
    requires a in h.arenas && h.arenas[a].Small? ==> h.arenas[a].cls != d
    requires a in h'.arenas && h'.arenas[a].Small? ==> h'.arenas[a].cls != d
    ensures ListOk(h', d)
  {
    forall x ensures FreeBlock(h', d, x) <==> FreeBlock(h, d, x) {
    }
  }

  lemma OtherCount(h: Heap, h': Heap, a: nat, c: nat, b: nat)
    requires OnlyArena(h, h', a, c) && b in h.arenas && b != a && CountOk(h, b)
    ensures CountOk(h', b)
    ensures Busy(h, b) ==> Busy(h', b)
  {
    if h.arenas[b].Small? {
      var d := h.arenas[b].cls;
      forall k: nat | k < PerArena(d) ensures Block(b, d, k) in h'.live <==> Block(b, d, k) in h.live {
        BlockFits(b, d, k);
      }
      assert FreeIdx(h'.live, b, d) == FreeIdx(h.live, b, d);
    } else {
      BlockFits(b, 0, 0);
    }
  }

  /** What holds of everything but arena a and list c carries over. */
  lemma RestKept(h: Heap, h': Heap, rest: set<nat>, a: nat, c: nat)
    requires Core(h, rest) && OnlyArena(h, h', a, c) && Frames(h'.m, h'.sp, rest) && Covers(h'.sp) && Extents(h')
    requires a in h.arenas && h.arenas[a].Small? ==> h.arenas[a].cls == c
    requires a in h'.arenas && h'.arenas[a].Small? ==> h'.arenas[a].cls == c
    requires forall x :: x in h'.live && ArenaOf(x) == a ==> LiveOk(h', x)
    requires ListOk(h', c) && (a in h'.arenas ==> CountOk(h', a))
    ensures Core(h', rest)
  {
    hide Frames, Covers, ListOk, CountOk, Extents;
    forall x | x in h'.live ensures LiveOk(h', x) {
      if ArenaOf(x) != a {
        assert LiveOk(h, x);
      }
    }
    forall d | 0 <= d < CLASSES ensures ListOk(h', d) {
      if d != c {
        OtherList(h, h', a, c, d);
      }
    }
    forall b | b in h'.arenas ensures CountOk(h', b) {
      if b != a {
        OtherCount(h, h', a, c, b);
      }
    }
  }

  lemma BusyKept(h: Heap, h': Heap, rest: set<nat>, a: nat, c: nat)
    requires Core(h, rest) && OnlyArena(h, h', a, c)
    ensures forall b :: b in h.arenas && b != a && Busy(h, b) ==> b in h'.arenas && Busy(h', b)
  {
    hide Frames, Covers, ListOk, CountOk, Extents, Busy, LiveOk;
    forall b | b in h.arenas && b != a && Busy(h, b) ensures b in h'.arenas && Busy(h', b) {
      OtherCount(h, h', a, c, b);
    }
  }

  /** The head of a free list is a free block of an arena of the class. */
  lemma HeadIsFree(h: Heap, rest: set<nat>, c: nat)
    requires Core(h, rest) && c < CLASSES && h.lists[c] != []
    ensures var x := h.lists[c][0];
      && FreeBlock(h, c, x) && h.arenas[ArenaOf(x)].cnt > 0
  {
    hide Frames, Covers, Extents;
    var x := h.lists[c][0];
    assert ListOk(h, c) && x in h.lists[c];
    var a: nat := ArenaOf(x);
    assert CountOk(h, a);
    var k: nat :| k < PerArena(c) && x == Block(a, c, k);
    IdxMinus(h.live, a, c, k, 1);
  }

  lemma TakeList(h: Heap, h': Heap, c: nat)
    requires c < |h.lists| == |h'.lists| && ListOk(h, c) && h.lists[c] != [] && h'.lists[c] == h.lists[c][1..]
    requires h'.live.Keys == h.live.Keys + {h.lists[c][0]} && h'.arenas.Keys == h.arenas.Keys
    requires forall a :: a in h.arenas ==> h'.arenas[a].Small? == h.arenas[a].Small? && (h.arenas[a].Small? ==>
      h'.arenas[a].cls == h.arenas[a].cls)
    ensures ListOk(h', c)
  {
    var x := h.lists[c][0];
    assert h.lists[c] == [x] + h'.lists[c];
    forall y ensures y in h'.lists[c] <==> y in h.lists[c] && y != x {
    }
    forall y ensures FreeBlock(h', c, y) <==> FreeBlock(h, c, y) && y != x {
    }
  }

  /** Handing out the head of a list keeps everything, and its arena is in use. */
  lemma TakeKeeps(h: Heap, rest: set<nat>, c: nat, size: nat)
    requires Core(h, rest) && c < CLASSES && h.lists[c] != [] && 0 < size <= Size(c)
    ensures ArenaOf(h.lists[c][0]) in h.arenas && h.arenas[ArenaOf(h.lists[c][0])].cnt > 0
    ensures var Got(h', x) := Take(h, c, size);
      && Core(h', rest) && x !in h.live && h'.live == h.live[x := size] && h'.arenas.Keys == h.arenas.Keys
      && (forall b :: b in h.arenas && (b == ArenaOf(x) || Busy(h, b)) ==> Busy(h', b))
      && h'.m == h.m && h'.sp == h.sp
  {
    hide Frames, Covers, ListOk, CountOk, Extents, LiveOk;
    HeadIsFree(h, rest, c);
    var Got(h', x) := Take(h, c, size);
    var a: nat := ArenaOf(x);
    assert ListOk(h, c);
    TakeList(h, h', c);
    SameExtents(h, h');
    TakeLive(h, h', rest, a, c, x, size);
    TakeCount(h, h', a, c, x, size);
    RestKept(h, h', rest, a, c);
    BusyKept(h, h', rest, a, c);
  }

  lemma TakeCount(h: Heap, h': Heap, a: nat, c: nat, x: Addr, size: nat)
    requires a in h.arenas && CountOk(h, a) && h.arenas[a].Small? && h.arenas[a].cls == c && h.arenas[a].cnt > 0
    requires InArena(x, a, c) && x !in h.live && h'.live == h.live[x := size]
    requires a in h'.arenas && h'.arenas[a] == Small(c, h.arenas[a].cnt - 1)
    ensures CountOk(h', a) && Busy(h', a)
  {
    var k: nat :| k < PerArena(c) && x == Block(a, c, k);
    IdxMinus(h.live, a, c, k, size);
    IdxFull(h.live, a, c);
  }

  lemma TakeLive(h: Heap, h': Heap, rest: set<nat>, a: nat, c: nat, x: Addr, size: nat)
    requires Core(h, rest) && a in h.arenas && h.arenas[a].Small? && h.arenas[a].cls == c && a in h'.arenas
      && h'.arenas[a].Small? && h'.arenas[a].cls == c
    requires InArena(x, a, c) && ArenaOf(x) == a && 0 < size <= Size(c) && h'.live == h.live[x := size]
    ensures forall y :: y in h'.live && ArenaOf(y) == a ==> LiveOk(h', y)
  {
    hide Frames, Covers, Extents, CountOk, ListOk;
    forall y | y in h'.live && ArenaOf(y) == a ensures LiveOk(h', y) {
      if y != x {
        assert LiveOk(h, y);
      }
    }
  }

  lemma SameExtents(h: Heap, h': Heap)
    requires Extents(h) && h'.sp.pages == h.sp.pages && h'.arenas.Keys == h.arenas.Keys
    requires forall a :: a in h.arenas ==> Span(h'.arenas[a]) == Span(h.arenas[a])
    ensures Extents(h')
  {
    forall a | a in h'.arenas ensures Extent(h', a) {
      assert Extent(h, a);
    }
  }
}
