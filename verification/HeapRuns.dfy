/** Runs of sys_malloc and sys_free: what always holds, and what freeing everything restores. */
module HeapRuns {
  import opened Bitmap
  import opened Pages
  import opened PageInv
  import opened Heap
  import opened HeapInv
  import opened HeapOps

  // ---------------------------------------------------------------- the two calls

  /** sys_malloc.  poolSize is the size in bytes of the pool the caller draws from. */
  ghost function Malloc(h: Heap, rest: set<nat>, size: nat, poolSize: nat): Result
    requires HeapOk(h, rest)
  {
    if !(0 < size < poolSize) then Null(h)
    else if size > 1024 then MallocLarge(h, size)
    else
      var c := ClassOf(size, 0);
      if h.lists[c] != [] then HeadIsFree(h, rest, c); Take(h, c, size)
      else
        NewArenaKeeps(h, rest, c);
        match NewArena(h, c)
        case Got(h1, _) => HeadIsFree(h1, rest, c); Take(h1, c, size)
        case o => o
  }

  /** sys_free of a block that is out. */
  ghost function Free(h: Heap, rest: set<nat>, x: Addr): Heap
    requires HeapOk(h, rest) && x in h.live
  {
    Inside(h, rest, x);
    var a := ArenaOf(x);
    match h.arenas[a]
    case Large(_) => DropLargeKeeps(h, rest, a); DropLarge(h, a)
    case Small(c, _) =>
      GiveBackKeeps(h, rest, x);
      var h1 := GiveBack(h, x);
      if h1.arenas[a].cnt == PerArena(c) then DropSmallKeeps(h1, rest, a, c); DropSmall(h1, a, c) else h1
  }

  /** sys_malloc keeps the heap in order whatever happens; a block it returns is new. */
  lemma MallocKeeps(h: Heap, rest: set<nat>, size: nat, poolSize: nat)
    requires HeapOk(h, rest)
    ensures match Malloc(h, rest, size, poolSize)
      case Got(h', x) => HeapOk(h', rest) && x !in h.live && h'.live == h.live[x := size]
      case Null(h') => HeapOk(h', rest) && h' == h.(m := h'.m, sp := h'.sp)
      case Broken => h.sp.user
  {
    hide Core, Busy, Take, NewArena, MallocLarge;
    if 0 < size < poolSize {
      if size > 1024 {
        MallocLargeKeeps(h, rest, size);
      } else {
        var c := ClassOf(size, 0);
        ClassExists(h, rest, c);
        if h.lists[c] != [] {
          TakeKeeps(h, rest, c, size);
          TakenFrom(h, c, size);
        } else {
          NewArenaKeeps(h, rest, c);
          match NewArena(h, c)
          case Got(h1, _) =>
            ClassExists(h1, rest, c);
            TakeKeeps(h1, rest, c, size);
            TakenFrom(h1, c, size);
          case Null(h1) => NullIsFine(h, h1, rest);
          case Broken =>
        }
      }
    }
  }

  // ---------------------------------------------------------------- when sys_malloc returns a block

  /** Class c is the smallest whose blocks hold size bytes. */
  ghost predicate Suits(size: nat, c: nat) {
    c < CLASSES && size <= Size(c) && forall b :: 0 <= b < c ==> Size(b) < size
  }

  /** Some arena of the class that suits has a block left. */
  ghost predicate HasRoom(h: Heap, size: nat) {
    exists a :: a in h.arenas && h.arenas[a].Small? && h.arenas[a].cnt > 0 && Suits(size, h.arenas[a].cls)
  }

  /** One page for blocks of up to 1024 bytes, and for more the fewest that hold them and the header. */
  predicate Needs(size: nat, n: nat) {
    if size <= 1024 then n == 1 else (n - 1) * PG_SIZE < size + HEADER <= n * PG_SIZE
  }

  /** n pages are wanted: NULL exactly if there is no run of them, or no frame for each; otherwise the first
      block behind the header of the leftmost run, whose pages are taken.  Where page tables are short the
      code loses its way. */
  ghost predicate FromPages(h: Heap, n: nat, r: Result) {
    var a := FindRun(h.sp.bits, n);
    if a == -1 then r == Null(h)
    else if Starves(h.m, h.sp, a, n) then r.Broken?
    else if FreeCount(Own(h.m, h.sp).bits) < n then r.Null?
    else r.Got? && r.x == a * PG_SIZE + HEADER && r.h.sp.bits == SetRange(h.sp.bits, a, n, true)
  }

  /** A block of an arena that has one: the first on the list, and no page is touched. */
  ghost predicate FromArena(h: Heap, size: nat, r: Result) {
    && r.Got? && r.h.m == h.m && r.h.sp == h.sp && ArenaOf(r.x) in h.arenas && |r.h.lists| == |h.lists|
    && h.arenas[ArenaOf(r.x)].Small?
    && var c := h.arenas[ArenaOf(r.x)].cls;
    Suits(size, c) && c < |h.lists| && h.lists[c] == [r.x] + r.h.lists[c]
  }

  /** What sys_malloc answers, by what arenas, bitmap and pools have. */
  lemma MallocAnswers(h: Heap, rest: set<nat>, size: nat, poolSize: nat, n: nat)
    requires HeapOk(h, rest) && Needs(size, n)
    ensures var r := Malloc(h, rest, size, poolSize);
      if size == 0 || size >= poolSize then r == Null(h)
      else if HasRoom(h, size) then FromArena(h, size, r) else FromPages(h, n, r)
  {
    hide Core, Busy, Frames, Covers, FromPages, FromArena, NewArena, MallocLarge, Take, Needs, HasRoom;
    if 0 < size < poolSize {
      if size > 1024 {
        NoSmallRoom(h, size);
        LargeAnswers(h, rest, size, n);
      } else {
        var c := ClassOf(size, 0);
        PagesOk(h, rest);
        RoomIsListed(h, rest, size, c);
        if h.lists[c] != [] {
          HeadIsFree(h, rest, c);
          ListAnswers(h, size, c);
        } else {
          assert n == 1 by { OnePage(size, n); }
          ArenaAnswers(h, rest, size, c);
        }
      }
    }
  }

  lemma OnePage(size: nat, n: nat)
    requires size <= 1024 && Needs(size, n)
    ensures n == 1
  {
  }

  lemma NoSmallRoom(h: Heap, size: nat)
    requires size > 1024
    ensures !HasRoom(h, size)
  {
  }

  lemma SuitsOne(size: nat, c: nat, b: nat)
    requires Suits(size, c) && Suits(size, b)
    ensures b == c
  {
  }

  /** Arenas of the class with a block left, and blocks on the list, come together. */
  lemma RoomIsListed(h: Heap, rest: set<nat>, size: nat, c: nat)
    requires Core(h, rest) && c < CLASSES && Suits(size, c) && |h.lists| == CLASSES
    ensures HasRoom(h, size) <==> h.lists[c] != []
  {
    hide Core, Suits, PerArena;
    if h.lists[c] != [] {
      HeadIsFree(h, rest, c);
      assert h.arenas[ArenaOf(h.lists[c][0])].cls == c;
    }
    if a :| a in h.arenas && h.arenas[a].Small? && h.arenas[a].cnt > 0 && Suits(size, h.arenas[a].cls) {
      SuitsOne(size, c, h.arenas[a].cls);
      CounterIsOnList(h, rest, a);
      var listed := set k: nat | 0 <= k < PerArena(c) && Block(a, c, k) in h.lists[c];
      assert listed != {};
      var k :| k in listed;
    }
  }

  lemma ListAnswers(h: Heap, size: nat, c: nat)
    requires c < |h.lists| && h.lists[c] != [] && Suits(size, c)
    requires ArenaOf(h.lists[c][0]) in h.arenas && h.arenas[ArenaOf(h.lists[c][0])].Small?
    requires h.arenas[ArenaOf(h.lists[c][0])].cls == c && h.arenas[ArenaOf(h.lists[c][0])].cnt > 0
    ensures FromArena(h, size, Take(h, c, size))
  {
    hide Suits;
    assert h.lists[c] == [h.lists[c][0]] + h.lists[c][1..];
  }

  lemma LargeAnswers(h: Heap, rest: set<nat>, size: nat, n: nat)
    requires Core(h, rest) && size > 1024 && Needs(size, n)
    ensures FromPages(h, n, MallocLarge(h, size))
  {
    hide Core, FindRun, MallocAt, FreeCount, Starves, PagesFor, Frames, Covers, GrewBy;
    PagesForSize(size);
    assert n == PagesFor(size) by { FewestPages(size, n, PagesFor(size)); }
    if FindRun(h.sp.bits, n) != -1 {
      PagesOk(h, rest);
      MallocExact(h.m, h.sp, rest, FindRun(h.sp.bits, n), n);
    }
  }

  lemma FewestPages(size: nat, n: nat, k: nat)
    requires (n - 1) * PG_SIZE < size + HEADER <= n * PG_SIZE && (k - 1) * PG_SIZE < size + HEADER <= k * PG_SIZE
    ensures n == k
  {
  }

  lemma ArenaAnswers(h: Heap, rest: set<nat>, size: nat, c: nat)
    requires HeapOk(h, rest) && c < CLASSES && |h.lists| == CLASSES && h.lists[c] == []
    ensures match NewArena(h, c)
      case Got(h1, _) => Core(h1, rest) && |h1.lists| == CLASSES && h1.lists[c] != []
        && ArenaOf(h1.lists[c][0]) in h1.arenas && h1.arenas[ArenaOf(h1.lists[c][0])].cnt > 0
        && FromPages(h, 1, Take(h1, c, size))
      case o => FromPages(h, 1, o)
  {
    hide Core, FindRun, MallocAt, FreeCount, Starves, Frames, Covers, GrewBy, BlocksFrom, PerArena;
    NewArenaKeeps(h, rest, c);
    var a := FindRun(h.sp.bits, 1);
    if a != -1 {
      PagesOk(h, rest);
      MallocExact(h.m, h.sp, rest, a, 1);
    }
    match NewArena(h, c)
    case Got(h1, _) =>
      ClassExists(h1, rest, c);
      HeadIsFree(h1, rest, c);
      assert h1.lists[c] == BlocksFrom(a, c, 0);
      assert h1.lists[c][0] == Block(a, c, 0);
    case o =>
  }

  /** With a block left there is no failure. */
  lemma RoomMeansBlock(h: Heap, rest: set<nat>, size: nat, poolSize: nat)
    requires HeapOk(h, rest)
    ensures 0 < size < poolSize && HasRoom(h, size) ==> Malloc(h, rest, size, poolSize).Got?
  {
    hide HeapOk, Malloc, PagesFor, FromPages;
    if 0 < size < poolSize && HasRoom(h, size) {
      MallocAnswers(h, rest, size, poolSize, 1);
    }
  }

  /** sys_malloc loses its way exactly if no arena has a block, malloc_page finds a run of pages and starves
      for page tables. */
  lemma BrokenExact(h: Heap, rest: set<nat>, size: nat, poolSize: nat, n: nat)
    requires HeapOk(h, rest) && Needs(size, n)
    ensures Malloc(h, rest, size, poolSize).Broken? <==>
      && 0 < size < poolSize && !HasRoom(h, size)
      && FindRun(h.sp.bits, n) != -1 && Starves(h.m, h.sp, FindRun(h.sp.bits, n), n)
  {
    hide HeapOk, Malloc, HasRoom, Needs, FindRun, Starves, FreeCount;
    MallocAnswers(h, rest, size, poolSize, n);
  }

  lemma ClassExists(h: Heap, rest: set<nat>, c: nat)
    requires Core(h, rest) && c < CLASSES
    ensures c < |h.lists|
  {
  }

  lemma TakenFrom(h: Heap, c: nat, size: nat)
    requires c < |h.lists| && h.lists[c] != [] && ArenaOf(h.lists[c][0]) in h.arenas
      && h.arenas[ArenaOf(h.lists[c][0])].cnt > 0
    ensures Take(h, c, size).Got? && Take(h, c, size).x == h.lists[c][0]
  {
  }

  lemma NullIsFine(h: Heap, h': Heap, rest: set<nat>)
    requires HeapOk(h, rest) && Core(h', rest) && h' == h.(m := h'.m, sp := h'.sp)
    ensures HeapOk(h', rest)
  {
    hide Core;
    forall a | a in h'.arenas ensures Busy(h', a) {
      assert Busy(h, a);
    }
  }

  /** sys_free takes the block back and keeps the heap in order. */
  lemma FreeKeeps(h: Heap, rest: set<nat>, x: Addr)
    requires HeapOk(h, rest) && x in h.live
    ensures HeapOk(Free(h, rest, x), rest) && Free(h, rest, x).live == h.live - {x}
    ensures var h' := Free(h, rest, x);
      ArenaOf(x) in h'.arenas ==>
        && ArenaOf(x) in h.arenas && h.arenas[ArenaOf(x)].Small? && h.arenas[ArenaOf(x)].cls < |h.lists|
        && h'.m == h.m && h'.sp == h.sp
        && h'.lists == h.lists[h.arenas[ArenaOf(x)].cls := h.lists[h.arenas[ArenaOf(x)].cls] + [x]]
  {
    hide Core;
    Inside(h, rest, x);
    var a: nat := ArenaOf(x);
    if h.arenas[a].Large? {
      DropLargeKeeps(h, rest, a);
      LargeAddr(h, rest, x);
    } else {
      GiveBackKeeps(h, rest, x);
      var h1, c := GiveBack(h, x), h.arenas[a].cls;
      if h1.arenas[a].cnt == PerArena(c) {
        DropSmallKeeps(h1, rest, a, c);
      }
    }
  }

  lemma LargeAddr(h: Heap, rest: set<nat>, x: Addr)
    requires Core(h, rest) && x in h.live && ArenaOf(x) in h.arenas && h.arenas[ArenaOf(x)].Large?
    ensures x == Block(ArenaOf(x), 0, 0)
  {
    assert LiveOk(h, x);
  }

  // ---------------------------------------------------------------- every run

  /** One call.  Nothing is said of a heap that is not in order: that there is none in a run is proved. */
  ghost predicate Next(h: Heap, h': Heap, rest: set<nat>) {
    HeapOk(h, rest) ==>
       ((exists size, poolSize :: var r := Malloc(h, rest, size, poolSize); !r.Broken? && h' == r.h)
        || (exists x :: x in h.live && h' == Free(h, rest, x)))
  }

  ghost predicate Start(h: Heap, rest: set<nat>) {
    && Sound(h.m, h.sp, rest) && h.arenas == map[] && h.live == map[]
    && |h.lists| == CLASSES && forall c :: 0 <= c < CLASSES ==> h.lists[c] == []
  }

  ghost predicate IsRun(run: seq<Heap>, rest: set<nat>) {
    run != [] && Start(run[0], rest) && forall i :: 0 <= i < |run| - 1 ==> Next(run[i], run[i + 1], rest)
  }

  lemma StartHolds(h: Heap, rest: set<nat>)
    requires Start(h, rest)
    ensures HeapOk(h, rest)
  {
    hide Frames;
    forall c | 0 <= c < CLASSES ensures ListOk(h, c) {
    }
  }

  lemma NextKeeps(h: Heap, h': Heap, rest: set<nat>)
    requires HeapOk(h, rest) && Next(h, h', rest)
    ensures HeapOk(h', rest)
  {
    hide HeapOk, Malloc, Free;
    if size, poolSize :| var r := Malloc(h, rest, size, poolSize); !r.Broken? && h' == r.h {
      MallocKeeps(h, rest, size, poolSize);
    } else {
      var x :| x in h.live && h' == Free(h, rest, x);
      FreeKeeps(h, rest, x);
    }
  }

  lemma {:induction false} RunKeeps(run: seq<Heap>, rest: set<nat>, i: nat)
    requires IsRun(run, rest) && i < |run|
    ensures HeapOk(run[i], rest)
  {
    hide HeapOk, Next, Start;
    if i == 0 {
      StartHolds(run[0], rest);
    } else {
      RunKeeps(run, rest, i - 1);
      NextKeeps(run[i - 1], run[i], rest);
    }
  }

  /** In every run of sys_malloc and valid sys_free, failed calls included: live blocks are apart,
      hold what was asked for, and lie clear of every arena header; a small arena's counter is the
      number of its blocks on the free list of its class, and that list is exactly the free blocks
      of the arenas of the class, once each. */
  lemma HeapIsSafe(run: seq<Heap>, rest: set<nat>, i: nat)
    requires IsRun(run, rest) && i < |run|
    ensures var h := run[i];
      && |h.lists| == CLASSES
      && (forall x, y :: x in h.live && y in h.live && x < y ==> x + h.live[x] <= y)
      && (forall x, b :: x in h.live && b in h.arenas ==> x + h.live[x] <= b * PG_SIZE || b * PG_SIZE + HEADER <= x)
      && (forall x :: x in h.live ==>
        ArenaOf(x) in h.arenas && x + h.live[x] <= (ArenaOf(x) + Span(h.arenas[ArenaOf(x)])) * PG_SIZE)
      && (forall a :: a in h.arenas ==> CountOk(h, a))
      && (forall c :: 0 <= c < CLASSES ==> ListOk(h, c))
  {
    hide Next, Start, ListOk, CountOk, Extents, LiveOk, Frames, Covers;
    RunKeeps(run, rest, i);
    var h := run[i];
    forall x, y | x in h.live && y in h.live && x < y ensures x + h.live[x] <= y {
      LiveApart(h, rest, x, y);
    }
    forall x, b | x in h.live && b in h.arenas ensures x + h.live[x] <= b * PG_SIZE || b * PG_SIZE + HEADER <= x {
      HeadersApart(h, rest, x, b);
    }
    forall x | x in h.live ensures ArenaOf(x) in h.arenas
      && x + h.live[x] <= (ArenaOf(x) + Span(h.arenas[ArenaOf(x)])) * PG_SIZE {
      Inside(h, rest, x);
    }
  }
}
