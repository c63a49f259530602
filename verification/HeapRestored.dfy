/** Freeing every live block, in any order, gives back every page and frame the heap took. */
module HeapRestored {
  import opened Bitmap
  import opened Pages
  import opened PageInv
  import opened Heap
  import opened HeapInv
  import opened HeapOps
  import opened HeapRuns

  ghost predicate CoveredBy(h: Heap, i: nat, a: nat) { a in h.arenas && a <= i < a + Span(h.arenas[a]) }

  ghost predicate Covered(h: Heap, i: nat) { exists a :: CoveredBy(h, i, a) }

  /** The pages are those the heap was given, as they were, and those of its arenas. */
  ghost predicate Exact(h: Heap, h0: Heap) {
    && SameShape(h0.m, h.m) && h.sp.user == h0.sp.user && h.sp.base == h0.sp.base && |h.sp.bits| == |h0.sp.bits|
    && (!h.sp.user ==> h.sp.tables == h0.sp.tables)
    && BitsOk(h.sp)
    && (forall i :: i in h.sp.pages <==> i in h0.sp.pages || Covered(h, i))
    && (forall i :: i in h0.sp.pages ==> i in h.sp.pages && h.sp.pages[i] == h0.sp.pages[i] && !Covered(h, i))
  }

  lemma ExactGrow(h: Heap, h': Heap, h0: Heap, a: nat, n: nat)
    requires Exact(h, h0) && SameShape(h.m, h'.m) && BitsOk(h'.sp) && |h'.sp.bits| == |h.sp.bits|
    requires h'.sp.user == h.sp.user && h'.sp.base == h.sp.base && (!h.sp.user ==> h'.sp.tables == h.sp.tables)
    requires forall j :: j in h'.sp.pages <==> j in h.sp.pages || a <= j < a + n
    requires forall j :: j in h.sp.pages ==> h'.sp.pages[j] == h.sp.pages[j] && !(a <= j < a + n)
    requires a !in h.arenas && a in h'.arenas && Span(h'.arenas[a]) == n && h'.arenas == h.arenas[a := h'.arenas[a]]
    ensures Exact(h', h0)
  {
    forall i: nat ensures Covered(h', i) <==> Covered(h, i) || a <= i < a + n {
      if Covered(h, i) {
        var b: nat :| CoveredBy(h, i, b);
        assert CoveredBy(h', i, b);
      }
      assert a <= i < a + n ==> CoveredBy(h', i, a);
      if Covered(h', i) {
        var b: nat :| CoveredBy(h', i, b);
        assert b != a ==> CoveredBy(h, i, b);
      }
    }
  }

  lemma CoveredDrop(h: Heap, h': Heap, a: nat, n: nat, i: nat)
    requires Extents(h) && a in h.arenas && Span(h.arenas[a]) == n && h'.arenas == h.arenas - {a}
    ensures Covered(h', i) <==> Covered(h, i) && !(a <= i < a + n)
  {
    if Covered(h', i) {
      var b: nat :| CoveredBy(h', i, b);
      assert CoveredBy(h, i, b);
      assert a <= b ==> !(b < a + Span(h.arenas[a]));
      assert b <= a ==> !(a < b + Span(h.arenas[b]));
    }
    if Covered(h, i) && !(a <= i < a + n) {
      var b: nat :| CoveredBy(h, i, b);
      assert CoveredBy(h', i, b);
    }
  }

  lemma ExactDrop(h: Heap, h': Heap, h0: Heap, a: nat, n: nat)
    requires Exact(h, h0) && Extents(h) && SameShape(h.m, h'.m) && BitsOk(h'.sp)
    requires h'.sp == h.sp.(pages := h'.sp.pages, bits := SetRange(h.sp.bits, a, n, false))
    requires forall j :: j in h'.sp.pages <==> j in h.sp.pages && !(a <= j < a + n)
    requires forall j :: j in h'.sp.pages ==> h'.sp.pages[j] == h.sp.pages[j]
    requires a in h.arenas && Span(h.arenas[a]) == n && h'.arenas == h.arenas - {a}
    ensures Exact(h', h0)
  {
    hide Extents, SetRange;
    forall i: nat ensures Covered(h', i) <==> Covered(h, i) && !(a <= i < a + n) {
      CoveredDrop(h, h', a, n, i);
    }
    forall i: nat | a <= i < a + n ensures Covered(h, i) {
      assert CoveredBy(h, i, a);
    }
  }

  lemma ExactSame(h: Heap, h': Heap, h0: Heap)
    requires Exact(h, h0) && h'.m == h.m && h'.sp == h.sp && h'.arenas.Keys == h.arenas.Keys
    requires forall a :: a in h.arenas ==> Span(h'.arenas[a]) == Span(h.arenas[a])
    ensures Exact(h', h0)
  {
    forall i: nat ensures Covered(h', i) <==> Covered(h, i) {
      if Covered(h', i) {
        var b: nat :| CoveredBy(h', i, b);
        assert CoveredBy(h, i, b);
      }
      if Covered(h, i) {
        var b: nat :| CoveredBy(h, i, b);
        assert CoveredBy(h', i, b);
      }
    }
  }

  // ---------------------------------------------------------------- the calls

  lemma LargeExact(h: Heap, h0: Heap, rest: set<nat>, size: nat)
    requires Core(h, rest) && Exact(h, h0) && size > 0 && MallocLarge(h, size).Got?
    ensures Exact(MallocLarge(h, size).h, h0)
  {
    hide Frames, FreeCount, FindRun, PagesFor, Exact, ListOk, CountOk, LiveOk, Extents, MallocAt;
    PagesForSize(size);
    var a, n := FindRun(h.sp.bits, PagesFor(size)), PagesFor(size);
    MallocExact(h.m, h.sp, rest, a, n);
    Untouched(h, rest, a);
    ExactBits(h, h0);
    ExactGrow(h, MallocLarge(h, size).h, h0, a, n);
  }

  lemma ExactBits(h: Heap, h0: Heap)
    requires Exact(h, h0)
    ensures BitsOk(h.sp)
  {
  }

  lemma ArenaExact(h: Heap, h0: Heap, rest: set<nat>, c: nat)
    requires Core(h, rest) && Exact(h, h0) && c < |h.lists| && NewArena(h, c).Got?
    ensures Exact(NewArena(h, c).h, h0)
  {
    hide Frames, FreeCount, FindRun, Exact, ListOk, CountOk, LiveOk, Extents, BlocksFrom, PerArena, MallocAt;
    var a := FindRun(h.sp.bits, 1);
    MallocExact(h.m, h.sp, rest, a, 1);
    Untouched(h, rest, a);
    ExactBits(h, h0);
    ExactGrow(h, NewArena(h, c).h, h0, a, 1);
  }

  lemma MallocIsExact(h: Heap, h0: Heap, rest: set<nat>, size: nat, poolSize: nat)
    requires HeapOk(h, rest) && Exact(h, h0)
    requires var r := Malloc(h, rest, size, poolSize); r.Got? || (r.Null? && r.h == h)
    ensures Exact(Malloc(h, rest, size, poolSize).h, h0)
  {
    hide Core, Busy, NewArena, MallocLarge, Exact;
    if 0 < size < poolSize {
      if size > 1024 {
        if MallocLarge(h, size).Got? {
          LargeExact(h, h0, rest, size);
        }
      } else {
        var c := ClassOf(size, 0);
        ClassExists(h, rest, c);
        if h.lists[c] != [] {
          HeadIsFree(h, rest, c);
          ExactSame(h, Take(h, c, size).h, h0);
        } else {
          NewArenaKeeps(h, rest, c);
          if NewArena(h, c).Got? {
            var h1 := NewArena(h, c).h;
            ArenaExact(h, h0, rest, c);
            ClassExists(h1, rest, c);
            HeadIsFree(h1, rest, c);
            ExactSame(h1, Take(h1, c, size).h, h0);
          }
        }
      }
    }
  }

  lemma DropExact(h: Heap, h': Heap, h0: Heap, rest: set<nat>, a: nat)
    requires Core(h, rest) && Exact(h, h0) && a in h.arenas && CanUnmap(h.m, h.sp, a, Span(h.arenas[a]))
    requires (h'.m, h'.sp) == MfreePage(h.m, h.sp, a, Span(h.arenas[a])) && h'.arenas == h.arenas - {a}
    ensures Exact(h', h0)
  {
    hide Frames, Exact, ListOk, CountOk, LiveOk, Extents, Unmap;
    OnOnePage(h, rest, a);
    MfreeWorks(h.m, h.sp, rest, a, Span(h.arenas[a]));
    ExactBits(h, h0);
    ExactDrop(h, h', h0, a, Span(h.arenas[a]));
  }

  lemma FreeIsExact(h: Heap, h0: Heap, rest: set<nat>, x: Addr)
    requires HeapOk(h, rest) && Exact(h, h0) && x in h.live
    ensures Exact(Free(h, rest, x), h0)
  {
    hide Core, Busy, Exact, MfreePage, CanUnmap, RemoveBlocks, PerArena;
    Inside(h, rest, x);
    var a: nat := ArenaOf(x);
    if h.arenas[a].Large? {
      DropLargeKeeps(h, rest, a);
      DropExact(h, DropLarge(h, a), h0, rest, a);
    } else {
      GiveBackKeeps(h, rest, x);
      var h1, c := GiveBack(h, x), h.arenas[a].cls;
      ExactSame(h, h1, h0);
      if h1.arenas[a].cnt == PerArena(c) {
        DropSmallKeeps(h1, rest, a, c);
        DropExact(h1, DropSmall(h1, a, c), h0, rest, a);
      }
    }
  }

  // ---------------------------------------------------------------- every run without a failure midway

  /** sys_malloc returned a block, or NULL without having changed anything. */
  ghost predicate CleanMalloc(h: Heap, h': Heap, r: Result) {
    if r.Got? then h' == r.h else r.Null? && r.h == h && h' == h
  }

  /** No call of malloc_page runs out of frames after vaddr_get. */
  ghost predicate CleanNext(h: Heap, h': Heap, rest: set<nat>) {
    HeapOk(h, rest) ==>
       ((exists size, poolSize :: CleanMalloc(h, h', Malloc(h, rest, size, poolSize)))
        || (exists x :: x in h.live && h' == Free(h, rest, x)))
  }

  ghost predicate IsCleanRun(run: seq<Heap>, rest: set<nat>) {
    run != [] && Start(run[0], rest) && forall i :: 0 <= i < |run| - 1 ==> CleanNext(run[i], run[i + 1], rest)
  }

  lemma CleanKeeps(h: Heap, h': Heap, h0: Heap, rest: set<nat>)
    requires HeapOk(h, rest) && CleanNext(h, h', rest) && Exact(h, h0)
    ensures HeapOk(h', rest) && Exact(h', h0)
  {
    hide HeapOk, Exact, Malloc, Free;
    if size, poolSize :| CleanMalloc(h, h', Malloc(h, rest, size, poolSize)) {
      MallocKeeps(h, rest, size, poolSize);
      MallocIsExact(h, h0, rest, size, poolSize);
    } else {
      var x :| x in h.live && h' == Free(h, rest, x);
      FreeKeeps(h, rest, x);
      FreeIsExact(h, h0, rest, x);
    }
  }

  lemma {:induction false} CleanRunKeeps(run: seq<Heap>, rest: set<nat>, i: nat)
    requires IsCleanRun(run, rest) && i < |run|
    ensures HeapOk(run[i], rest) && Exact(run[i], run[0])
  {
    hide HeapOk, Exact, CleanNext, Start;
    if i == 0 {
      StartHolds(run[0], rest);
      StartExact(run[0], rest);
    } else {
      CleanRunKeeps(run, rest, i - 1);
      CleanKeeps(run[i - 1], run[i], run[0], rest);
    }
  }

  lemma StartExact(h: Heap, rest: set<nat>)
    requires Start(h, rest)
    ensures Exact(h, h)
  {
    hide Frames;
    forall i: nat ensures !Covered(h, i) {
    }
  }

  lemma NoArenas(h: Heap, rest: set<nat>)
    requires HeapOk(h, rest) && h.live == map[]
    ensures h.arenas == map[]
  {
    hide Frames, Covers, Extents, ListOk, LiveOk;
    forall a | a in h.arenas ensures false {
      assert Busy(h, a) && CountOk(h, a);
      if h.arenas[a].Small? {
        IdxFull(h.live, a, h.arenas[a].cls);
      }
    }
  }

  lemma SamePool(p: Pool, q: Pool)
    requires p.start == q.start && |p.bits| == |q.bits| && forall f: nat :: PoolTaken(p, f) <==> PoolTaken(q, f)
    ensures p == q
  {
    forall b | 0 <= b < |p.bits| ensures p.bits[b] == q.bits[b] {
      assert PoolTaken(p, p.start + b) <==> PoolTaken(q, p.start + b);
    }
  }

  lemma OwnFrames(m: Mem, sp: Space, rest: set<nat>, f: nat)
    requires Frames(m, sp, rest)
    ensures PoolTaken(m.user, f) <==> InPool(m.user, f) && ((exists i :: PageAt(sp, i, f)) || f in rest)
    ensures !sp.user ==> (PoolTaken(m.kernel, f) <==> InPool(m.kernel, f) && (Uses(sp, f) || f in rest))
  {
    assert Taken(m, f) <==> Uses(sp, f) || f in rest;
    if InPool(m.user, f) {
      assert !InPool(m.kernel, f);
      forall d: nat ensures !TableAt(sp, d, f) {
      }
      assert Uses(sp, f) <==> exists i :: PageAt(sp, i, f);
    } else if InPool(m.kernel, f) {
      assert !InPool(m.user, f);
    }
  }

  /** The pages are those of the start, and so are the frames they and the page tables use. */
  lemma SameFramesAgain(h: Heap, h0: Heap, rest: set<nat>)
    requires Frames(h.m, h.sp, rest) && Frames(h0.m, h0.sp, rest) && SameShape(h0.m, h.m)
    requires h.sp.pages == h0.sp.pages && h.sp.user == h0.sp.user && (!h.sp.user ==> h.sp.tables == h0.sp.tables)
    ensures h.m.user == h0.m.user && (!h.sp.user ==> h.m.kernel == h0.m.kernel)
  {
    hide Frames, Uses;
    forall f: nat ensures PoolTaken(h.m.user, f) <==> PoolTaken(h0.m.user, f) {
      OwnFrames(h.m, h.sp, rest, f);
      OwnFrames(h0.m, h0.sp, rest, f);
      assert forall i :: PageAt(h.sp, i, f) <==> PageAt(h0.sp, i, f);
    }
    SamePool(h.m.user, h0.m.user);
    if !h.sp.user {
      forall f: nat ensures PoolTaken(h.m.kernel, f) <==> PoolTaken(h0.m.kernel, f) {
        OwnFrames(h.m, h.sp, rest, f);
        OwnFrames(h0.m, h0.sp, rest, f);
        if Uses(h.sp, f) {
          SameUses(h.sp, h0.sp, f);
        }
        if Uses(h0.sp, f) {
          SameUses(h0.sp, h.sp, f);
        }
      }
      SamePool(h.m.kernel, h0.m.kernel);
    }
  }

  /** In every run without a failure midway, once nothing is live the virtual bitmap, the mapping
      and the user pool are as they were, and for the kernel's heap the kernel pool as well.  A
      user heap keeps the page tables it made. */
  lemma AllFreedRestores(run: seq<Heap>, rest: set<nat>, i: nat)
    requires IsCleanRun(run, rest) && i < |run| && run[i].live == map[]
    ensures run[i].sp.bits == run[0].sp.bits && run[i].sp.pages == run[0].sp.pages
    ensures run[i].m.user == run[0].m.user
    ensures !run[0].sp.user ==> run[i].m == run[0].m && run[i].sp == run[0].sp
    ensures run[i].arenas == map[] && forall c :: 0 <= c < CLASSES ==>
      |run[i].lists| == CLASSES && run[i].lists[c] == []
  {
    hide CleanNext, Frames, Covers, Extents, ListOk, LiveOk;
    CleanRunKeeps(run, rest, i);
    var h, h0 := run[i], run[0];
    NoArenas(h, rest);
    NothingCovered(h);
    assert h.sp.pages.Keys == h0.sp.pages.Keys;
    assert h.sp.pages == h0.sp.pages;
    assert h.sp.bits == h0.sp.bits;
    SameFramesAgain(h, h0, rest);
    forall c | 0 <= c < CLASSES ensures h.lists[c] == [] {
      EmptyList(h, c);
    }
  }

  lemma NothingCovered(h: Heap)
    requires h.arenas == map[]
    ensures forall i: nat :: !Covered(h, i)
  {
    forall i: nat ensures !Covered(h, i) {
    }
  }

  lemma SomeElement(s: seq<Addr>)
    ensures s == [] || exists x :: x in s
  {
    if s != [] {
      assert s[0] in s;
    }
  }

  lemma EmptyList(h: Heap, c: nat)
    requires h.arenas == map[] && c < |h.lists| && ListOk(h, c)
    ensures h.lists[c] == []
  {
    assert forall x :: !FreeBlock(h, c, x);
    SomeElement(h.lists[c]);
  }
}
