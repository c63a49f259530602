/** What malloc_page and mfree_page keep, and when malloc_page leaves the bitmap and the table apart. */
module PageInv {
  import opened Bitmap
  import opened Pages

  // ---------------------------------------------------------------- one frame more or less

  lemma PageAdded(m: Mem, m': Mem, sp: Space, rest: set<nat>, i: nat, f: nat)
    requires Frames(m, sp, rest) && i !in sp.pages && !Taken(m, f) && InPool(Own(m, sp), f)
    requires SameShape(m, m') && forall g :: Taken(m', g) <==> Taken(m, g) || g == f
    ensures Frames(m', sp.(pages := sp.pages[i := f]), rest)
  {
    var sp' := sp.(pages := sp.pages[i := f]);
    forall j: nat, g: nat ensures PageAt(sp', j, g) <==> if j == i then g == f else PageAt(sp, j, g) {
    }
    forall d: nat, g: nat ensures TableAt(sp', d, g) <==> TableAt(sp, d, g) {
    }
    assert !Uses(sp, f);
    forall g: nat ensures Uses(sp', g) <==> Uses(sp, g) || g == f {
      assert PageAt(sp', i, f);
      if Uses(sp, g) {
        if j :| PageAt(sp, j, g) {
          assert PageAt(sp', j, g);
        } else {
          var d :| TableAt(sp, d, g);
          assert TableAt(sp', d, g);
        }
      }
    }
  }

  lemma TableAdded(m: Mem, m': Mem, sp: Space, rest: set<nat>, d: nat, f: nat)
    requires Frames(m, sp, rest) && d !in sp.tables && !Taken(m, f) && InPool(m.kernel, f)
    requires SameShape(m, m') && forall g :: Taken(m', g) <==> Taken(m, g) || g == f
    ensures Frames(m', sp.(tables := sp.tables[d := f]), rest)
  {
    var sp' := sp.(tables := sp.tables[d := f]);
    forall e: nat, g: nat ensures TableAt(sp', e, g) <==> if e == d then g == f else TableAt(sp, e, g) {
    }
    forall j: nat, g: nat ensures PageAt(sp', j, g) <==> PageAt(sp, j, g) {
    }
    assert !Uses(sp, f);
    forall g: nat ensures Uses(sp', g) <==> Uses(sp, g) || g == f {
      assert TableAt(sp', d, f);
      if Uses(sp, g) {
        if j :| PageAt(sp, j, g) {
          assert PageAt(sp', j, g);
        } else {
          var e :| TableAt(sp, e, g);
          assert TableAt(sp', e, g);
        }
      }
    }
  }

  lemma PageRemoved(m: Mem, sp: Space, rest: set<nat>, i: nat)
    requires Frames(m, sp, rest) && i in sp.pages
    ensures Selects(m, sp.pages[i]) && Frames(Pfree(m, sp.pages[i]), sp.(pages := sp.pages - {i}), rest)
  {
    var f := sp.pages[i];
    assert PageAt(sp, i, f) && Uses(sp, f);
    PfreeFrees(m, f);
    var sp' := sp.(pages := sp.pages - {i});
    forall j: nat, g: nat ensures PageAt(sp', j, g) <==> PageAt(sp, j, g) && j != i {
    }
    forall d: nat, g: nat ensures TableAt(sp', d, g) <==> TableAt(sp, d, g) {
    }
    forall g: nat ensures Uses(sp', g) <==> Uses(sp, g) && g != f {
      if Uses(sp, g) && g != f {
        if j :| PageAt(sp, j, g) {
          assert PageAt(sp', j, g);
        } else {
          var d :| TableAt(sp, d, g);
          assert TableAt(sp', d, g);
        }
      }
    }
  }

  // ---------------------------------------------------------------- malloc_page

  /** Page i was mapped to a frame that was free, and nothing else changed but for page tables. */
  ghost predicate Grew(m: Mem, sp: Space, m': Mem, sp': Space, i: nat) {
    && i in sp'.pages && sp'.pages == sp.pages[i := sp'.pages[i]] && !Taken(m, sp'.pages[i])
    && sp'.bits == sp.bits && sp'.user == sp.user && sp'.base == sp.base
    && (forall d :: d in sp.tables ==> d in sp'.tables && sp'.tables[d] == sp.tables[d])
    && (!sp.user ==> sp'.tables == sp.tables)
    && FreeCount(Own(m', sp').bits) == FreeCount(Own(m, sp).bits) - 1
    && SameShape(m, m')
  }

  lemma MapPageWorks(m: Mem, sp: Space, rest: set<nat>, i: nat)
    requires Frames(m, sp, rest) && i !in sp.pages
    ensures match MapPage(m, sp, i)
      case Mapped(m', sp') => Frames(m', sp', rest) && Grew(m, sp, m', sp', i)
      case NoFrame(m', sp') => m' == m && sp' == sp && FreeCount(Own(m, sp).bits) == 0
      case NoTable => sp.user && FreeCount(m.kernel.bits) == 0 && FreeCount(m.user.bits) > 0
  {
    hide Frames, FreeCount;
    FramesPools(m, sp, rest);
    PallocTakes(Own(m, sp));
    var (f, pool) := Palloc(Own(m, sp));
    if f != -1 {
      var m1 := if sp.user then m.(user := pool) else m.(kernel := pool);
      var sp1 := sp.(pages := sp.pages[i := f]);
      PageAdded(m, m1, sp, rest, i, f);
      if !HasTable(sp, i) {
        PallocTakes(m.kernel);
        var (t, kernel) := Palloc(m1.kernel);
        if t != -1 {
          TableAdded(m1, m1.(kernel := kernel), sp1, rest, Pde(sp, i), t);
        }
      }
    }
  }

  lemma FramesPools(m: Mem, sp: Space, rest: set<nat>)
    requires Frames(m, sp, rest)
    ensures PoolsOk(m)
  {
  }

  /** Pages i .. i + cnt - 1 were mapped. */
  ghost predicate GrewBy(m: Mem, sp: Space, m': Mem, sp': Space, i: nat, cnt: nat) {
    && (forall j :: j in sp'.pages <==> j in sp.pages || i <= j < i + cnt)
    && (forall j :: j in sp.pages ==> sp'.pages[j] == sp.pages[j])
    && sp'.bits == sp.bits && sp'.user == sp.user && sp'.base == sp.base
    && (forall d :: d in sp.tables ==> d in sp'.tables && sp'.tables[d] == sp.tables[d])
    && (!sp.user ==> sp'.tables == sp.tables)
    && SameShape(m, m')
  }

  /** Fewer than cnt pages were mapped. */
  ghost predicate Partly(m: Mem, sp: Space, m': Mem, sp': Space, rest: set<nat>, i: nat, cnt: nat) {
    Frames(m', sp', rest) && exists n: nat :: n < cnt && GrewBy(m, sp, m', sp', i, n)
  }

  /** The loop of malloc_page maps every page, or stops where a pool is empty. */
  lemma {:induction false} MapPagesWorks(m: Mem, sp: Space, rest: set<nat>, i: nat, cnt: nat)
    requires Frames(m, sp, rest) && forall j :: i <= j < i + cnt ==> j !in sp.pages
    ensures match MapPages(m, sp, i, cnt)
      case Mapped(m', sp') => Frames(m', sp', rest) && GrewBy(m, sp, m', sp', i, cnt)
        && FreeCount(Own(m, sp).bits) >= cnt
      case NoFrame(m', sp') => FreeCount(Own(m, sp).bits) < cnt && Partly(m, sp, m', sp', rest, i, cnt)
      case NoTable => sp.user
    decreases cnt
  {
    hide Frames, FreeCount, GrewBy, MapPage;
    GrewNone(m, sp, i);
    if cnt > 0 {
      MapPageWorks(m, sp, rest, i);
      match MapPage(m, sp, i)
      case Mapped(m1, sp1) =>
        MapPagesWorks(m1, sp1, rest, i + 1, cnt - 1);
        match MapPages(m1, sp1, i + 1, cnt - 1) {
          case Mapped(m', sp') => GrewMore(m, sp, m1, sp1, m', sp', i, cnt - 1);
          case NoFrame(m', sp') =>
            var n: nat :| n < cnt - 1 && GrewBy(m1, sp1, m', sp', i + 1, n);
            GrewMore(m, sp, m1, sp1, m', sp', i, n);
            assert n + 1 < cnt && GrewBy(m, sp, m', sp', i, n + 1);
            assert Partly(m, sp, m', sp', rest, i, cnt);
          case NoTable =>
        }
      case NoFrame(_, _) =>
      case NoTable =>
    }
  }

  // ---------------------------------------------------------------- page tables that are missing

  /** The page tables to be made for pages i .. i + cnt - 1, where `have` are the directory entries
      that have one. */
  function Missing(have: set<nat>, base: nat, i: nat, cnt: nat): nat
    decreases cnt
  {
    if cnt == 0 then 0
    else var d := (base + i) / 1024;
      (if d in have then 0 else 1) + Missing(have + {d}, base, i + 1, cnt - 1)
  }

  /** There are frames for more pages of the space than the kernel pool has frames for page tables. */
  predicate Starves(m: Mem, sp: Space, i: nat, cnt: nat) {
    var free := FreeCount(m.user.bits);
    sp.user && Missing(sp.tables.Keys, sp.base, i, if cnt < free then cnt else free) > FreeCount(m.kernel.bits)
  }

  /** The loop of malloc_page runs out of page tables exactly if it starves. */
  lemma {:induction false} StarvesExact(m: Mem, sp: Space, rest: set<nat>, i: nat, cnt: nat)
    requires Frames(m, sp, rest) && forall j :: i <= j < i + cnt ==> j !in sp.pages
    ensures MapPages(m, sp, i, cnt).NoTable? <==> Starves(m, sp, i, cnt)
    decreases cnt
  {
    hide Frames, FreeCount, MapPage;
    if cnt > 0 {
      MapPageWorks(m, sp, rest, i);
      if sp.user {
        MapPageCounts(m, sp, i);
      }
      if MapPage(m, sp, i).Mapped? {
        StarvesExact(MapPage(m, sp, i).m, MapPage(m, sp, i).sp, rest, i + 1, cnt - 1);
      }
    }
  }

  /** What mapping one page takes from the two pools. */
  lemma MapPageCounts(m: Mem, sp: Space, i: nat)
    requires sp.user
    ensures match MapPage(m, sp, i)
      case Mapped(m', sp') =>
        && sp'.user && sp'.base == sp.base && sp'.tables.Keys == sp.tables.Keys + {Pde(sp, i)}
        && FreeCount(m'.user.bits) == FreeCount(m.user.bits) - 1
        && FreeCount(m'.kernel.bits) == FreeCount(m.kernel.bits) - if Pde(sp, i) in sp.tables then 0 else 1
      case NoFrame(_, _) => FreeCount(m.user.bits) == 0
      case NoTable => FreeCount(m.user.bits) > 0 && FreeCount(m.kernel.bits) == 0 && Pde(sp, i) !in sp.tables
  {
    hide FreeCount;
    PallocTakes(m.user);
    PallocTakes(m.kernel);
  }

  lemma GrewNone(m: Mem, sp: Space, i: nat)
    ensures GrewBy(m, sp, m, sp, i, 0)
  {
  }

  lemma GrewMore(m: Mem, sp: Space, m1: Mem, sp1: Space, m': Mem, sp': Space, i: nat, n: nat)
    requires Grew(m, sp, m1, sp1, i) && i !in sp.pages && GrewBy(m1, sp1, m', sp', i + 1, n)
    ensures GrewBy(m, sp, m', sp', i, n + 1)
  {
  }

  /** malloc_page: vaddr_get finds the leftmost run of free pages.  With a frame for each of them
      the bitmap and the page table stay in step.  If and only if the pool has fewer frames than
      pages asked for, malloc_page returns NULL with bits set for pages it did not map.  If and only
      if it starves for page tables, page_table_add goes on with the frame -1 of a failed palloc. */
  lemma MallocExact(m: Mem, sp: Space, rest: set<nat>, start: nat, cnt: nat)
    requires Frames(m, sp, rest) && Covers(sp) && cnt > 0 && FindRun(sp.bits, cnt) == start
    ensures match MallocAt(m, sp, start, cnt)
      case Mapped(m', sp') =>
        && Frames(m', sp', rest) && Covers(sp') && (BitsOk(sp) ==> BitsOk(sp')) && FreeCount(Own(m, sp).bits) >= cnt
        && GrewBy(m, sp.(bits := sp'.bits), m', sp', start, cnt) && sp'.bits == SetRange(sp.bits, start, cnt, true)
      case NoFrame(m', sp') =>
        && FreeCount(Own(m, sp).bits) < cnt && Frames(m', sp', rest) && Covers(sp') && !BitsOk(sp')
        && (forall i :: i in sp.pages ==> i in sp'.pages)
      case NoTable => sp.user
    ensures MallocAt(m, sp, start, cnt).NoTable? <==> Starves(m, sp, start, cnt)
    ensures forall j :: start <= j < start + cnt ==> j < |sp.bits| && j !in sp.pages
  {
    hide Frames, FreeCount, Missing;
    assert ClearRun(sp.bits, start, cnt);
    var sp0 := sp.(bits := SetRange(sp.bits, start, cnt, true));
    SameFrames(m, sp, sp0, rest);
    MapPagesWorks(m, sp0, rest, start, cnt);
    StarvesExact(m, sp0, rest, start, cnt);
    match MallocAt(m, sp, start, cnt)
    case Mapped(m', sp') =>
    case NoFrame(m', sp') =>
      var n: nat :| n < cnt && GrewBy(m, sp0, m', sp', start, n);
      assert start + n !in sp'.pages && sp'.bits[start + n];
    case NoTable =>
  }

  /** Two pages asked for and one frame free: malloc_page maps one page and fails, and the other has its
      bit set without being mapped. */
  lemma ShortExample()
    ensures var m, sp := Mem(Pool(512, [false]), Pool(1024, [])), Space(false, 0, [false, false], map[], map[]);
      && Sound(m, sp, {}) && FindRun(sp.bits, 2) == 0 && MallocAt(m, sp, 0, 2).NoFrame?
      && var sp' := MallocAt(m, sp, 0, 2).sp; 0 in sp'.pages && 1 !in sp'.pages && sp'.bits == [true, true]
  {
    var m, sp := Mem(Pool(512, [false]), Pool(1024, [])), Space(false, 0, [false, false], map[], map[]);
    assert Frames(m, sp, {}) && BitsOk(sp);
    assert ClearRun(sp.bits, 0, 2);
    RunOfOne([false]);
    RunOfOne([true]);
    assert ClearRun([false], 0, 1);
    assert [false][0 := true] == [true];
    var sp1 := sp.(bits := [true, true]);
    assert SetRange(sp.bits, 0, 2, true) == [true, true];
    var m1 := m.(kernel := Pool(512, [true]));
    assert MapPage(m, sp1, 0) == Mapped(m1, sp1.(pages := map[][0 := 512]));
    assert MapPage(m1, sp1.(pages := map[][0 := 512]), 1).NoFrame?;
  }

  lemma SameUses(sp: Space, sp': Space, f: nat)
    requires sp'.pages == sp.pages && sp'.tables == sp.tables && Uses(sp, f)
    ensures Uses(sp', f)
  {
    if j :| PageAt(sp, j, f) {
      assert PageAt(sp', j, f);
    } else {
      var d :| TableAt(sp, d, f);
      assert TableAt(sp', d, f);
    }
  }

  lemma SameFrames(m: Mem, sp: Space, sp': Space, rest: set<nat>)
    requires Frames(m, sp, rest) && sp'.pages == sp.pages && sp'.tables == sp.tables && sp'.user == sp.user
    ensures Frames(m, sp', rest)
  {
    forall i: nat, f: nat ensures PageAt(sp', i, f) <==> PageAt(sp, i, f) {
    }
    forall d: nat, f: nat ensures TableAt(sp', d, f) <==> TableAt(sp, d, f) {
    }
    forall f: nat ensures Uses(sp', f) <==> Uses(sp, f) {
      if Uses(sp, f) {
        SameUses(sp, sp', f);
      }
      if Uses(sp', f) {
        SameUses(sp', sp, f);
      }
    }
  }

  // ---------------------------------------------------------------- mfree_page

  lemma {:induction false} UnmapWorks(m: Mem, sp: Space, rest: set<nat>, i: nat, cnt: nat)
    requires Frames(m, sp, rest) && forall j :: i <= j < i + cnt ==> j in sp.pages
    ensures CanUnmap(m, sp, i, cnt)
    ensures var (m', sp') := Unmap(m, sp, i, cnt);
      && Frames(m', sp', rest) && sp' == sp.(pages := sp'.pages) && SameShape(m, m')
      && (forall j :: j in sp'.pages <==> j in sp.pages && !(i <= j < i + cnt))
      && (forall j :: j in sp'.pages ==> sp'.pages[j] == sp.pages[j])
    decreases cnt
  {
    hide Frames;
    forall j | i <= j < i + cnt ensures Selects(m, sp.pages[j]) {
      PageRemoved(m, sp, rest, j);
    }
    if cnt > 0 {
      PageRemoved(m, sp, rest, i);
      UnmapWorks(Pfree(m, sp.pages[i]), sp.(pages := sp.pages - {i}), rest, i + 1, cnt - 1);
    }
  }

  /** mfree_page of mapped pages: exactly they are unmapped and their bits cleared. */
  lemma MfreeWorks(m: Mem, sp: Space, rest: set<nat>, start: nat, cnt: nat)
    requires Frames(m, sp, rest) && Covers(sp) && forall j :: start <= j < start + cnt ==> j in sp.pages
    ensures CanUnmap(m, sp, start, cnt)
    ensures var (m', sp') := MfreePage(m, sp, start, cnt);
      && Frames(m', sp', rest) && Covers(sp') && (BitsOk(sp) ==> BitsOk(sp'))
      && sp' == sp.(pages := sp'.pages, bits := SetRange(sp.bits, start, cnt, false)) && SameShape(m, m')
      && (forall j :: j in sp'.pages <==> j in sp.pages && !(start <= j < start + cnt))
      && (forall j :: j in sp'.pages ==> sp'.pages[j] == sp.pages[j])
  {
    hide Frames;
    UnmapWorks(m, sp, rest, start, cnt);
    var (m', sp') := Unmap(m, sp, start, cnt);
    SameFrames(m', sp', MfreePage(m, sp, start, cnt).1, rest);
  }
}
