/** The page layer of kernel/memory.c: two pools of page frames, a virtual bitmap and a page table
    per address space.  Addresses are page and frame numbers; every address the code handles here
    is a multiple of 4096. */
module Pages {
  import opened Bitmap

  const PG_SIZE := 4096

  /** Bit b of a pool is frame start + b. */
  datatype Pool = Pool(start: nat, bits: seq<bool>)

  datatype Mem = Mem(kernel: Pool, user: Pool)

  /** An address space.  Page i of its bitmap is virtual page base + i; pages maps it to a frame,
      tables maps a directory entry to the frame of its page table.  The page tables of the
      kernel's space were made at boot and lie outside the pools. */
  datatype Space = Space(user: bool, base: nat, bits: seq<bool>, pages: map<nat, nat>, tables: map<nat, nat>)

  // ---------------------------------------------------------------- mem_pool_init

  function InitPools(allMem: nat): Mem {
    var usedMem := PG_SIZE * 256 + 0x100000;
    var freeMem := (allMem - usedMem) % 0x1_0000_0000;
    var allFree := freeMem / PG_SIZE % 0x1_0000;
    var kernelFree := allFree / 2;
    var userFree := allFree - kernelFree;
    Mem(Pool(usedMem / PG_SIZE, seq(8 * (kernelFree / 8), _ => false)),
        Pool(usedMem / PG_SIZE + kernelFree, seq(8 * (userFree / 8), _ => false)))
  }

  predicate InPool(p: Pool, f: nat) { p.start <= f < p.start + |p.bits| }

  /** Every frame of the kernel pool lies below the user pool. */
  predicate PoolsOk(m: Mem) { m.kernel.start + |m.kernel.bits| <= m.user.start }

  /** The pools are apart, lie above the first 2 MB, and inside the memory if there is that much. */
  lemma InitPoolsOk(allMem: nat)
    ensures PoolsOk(InitPools(allMem))
    ensures forall f: nat :: InPool(InitPools(allMem).kernel, f) || InPool(InitPools(allMem).user, f) ==>
      f * PG_SIZE >= 0x200000
    ensures 0x200000 <= allMem < 0x1_0000_0000 ==>
              forall f: nat :: InPool(InitPools(allMem).kernel, f) || InPool(InitPools(allMem).user, f) ==>
                (f + 1) * PG_SIZE <= allMem
  {
  }

  /** All frames are free at the start, the two pools get half of the memory each, and all pages but a few
      that do not fill a byte of a bitmap are in them, exactly if the number of pages fits a uint16_t. */
  lemma InitPoolsCover(allMem: nat, pages: nat)
    requires 0x200000 <= allMem < 0x1_0000_0000 && pages == (allMem - 0x200000) / PG_SIZE
    ensures var m := InitPools(allMem);
      && |m.kernel.bits| <= |m.user.bits| <= |m.kernel.bits| + 8
      && |m.kernel.bits| + |m.user.bits| <= pages
      && (pages - (|m.kernel.bits| + |m.user.bits|) < 16 <==> pages < 0x1_0000)
      && (forall b :: 0 <= b < |m.kernel.bits| ==> !m.kernel.bits[b])
      && (forall b :: 0 <= b < |m.user.bits| ==> !m.user.bits[b])
  {
    var free := pages % 0x1_0000;
    Halves(free);
    assert pages < 0x1_0000 ==> free == pages;
    assert pages >= 0x1_0000 ==> free <= pages - 0x1_0000;
  }

  lemma Halves(n: nat)
    ensures var k, u := 8 * (n / 2 / 8), 8 * ((n - n / 2) / 8); k <= u <= k + 8 && n - 16 < k + u <= n
  {
  }

  // ---------------------------------------------------------------- frames

  predicate PoolTaken(p: Pool, f: nat) { InPool(p, f) && p.bits[f - p.start] }

  predicate Taken(m: Mem, f: nat) { PoolTaken(m.kernel, f) || PoolTaken(m.user, f) }

  predicate SameShape(m: Mem, m': Mem) {
    && m'.kernel.start == m.kernel.start && m'.user.start == m.user.start
    && |m'.kernel.bits| == |m.kernel.bits| && |m'.user.bits| == |m.user.bits|
  }

  /** palloc: the lowest free frame, marked. */
  function Palloc(p: Pool): (r: (int, Pool))
    ensures |r.1.bits| == |p.bits| && r.1.start == p.start
  {
    var b := FindRun(p.bits, 1);
    if b == -1 then (-1, p) else (p.start + b, p.(bits := p.bits[b := true]))
  }

  /** pfree and free_a_phy_page: the address selects the pool. */
  function Pfree(m: Mem, f: nat): Mem
    requires Selects(m, f)
  {
    if f >= m.user.start then m.(user := m.user.(bits := m.user.bits[f - m.user.start := false]))
    else m.(kernel := m.kernel.(bits := m.kernel.bits[f - m.kernel.start := false]))
  }

  lemma PallocTakes(p: Pool)
    ensures Palloc(p).0 == -1 <==> FreeCount(p.bits) == 0
    ensures Palloc(p).0 == -1 ==> Palloc(p).1 == p
    ensures Palloc(p).0 != -1 ==>
              && InPool(p, Palloc(p).0) && !PoolTaken(p, Palloc(p).0)
              && (forall f :: p.start <= f < Palloc(p).0 ==> PoolTaken(p, f))
              && (forall f :: PoolTaken(Palloc(p).1, f) <==> PoolTaken(p, f) || f == Palloc(p).0)
              && FreeCount(Palloc(p).1.bits) == FreeCount(p.bits) - 1
  {
    var b := FindRun(p.bits, 1);
    RunOfOne(p.bits);
    FreeCountZero(p.bits);
    if b != -1 {
      assert ClearRun(p.bits, b, 1);
      FreeCountSet(p.bits, b);
    } else {
      forall s | 0 <= s < |p.bits| ensures p.bits[s] {
        assert !ClearRun(p.bits, s, 1);
      }
    }
  }

  /** The pool that pfree selects is the pool the frame is in, so exactly that frame is freed. */
  lemma PfreeFrees(m: Mem, f: nat)
    requires PoolsOk(m) && Taken(m, f)
    ensures Selects(m, f)
    ensures PoolsOk(Pfree(m, f)) && forall g :: Taken(Pfree(m, f), g) <==> Taken(m, g) && g != f
  {
  }

  // ---------------------------------------------------------------- what the layer keeps

  function Own(m: Mem, sp: Space): Pool { if sp.user then m.user else m.kernel }

  /** PDE_IDX of page i. */
  function Pde(sp: Space, i: nat): nat { (sp.base + i) / 1024 }

  ghost predicate PageAt(sp: Space, i: nat, f: nat) { i in sp.pages && sp.pages[i] == f }
  ghost predicate TableAt(sp: Space, d: nat, f: nat) { d in sp.tables && sp.tables[d] == f }

  ghost predicate Uses(sp: Space, f: nat) { (exists i :: PageAt(sp, i, f)) || (exists d :: TableAt(sp, d, f)) }

  /** The frames of the space are its own, in the right pool, each used once; the frames marked in
      the pools are exactly those of the space and the rest. */
  ghost predicate Frames(m: Mem, sp: Space, rest: set<nat>) {
    && PoolsOk(m)
    && (forall i, f :: PageAt(sp, i, f) ==> InPool(Own(m, sp), f))
    && (forall d, f :: TableAt(sp, d, f) ==> InPool(m.kernel, f))
    && (forall i, j, f :: PageAt(sp, i, f) && PageAt(sp, j, f) ==> i == j)
    && (forall d, e, f :: TableAt(sp, d, f) && TableAt(sp, e, f) ==> d == e)
    && (forall i, d, f :: PageAt(sp, i, f) ==> !TableAt(sp, d, f))
    && (forall f :: Taken(m, f) <==> Uses(sp, f) || f in rest)
    && (forall f :: f in rest ==> !Uses(sp, f))
  }

  /** A virtual bit is set exactly when the page is mapped. */
  ghost predicate BitsOk(sp: Space) {
    forall i :: i in sp.pages <==> 0 <= i < |sp.bits| && sp.bits[i]
  }

  /** Mapped pages have their bit set; the other half of BitsOk may fail. */
  ghost predicate Covers(sp: Space) {
    forall i :: i in sp.pages ==> 0 <= i < |sp.bits| && sp.bits[i]
  }

  ghost predicate Sound(m: Mem, sp: Space, rest: set<nat>) {
    Frames(m, sp, rest) && BitsOk(sp)
  }

  // ---------------------------------------------------------------- mapping

  /** A page is mapped, or the pool of frames is empty, or the kernel pool has no frame for the
      page table that is missing. */
  datatype Outcome = Mapped(m: Mem, sp: Space) | NoFrame(m: Mem, sp: Space) | NoTable

  predicate HasTable(sp: Space, i: nat) { !sp.user || Pde(sp, i) in sp.tables }

  /** page_table_add. */
  function AddPage(m: Mem, sp: Space, i: nat, f: nat): Outcome {
    if HasTable(sp, i) then Mapped(m, sp.(pages := sp.pages[i := f]))
    else
      var (t, kernel) := Palloc(m.kernel);
      if t == -1 then NoTable
      else Mapped(m.(kernel := kernel), sp.(pages := sp.pages[i := f], tables := sp.tables[Pde(sp, i) := t]))
  }

  /** A frame from the space's pool, and page_table_add. */
  function MapPage(m: Mem, sp: Space, i: nat): Outcome {
    var (f, pool) := Palloc(Own(m, sp));
    if f == -1 then NoFrame(m, sp)
    else AddPage(if sp.user then m.(user := pool) else m.(kernel := pool), sp, i, f)
  }

  /** The loop of malloc_page. */
  function MapPages(m: Mem, sp: Space, i: nat, cnt: nat): Outcome
    decreases cnt
  {
    if cnt == 0 then Mapped(m, sp)
    else match MapPage(m, sp, i)
      case Mapped(m1, sp1) => MapPages(m1, sp1, i + 1, cnt - 1)
      case o => o
  }

  function SetRange(bits: seq<bool>, start: int, cnt: nat, v: bool): (r: seq<bool>)
    ensures |r| == |bits| && forall k :: 0 <= k < |r| ==> r[k] == if start <= k < start + cnt then v else bits[k]
  {
    seq(|bits|, k requires 0 <= k < |bits| => if start <= k < start + cnt then v else bits[k])
  }

  /** malloc_page after vaddr_get has found the run at start. */
  function MallocAt(m: Mem, sp: Space, start: nat, cnt: nat): Outcome {
    MapPages(m, sp.(bits := SetRange(sp.bits, start, cnt, true)), start, cnt)
  }

  /** The pool that the address selects has the frame. */
  predicate Selects(m: Mem, f: nat) { if f >= m.user.start then InPool(m.user, f) else InPool(m.kernel, f) }

  predicate CanUnmap(m: Mem, sp: Space, i: nat, cnt: nat) {
    forall j :: i <= j < i + cnt ==> j in sp.pages && Selects(m, sp.pages[j])
  }

  /** The loop of mfree_page. */
  function Unmap(m: Mem, sp: Space, i: nat, cnt: nat): (Mem, Space)
    requires CanUnmap(m, sp, i, cnt)
    decreases cnt
  {
    if cnt == 0 then (m, sp)
    else Unmap(Pfree(m, sp.pages[i]), sp.(pages := sp.pages - {i}), i + 1, cnt - 1)
  }

  /** mfree_page, vaddr_remove included. */
  function MfreePage(m: Mem, sp: Space, start: nat, cnt: nat): (Mem, Space)
    requires CanUnmap(m, sp, start, cnt)
  {
    var (m', sp') := Unmap(m, sp, start, cnt);
    (m', sp'.(bits := SetRange(sp'.bits, start, cnt, false)))
  }
}
