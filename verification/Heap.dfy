/** sys_malloc and sys_free of kernel/memory.c: arenas of equal blocks, one free list per size. */
module Heap {
  import opened Bitmap
  import opened Pages

  const HEADER := 12     // sizeof(struct arena)
  const CLASSES := 7     // DESC_CNT

  type Addr = nat        // counted from the first page of the space

  /** block_desc_init. */
  function Size(c: nat): nat {
    if c == 0 then 16 else if c == 1 then 32 else if c == 2 then 64 else if c == 3 then 128
    else if c == 4 then 256 else if c == 5 then 512 else 1024
  }

  function PerArena(c: nat): nat { (PG_SIZE - HEADER) / Size(c) }

  /** arena2block and block2arena. */
  function Block(a: nat, c: nat, k: nat): Addr { a * PG_SIZE + HEADER + k * Size(c) }
  function ArenaOf(x: Addr): nat { x / PG_SIZE }

  /** The header at the start of an arena. */
  datatype Arena = Small(cls: nat, cnt: nat) | Large(cnt: nat)

  /** live maps each block handed out and not yet freed to the size that was asked for. */
  datatype Heap = Heap(m: Mem, sp: Space, arenas: map<nat, Arena>, lists: seq<seq<Addr>>, live: map<Addr, nat>)

  // ---------------------------------------------------------------- sys_malloc

  function ClassOf(size: nat, c: nat): (r: nat)
    requires c < CLASSES && size <= 1024
    ensures c <= r < CLASSES && size <= Size(r) && forall b :: c <= b < r ==> Size(b) < size
    decreases CLASSES - c
  {
    if size <= Size(c) then c else ClassOf(size, c + 1)
  }

  function PagesFor(size: nat): nat { (size + HEADER + PG_SIZE - 1) / PG_SIZE }

  /** The address returned, or NULL; the page layer may also have lost its way for want of a page table. */
  datatype Result = Got(h: Heap, x: Addr) | Null(h: Heap) | Broken

  function MallocLarge(h: Heap, size: nat): Result {
    var n := PagesFor(size);
    var a := FindRun(h.sp.bits, n);
    if a == -1 then Null(h)
    else match MallocAt(h.m, h.sp, a, n)
      case Mapped(m, sp) =>
        Got(h.(m := m, sp := sp, arenas := h.arenas[a := Large(n)], live := h.live[Block(a, 0, 0) := size]),
            Block(a, 0, 0))
      case NoFrame(m, sp) => Null(h.(m := m, sp := sp))
      case NoTable => Broken
  }

  /** The blocks of a new arena from block k on, in the order in which they are appended. */
  function BlocksFrom(a: nat, c: nat, k: nat): (r: seq<Addr>)
    ensures k <= PerArena(c) ==> |r| == PerArena(c) - k
    ensures forall i :: 0 <= i < |r| ==> r[i] == Block(a, c, k + i)
    decreases PerArena(c) - k
  {
    if k >= PerArena(c) then [] else [Block(a, c, k)] + BlocksFrom(a, c, k + 1)
  }

  /** A new arena of class c, all its blocks on the free list. */
  function NewArena(h: Heap, c: nat): Result
    requires c < |h.lists|
  {
    var a := FindRun(h.sp.bits, 1);
    if a == -1 then Null(h)
    else match MallocAt(h.m, h.sp, a, 1)
      case Mapped(m, sp) =>
        Got(h.(m := m, sp := sp, arenas := h.arenas[a := Small(c, PerArena(c))],
          lists := h.lists[c := h.lists[c] + BlocksFrom(a, c, 0)]), 0)
      case NoFrame(m, sp) => Null(h.(m := m, sp := sp))
      case NoTable => Broken
  }

  /** The first block of the free list goes out. */
  function Take(h: Heap, c: nat, size: nat): Result
    requires c < |h.lists| && h.lists[c] != [] && ArenaOf(h.lists[c][0]) in h.arenas
    requires h.arenas[ArenaOf(h.lists[c][0])].cnt > 0
  {
    var x := h.lists[c][0];
    var a := ArenaOf(x);
    Got(h.(lists := h.lists[c := h.lists[c][1..]], live := h.live[x := size],
           arenas := h.arenas[a := h.arenas[a].(cnt := h.arenas[a].cnt - 1)]), x)
  }

  // ---------------------------------------------------------------- sys_free

  function RemoveOne(s: seq<Addr>, x: Addr): (r: seq<Addr>)
    ensures |r| <= |s|
  {
    if s == [] then [] else if s[0] == x then s[1..] else [s[0]] + RemoveOne(s[1..], x)
  }

  /** list_remove of the blocks of an arena from block k on. */
  function RemoveBlocks(s: seq<Addr>, a: nat, c: nat, k: nat): seq<Addr>
    decreases PerArena(c) - k
  {
    if k >= PerArena(c) then s else RemoveBlocks(RemoveOne(s, Block(a, c, k)), a, c, k + 1)
  }

  /** mfree_page of the arena's pages. */
  function DropArena(h: Heap, a: nat, n: nat): Heap
    requires CanUnmap(h.m, h.sp, a, n)
  {
    var (m, sp) := MfreePage(h.m, h.sp, a, n);
    h.(m := m, sp := sp, arenas := h.arenas - {a})
  }

  /** The block goes back to its list, and is counted. */
  function GiveBack(h: Heap, x: Addr): Heap
    requires ArenaOf(x) in h.arenas && h.arenas[ArenaOf(x)].Small? && h.arenas[ArenaOf(x)].cls < |h.lists|
  {
    var a := ArenaOf(x);
    var c := h.arenas[a].cls;
    h.(lists := h.lists[c := h.lists[c] + [x]], live := h.live - {x},
       arenas := h.arenas[a := Small(c, h.arenas[a].cnt + 1)])
  }

  // ---------------------------------------------------------------- addresses

  lemma BlockFits(a: nat, c: nat, k: nat)
    requires k < PerArena(c)
    ensures ArenaOf(Block(a, c, k)) == a
    ensures a * PG_SIZE + HEADER <= Block(a, c, k) && Block(a, c, k) + Size(c) <= (a + 1) * PG_SIZE
  {
    assert k * Size(c) + Size(c) <= PerArena(c) * Size(c) by { SizeTimes(c, k); }
  }

  lemma SizeTimes(c: nat, k: nat)
    requires k < PerArena(c)
    ensures k * Size(c) + Size(c) <= PerArena(c) * Size(c) <= PG_SIZE - HEADER
  {
    assert (k + 1) * Size(c) == k * Size(c) + Size(c);
  }

  lemma BlocksApart(a: nat, c: nat, j: nat, k: nat)
    requires j < k
    ensures Block(a, c, j) + Size(c) <= Block(a, c, k)
  {
    assert (j + 1) * Size(c) == j * Size(c) + Size(c);
    assert (k - j - 1) * Size(c) >= 0;
    assert k * Size(c) == (j + 1) * Size(c) + (k - j - 1) * Size(c);
  }
}
