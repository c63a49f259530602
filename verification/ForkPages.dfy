/** The memory side of fork and exit: copy_body_stack3 in userprog/fork.c and the page loops of
    release_prog_resource in userprog/wait_exit.c. */
module ForkPages {
  import opened Bitmap
  import opened Pages
  import opened PageInv

  type Bytes = seq<bv8>
  const USER_PDES := 768
  const PTES := 1024

  /** Every mapped page lies in user space, and its directory entry has a page table. */
  ghost predicate Tabled(sp: Space) {
    && (forall i :: i in sp.pages ==> Pde(sp, i) in sp.tables)
    && (forall d :: d in sp.tables ==> d < USER_PDES)
  }

  /** Page i of the child is a copy of page i of the parent. */
  ghost predicate Copied(parent: Space, child: Space, before: map<nat, Bytes>, after: map<nat, Bytes>, i: nat) {
    && i in parent.pages && i in child.pages && parent.pages[i] in before && child.pages[i] in after
    && after[child.pages[i]] == before[parent.pages[i]]
  }

  ghost predicate PagesCopied(parent: Space, child: Space, before: map<nat, Bytes>, after: map<nat, Bytes>, n: nat) {
    && (forall i :: i in child.pages <==> i in parent.pages && i < n)
    && (forall i :: i in child.pages ==> Copied(parent, child, before, after, i))
  }

  ghost predicate RestSame(rest: set<nat>, before: map<nat, Bytes>, after: map<nat, Bytes>) {
    forall f :: f in rest && f in before ==> f in after && after[f] == before[f]
  }

  /** What the two loops have done when bits below n have been looked at: the child's pages so far
      are copies in frames of its own, and no frame of the rest, the parent's included, changed. */
  ghost predicate CopiedTo(m: Mem, parent: Space, child: Space, rest: set<nat>, before: map<nat, Bytes>,
      after: map<nat, Bytes>, n: nat) {
    && Frames(m, child, rest) && Tabled(child) && child.user && child.base == parent.base && child.bits == parent.bits
    && PagesCopied(parent, child, before, after, n) && RestSame(rest, before, after)
  }

  /** The parent's frames are among the rest, and have contents. */
  ghost predicate Readable(parent: Space, rest: set<nat>, data: map<nat, Bytes>) {
    && parent.user && BitsOk(parent)
    && forall i :: i in parent.pages ==> parent.pages[i] in rest && parent.pages[i] in data
  }

  lemma CopyOne(m: Mem, parent: Space, child: Space, rest: set<nat>, before: map<nat, Bytes>, after: map<nat, Bytes>,
      i: nat)
    requires CopiedTo(m, parent, child, rest, before, after, i) && Readable(parent, rest, before)
    requires i in parent.pages && Pde(parent, i) < USER_PDES
    ensures match MapPage(m, child, i)
      case Mapped(m', child') =>
        && i in child'.pages
        && CopiedTo(m', parent, child', rest, before, after[child'.pages[i] := before[parent.pages[i]]], i + 1)
        && FreeCount(m'.user.bits) == FreeCount(m.user.bits) - 1 && |child'.pages| == |child.pages| + 1
      case NoFrame(_, _) => FreeCount(m.user.bits) == 0
      case NoTable => FreeCount(m.kernel.bits) == 0
  {
    hide Frames, FreeCount, MapPage, Tabled, PagesCopied, RestSame, Taken;
    assert Pde(child, i) == Pde(parent, i) && i !in child.pages by { NotYet(parent, child, before, after, i); }
    MapPageWorks(m, child, rest, i);
    match MapPage(m, child, i)
    case Mapped(m', child') =>
      MapMakesTable(m, child, i);
      CopyMapped(m, m', parent, child, child', rest, before, after, i);
    case NoFrame(_, _) =>
    case NoTable =>
  }

  lemma NotYet(parent: Space, child: Space, before: map<nat, Bytes>, after: map<nat, Bytes>, i: nat)
    requires PagesCopied(parent, child, before, after, i)
    ensures i !in child.pages
  {
  }

  lemma CopyMapped(m: Mem, m': Mem, parent: Space, child: Space, child': Space, rest: set<nat>,
      before: map<nat, Bytes>, after: map<nat, Bytes>, i: nat)
    requires CopiedTo(m, parent, child, rest, before, after, i) && Readable(parent, rest, before) && i in parent.pages
    requires Frames(m', child', rest) && Tabled(child') && Grew(m, child, m', child', i)
    ensures CopiedTo(m', parent, child', rest, before, after[child'.pages[i] := before[parent.pages[i]]], i + 1)
    ensures |child'.pages| == |child.pages| + 1
  {
    hide Frames, FreeCount, Tabled, PagesCopied, RestSame, Taken;
    NotTaken(m, child, rest, child'.pages[i]);
    NewCopy(parent, child, child', before, after, i, child'.pages[i]);
    NotYet(parent, child, before, after, i);
    OnePageMore(child.pages, i, child'.pages[i]);
    NewRest(rest, before, after, child'.pages[i], before[parent.pages[i]]);
  }

  lemma NewRest(rest: set<nat>, before: map<nat, Bytes>, after: map<nat, Bytes>, f: nat, bytes: Bytes)
    requires RestSame(rest, before, after) && f !in rest
    ensures RestSame(rest, before, after[f := bytes])
  {
  }

  lemma NewCopy(parent: Space, child: Space, child': Space, before: map<nat, Bytes>, after: map<nat, Bytes>, i: nat,
      f: nat)
    requires PagesCopied(parent, child, before, after, i) && i in parent.pages && parent.pages[i] in before
    requires child'.pages == child.pages[i := f] && forall j :: !PageAt(child, j, f)
    ensures PagesCopied(parent, child', before, after[f := before[parent.pages[i]]], i + 1)
  {
    hide Copied;
    var after' := after[f := before[parent.pages[i]]];
    forall j | j in child'.pages ensures Copied(parent, child', before, after', j) {
      CopiedStill(parent, child, child', before, after, i, j, f);
    }
  }

  lemma OnePageMore(pages: map<nat, nat>, i: nat, f: nat)
    requires i !in pages
    ensures |pages[i := f]| == |pages| + 1
  {
    assert pages[i := f].Keys == pages.Keys + {i};
  }

  lemma CopiedStill(parent: Space, child: Space, child': Space, before: map<nat, Bytes>, after: map<nat, Bytes>,
      i: nat, j: nat, f: nat)
    requires i in parent.pages && parent.pages[i] in before && child'.pages == child.pages[i := f] && j in child'.pages
    requires j != i ==> j in child.pages && Copied(parent, child, before, after, j) && !PageAt(child, j, f)
    ensures Copied(parent, child', before, after[f := before[parent.pages[i]]], j)
  {
  }

  lemma NotTaken(m: Mem, sp: Space, rest: set<nat>, f: nat)
    requires Frames(m, sp, rest) && !Taken(m, f)
    ensures f !in rest && forall i :: !PageAt(sp, i, f)
  {
    assert !Uses(sp, f);
  }

  lemma MapMakesTable(m: Mem, sp: Space, i: nat)
    requires sp.user && MapPage(m, sp, i).Mapped? && Tabled(sp) && Pde(sp, i) < USER_PDES
    ensures Tabled(MapPage(m, sp, i).sp)
  {
  }

  /** The page about to be copied is in the parent, not yet in the child, and unchanged so far. */
  lemma NextPage(m: Mem, parent: Space, child: Space, rest: set<nat>, before: map<nat, Bytes>, after: map<nat, Bytes>,
      i: nat)
    requires CopiedTo(m, parent, child, rest, before, after, i) && Readable(parent, rest, before) && Tabled(parent)
      && i in parent.pages
    ensures |child.pages| < |parent.pages| && Pde(parent, i) < USER_PDES
    ensures parent.pages[i] in after && after[parent.pages[i]] == before[parent.pages[i]]
  {
    hide Frames, Copied;
    FewerPages(child, parent, i);
  }

  lemma SkipOne(m: Mem, parent: Space, child: Space, rest: set<nat>, before: map<nat, Bytes>, after: map<nat, Bytes>,
      i: nat, n: nat)
    requires CopiedTo(m, parent, child, rest, before, after, i) && i <= n
    requires forall j :: i <= j < n ==> j !in parent.pages
    ensures CopiedTo(m, parent, child, rest, before, after, n)
  {
    hide Frames;
  }

  lemma FewerPages(child: Space, parent: Space, i: nat)
    requires (forall j :: j in child.pages ==> j in parent.pages) && i in parent.pages && i !in child.pages
    ensures |child.pages| < |parent.pages|
  {
    Larger(child.pages.Keys + {i}, parent.pages.Keys);
  }

  lemma Larger(s: set<nat>, t: set<nat>)
    requires s <= t
    ensures |s| <= |t|
  {
    assert t == s + (t - s);
  }

  /** When every bit has been looked at, the child has the pages of the parent. */
  lemma AllCopied(m: Mem, parent: Space, child: Space, rest: set<nat>, before: map<nat, Bytes>,
      after: map<nat, Bytes>)
    requires Readable(parent, rest, before) && CopiedTo(m, parent, child, rest, before, after, |parent.bits|)
    ensures child.base == parent.base && child.pages.Keys == parent.pages.Keys
  {
    hide Copied, Frames;
  }

  lemma NothingCopied(m: Mem, parent: Space, child: Space, rest: set<nat>, data: map<nat, Bytes>)
    requires Frames(m, child, rest) && child == Space(true, parent.base, parent.bits, map[], map[])
    ensures CopiedTo(m, parent, child, rest, data, data, 0) && Tally(m, m, child)
  {
    hide Frames, FreeCount, Copied;
  }

  /** Mapping page i adds page i alone. */
  lemma CopyShape(m: Mem, parent: Space, child: Space, rest: set<nat>, before: map<nat, Bytes>, after: map<nat, Bytes>,
      i: nat)
    requires CopiedTo(m, parent, child, rest, before, after, i)
    ensures child.user && child.base == parent.base && i !in child.pages
    ensures forall j :: j in child.pages ==> j in parent.pages
    ensures MapPage(m, child, i).Mapped? ==>
      i in MapPage(m, child, i).sp.pages
      && MapPage(m, child, i).sp.pages == child.pages[i := MapPage(m, child, i).sp.pages[i]]
  {
    hide Frames, Copied, FreeCount, MapPage;
    NotYet(parent, child, before, after, i);
    MapPageWorks(m, child, rest, i);
  }

  // ---------------------------------------------------------------- what the copy takes from the pools

  /** The directory entries that the pages of a space need. */
  ghost function Pdes(sp: Space): set<nat> { set i | i in sp.pages :: Pde(sp, i) }

  /** So far every page took a user frame, and every directory entry a frame of the kernel. */
  ghost predicate Tally(m0: Mem, m: Mem, child: Space) {
    && FreeCount(m.user.bits) + |child.pages| == FreeCount(m0.user.bits)
    && FreeCount(m.kernel.bits) + |child.tables.Keys| == FreeCount(m0.kernel.bits)
    && child.tables.Keys == Pdes(child)
  }

  lemma TallyStep(m0: Mem, m: Mem, child: Space, i: nat)
    requires Tally(m0, m, child) && child.user && i !in child.pages && MapPage(m, child, i).Mapped?
    requires var sp := MapPage(m, child, i).sp; sp.pages == child.pages[i := sp.pages[i]]
    ensures Tally(m0, MapPage(m, child, i).m, MapPage(m, child, i).sp)
  {
    hide FreeCount, MapPage, Pde, Pdes;
    MapPageCounts(m, child, i);
    OnePageMore(child.pages, i, MapPage(m, child, i).sp.pages[i]);
    PdesGrow(child, MapPage(m, child, i).sp, i);
    OneElementMore(child.tables.Keys, Pde(child, i));
  }

  lemma PdesGrow(sp: Space, sp': Space, i: nat)
    requires sp'.base == sp.base && i in sp'.pages && sp'.pages == sp.pages[i := sp'.pages[i]]
    ensures Pdes(sp') == Pdes(sp) + {Pde(sp, i)}
  {
    forall d ensures d in Pdes(sp') <==> d in Pdes(sp) || d == Pde(sp, i) {
      if j :| j in sp'.pages && d == Pde(sp', j) {
        assert j != i ==> j in sp.pages && d == Pde(sp, j);
      }
      if j :| j in sp.pages && d == Pde(sp, j) {
        assert j in sp'.pages && d == Pde(sp', j);
      }
      assert Pde(sp', i) == Pde(sp, i);
    }
  }

  lemma OneElementMore(s: set<nat>, d: nat)
    ensures |s + {d}| == |s| + if d in s then 0 else 1
  {
    assert d in s ==> s + {d} == s;
  }

  /** Spaces with the same pages need the same tables. */
  lemma SamePdes(sp: Space, sp': Space)
    requires sp'.base == sp.base && forall j :: j in sp'.pages ==> j in sp.pages
    ensures Pdes(sp') <= Pdes(sp)
  {
    forall d | d in Pdes(sp') ensures d in Pdes(sp) {
      var j :| j in sp'.pages && d == Pde(sp', j);
      assert d == Pde(sp, j);
    }
  }

  lemma PdeIn(sp: Space, sp': Space, i: nat)
    requires i in sp.pages && sp'.base == sp.base
    ensures Pde(sp', i) in Pdes(sp)
  {
  }

  /** Where the copy stops, the frames could not have been enough. */
  lemma TooFew(m0: Mem, m: Mem, parent: Space, child: Space, i: nat)
    requires Tally(m0, m, child) && child.user && child.base == parent.base && i in parent.pages && i !in child.pages
    requires (forall j :: j in child.pages ==> j in parent.pages) && !MapPage(m, child, i).Mapped?
    ensures FreeCount(m0.user.bits) < |parent.pages| || FreeCount(m0.kernel.bits) < |Pdes(parent)|
  {
    hide FreeCount, MapPage, Pdes, Pde;
    MapPageCounts(m, child, i);
    FewerPages(child, parent, i);
    if MapPage(m, child, i).NoTable? {
      SamePdes(parent, child);
      PdeIn(parent, child, i);
      OneElementMore(Pdes(child), Pde(child, i));
      Larger(Pdes(child) + {Pde(child, i)}, Pdes(parent));
    }
  }

  /** Where the copy is complete, they were. */
  lemma Enough(m0: Mem, m: Mem, parent: Space, child: Space)
    requires Tally(m0, m, child) && child.base == parent.base && child.pages.Keys == parent.pages.Keys
    ensures FreeCount(m0.user.bits) >= |parent.pages| && FreeCount(m0.kernel.bits) >= |Pdes(parent)|
  {
    hide FreeCount, Pdes;
    assert forall j :: j in child.pages <==> j in parent.pages;
    SamePdes(parent, child);
    SamePdes(child, parent);
    assert Pdes(parent) == Pdes(child);
    assert |parent.pages| == |parent.pages.Keys| == |child.pages|;
  }

  class Forking {
    var m: Mem
    var child: Space
    var data: map<nat, Bytes>

    /** copy_body_stack3.  bytes is the parent's bitmap; the child already has a copy of it. */
    method CopyBody(parent: Space, bytes: seq<bv8>, ghost rest: set<nat>) returns (ok: bool)
      requires View(bytes) == parent.bits && Readable(parent, rest, data) && Tabled(parent)
      requires Frames(m, child, rest) && child == Space(true, parent.base, parent.bits, map[], map[])
      modifies this
      ensures ok ==> CopiedTo(m, parent, child, rest, old(data), data, |parent.bits|)
      ensures ok <==> FreeCount(old(m).user.bits) >= |parent.pages| && FreeCount(old(m).kernel.bits) >= |Pdes(parent)|
    {
      hide Frames, FreeCount, View, CopiedTo, MapPage, Tally, Pdes, Tabled;
      NothingCopied(m, parent, child, rest, data);
      var idxByte := 0;
      while idxByte < |bytes|
        invariant 0 <= idxByte <= |bytes| && CopiedTo(m, parent, child, rest, old(data), data, 8 * idxByte)
        invariant Tally(old(m), m, child)
      {
        if bytes[idxByte] != 0 {
          ok := CopyByte(parent, bytes, idxByte, rest, old(data), old(m));
          if !ok {
            return;
          }
        } else {
          ZeroByte(parent, bytes, idxByte);
          SkipOne(m, parent, child, rest, old(data), data, 8 * idxByte, 8 * (idxByte + 1));
        }
        idxByte := idxByte + 1;
      }
      AllCopied(m, parent, child, rest, old(data), data);
      Enough(old(m), m, parent, child);
      return true;
    }

    /** The inner loop. */
    method CopyByte(parent: Space, bytes: seq<bv8>, idxByte: nat, ghost rest: set<nat>, ghost before: map<nat, Bytes>,
        ghost m0: Mem)
      returns (ok: bool)
      requires idxByte < |bytes| && View(bytes) == parent.bits && Readable(parent, rest, before) && Tabled(parent)
      requires CopiedTo(m, parent, child, rest, before, data, 8 * idxByte) && Tally(m0, m, child)
      modifies this
      ensures ok ==> CopiedTo(m, parent, child, rest, before, data, 8 * (idxByte + 1)) && Tally(m0, m, child)
      ensures !ok ==> FreeCount(m0.user.bits) < |parent.pages| || FreeCount(m0.kernel.bits) < |Pdes(parent)|
    {
      hide Frames, FreeCount, View, CopiedTo, MapPage, Bit, Tabled, Pde, Tally, Pdes;
      var idxBit := 0;
      while idxBit < 8
        invariant 0 <= idxBit <= 8 && CopiedTo(m, parent, child, rest, before, data, 8 * idxByte + idxBit)
        invariant Tally(m0, m, child)
      {
        var i := 8 * idxByte + idxBit;
        ViewAt(bytes, idxByte, idxBit);
        if Bit(bytes[idxByte], idxBit) {
          NextPage(m, parent, child, rest, before, data, i);
          CopyOne(m, parent, child, rest, before, data, i);
          var page := data[parent.pages[i]];
          var o := MapPage(m, child, i);
          CopyShape(m, parent, child, rest, before, data, i);
          if !o.Mapped? {
            TooFew(m0, m, parent, child, i);
            return false;
          }
          TallyStep(m0, m, child, i);
          m, child := o.m, o.sp;
          data := data[child.pages[i] := page];
        } else {
          SkipOne(m, parent, child, rest, before, data, i, i + 1);
        }
        idxBit := idxBit + 1;
      }
      return true;
    }

    // -------------------------------------------------------------- exit

    /** The page loops of release_prog_resource give back every frame of the space, page tables
        included, and no other. */
    method Release(sp: Space, ghost rest: set<nat>)
      requires Frames(m, sp, rest) && Tabled(sp) && sp.user
      modifies this`m
      ensures forall f :: Taken(m, f) <==> f in rest
    {
      hide Frames, Taken, Pfree, Selects;
      ghost var rem := sp;
      var d := 0;
      while d < USER_PDES
        invariant 0 <= d <= USER_PDES && Frames(m, rem, rest) && Left(sp, rem, d * PTES, d)
      {
        if d in sp.tables {
          rem := ReleaseTable(sp, rem, rest, d);
          TableRemoved(m, rem, rest, d);
          m := Pfree(m, sp.tables[d]);
          rem := rem.(tables := rem.tables - {d});
        } else {
          NoPagesThere(sp, rem, d);
        }
        d := d + 1;
      }
      TablesGone(sp, rem, rest, m);
    }

    /** The inner loop, over one page table. */
    method ReleaseTable(sp: Space, ghost rem0: Space, ghost rest: set<nat>, d: nat) returns (ghost rem: Space)
      requires d in sp.tables && Frames(m, rem0, rest) && Left(sp, rem0, d * PTES, d)
      modifies this`m
      ensures Frames(m, rem, rest) && Left(sp, rem, (d + 1) * PTES, d)
    {
      hide Frames, Pfree, Selects;
      rem := rem0;
      var t := 0;
      while t < PTES
        invariant 0 <= t <= PTES && Frames(m, rem, rest) && Left(sp, rem, d * PTES + t, d)
      {
        var v := d * PTES + t;
        if v >= sp.base && v - sp.base in sp.pages {
          PageRemoved(m, rem, rest, v - sp.base);
          m := Pfree(m, sp.pages[v - sp.base]);
          rem := rem.(pages := rem.pages - {v - sp.base});
        }
        t := t + 1;
      }
    }
  }

  lemma ZeroByte(parent: Space, bytes: seq<bv8>, idxByte: nat)
    requires idxByte < |bytes| && bytes[idxByte] == 0 && View(bytes) == parent.bits && BitsOk(parent)
    ensures forall j :: 8 * idxByte <= j < 8 * (idxByte + 1) ==> j !in parent.pages
  {
    hide View;
    forall j | 8 * idxByte <= j < 8 * (idxByte + 1) ensures j !in parent.pages {
      ViewAt(bytes, idxByte, j - 8 * idxByte);
    }
  }

  /** What is left of the space when virtual pages below v and tables below d have been given back. */
  ghost predicate Left(sp: Space, rem: Space, v: nat, d: nat) {
    && rem.user == sp.user && rem.base == sp.base
    && (forall i :: i in rem.pages <==> i in sp.pages && sp.base + i >= v)
    && (forall i :: i in rem.pages ==> rem.pages[i] == sp.pages[i])
    && (forall e :: e in rem.tables <==> e in sp.tables && e >= d)
    && (forall e :: e in rem.tables ==> rem.tables[e] == sp.tables[e])
  }

  lemma NoPagesThere(sp: Space, rem: Space, d: nat)
    requires Tabled(sp) && d !in sp.tables && Left(sp, rem, d * PTES, d)
    ensures Left(sp, rem, (d + 1) * PTES, d + 1)
  {
    forall i | i in sp.pages && sp.base + i >= d * PTES ensures sp.base + i >= (d + 1) * PTES {
      assert Pde(sp, i) != d;
    }
  }

  lemma TableRemoved(m: Mem, sp: Space, rest: set<nat>, d: nat)
    requires Frames(m, sp, rest) && d in sp.tables
    ensures Selects(m, sp.tables[d]) && Frames(Pfree(m, sp.tables[d]), sp.(tables := sp.tables - {d}), rest)
  {
    var f := sp.tables[d];
    assert TableAt(sp, d, f) && Uses(sp, f);
    PfreeFrees(m, f);
    var sp' := sp.(tables := sp.tables - {d});
    forall e: nat, g: nat ensures TableAt(sp', e, g) <==> TableAt(sp, e, g) && e != d {
    }
    forall i: nat, g: nat ensures PageAt(sp', i, g) <==> PageAt(sp, i, g) {
    }
    forall g: nat ensures Uses(sp', g) <==> Uses(sp, g) && g != f {
      if Uses(sp, g) && g != f {
        if i :| PageAt(sp, i, g) {
          assert PageAt(sp', i, g);
        } else {
          var e :| TableAt(sp, e, g);
          assert TableAt(sp', e, g);
        }
      }
    }
  }

  /** Nothing is left, so the frames that are still taken are the rest. */
  lemma TablesGone(sp: Space, rem: Space, rest: set<nat>, m: Mem)
    requires Frames(m, rem, rest) && Tabled(sp) && Left(sp, rem, USER_PDES * PTES, USER_PDES)
    ensures forall f :: Taken(m, f) <==> f in rest
  {
    forall f: nat ensures !Uses(rem, f) {
      forall i: nat ensures !PageAt(rem, i, f) {
        assert i in sp.pages ==> Pde(sp, i) < USER_PDES;
      }
    }
  }
}
