/** The bitmap of lib/kernel/bitmap.c: an array of bytes read as a row of bits.
    Everything above it (page pools, block and inode bitmaps, pids) is stated on `View`,
    the row of booleans, so this module is where bytes and masks stop mattering. */
module Bitmap {

  /** BITMAP_MASK << k, narrowed to a byte. */
  function Mask(k: nat): bv8
    requires k < 8
  {
    if k == 0 then 1 else if k == 1 then 2 else if k == 2 then 4 else if k == 3 then 8
    else if k == 4 then 16 else if k == 5 then 32 else if k == 6 then 64 else 128
  }

  predicate Bit(b: bv8, k: nat)
    requires k < 8
  {
    b & Mask(k) != 0
  }

  /** The bits of a row of bytes, least significant bit of the first byte first. */
  function View(bytes: seq<bv8>): (v: seq<bool>)
    ensures |v| == 8 * |bytes|
  {
    if bytes == [] then [] else
    var b := bytes[|bytes| - 1];
    View(bytes[..|bytes| - 1])
      + [Bit(b, 0), Bit(b, 1), Bit(b, 2), Bit(b, 3), Bit(b, 4), Bit(b, 5), Bit(b, 6), Bit(b, 7)]
  }

  lemma {:induction false} ViewAt(bytes: seq<bv8>, p: nat, k: nat)
    requires p < |bytes| && k < 8
    ensures View(bytes)[8 * p + k] == Bit(bytes[p], k)
  {
    if p < |bytes| - 1 {
      ViewAt(bytes[..|bytes| - 1], p, k);
    }
  }

  // ---------------------------------------------------------------- reference search

  /** Bits start .. start + cnt - 1 exist and are all clear. */
  predicate ClearRun(v: seq<bool>, start: int, cnt: nat) {
    0 <= start && start + cnt <= |v| && forall k :: start <= k < start + cnt ==> !v[k]
  }

  /** r is the start of the leftmost run of cnt clear bits, or -1 when there is none. */
  ghost predicate IsLeftmost(v: seq<bool>, cnt: nat, r: int) {
    if r == -1 then forall s :: !ClearRun(v, s, cnt)
    else ClearRun(v, r, cnt) && forall s :: s < r ==> !ClearRun(v, s, cnt)
  }

  function FindFrom(v: seq<bool>, cnt: nat, s: nat): (r: int)
    requires s <= |v|
    requires forall k :: k < s ==> !ClearRun(v, k, cnt)
    ensures IsLeftmost(v, cnt, r)
    ensures r == -1 || r >= s
    decreases |v| - s
  {
    if ClearRun(v, s, cnt) then s
    else if s == |v| then -1
    else FindFrom(v, cnt, s + 1)
  }

  function FindRun(v: seq<bool>, cnt: nat): (r: int)
    ensures IsLeftmost(v, cnt, r)
  {
    FindFrom(v, cnt, 0)
  }

  lemma LeftmostUnique(v: seq<bool>, cnt: nat, a: int, b: int)
    requires IsLeftmost(v, cnt, a) && IsLeftmost(v, cnt, b)
    ensures a == b
  {
    assert a != -1 ==> ClearRun(v, a, cnt);
    assert b != -1 ==> ClearRun(v, b, cnt);
  }

  lemma RunOfOne(v: seq<bool>)
    ensures forall s :: ClearRun(v, s, 1) <==> 0 <= s < |v| && !v[s]
  {
    forall s | 0 <= s < |v| && !v[s] ensures ClearRun(v, s, 1) {
      assert v[s] == false;
    }
  }

  /** How many bits are clear. */
  function FreeCount(bits: seq<bool>): nat {
    if bits == [] then 0 else FreeCount(bits[..|bits| - 1]) + if bits[|bits| - 1] then 0 else 1
  }

  lemma {:induction false} FreeCountSet(bits: seq<bool>, k: nat)
    requires k < |bits| && !bits[k]
    ensures FreeCount(bits[k := true]) == FreeCount(bits) - 1
  {
    var n := |bits| - 1;
    if k < n {
      FreeCountSet(bits[..n], k);
      assert bits[k := true][..n] == bits[..n][k := true];
    } else {
      assert bits[k := true][..n] == bits[..n];
    }
  }

  lemma {:induction false} FreeCountZero(bits: seq<bool>)
    ensures FreeCount(bits) == 0 <==> forall k :: 0 <= k < |bits| ==> bits[k]
  {
    if bits != [] {
      FreeCountZero(bits[..|bits| - 1]);
      assert bits == bits[..|bits| - 1] + [bits[|bits| - 1]];
    }
  }

  // ---------------------------------------------------------------- single bits

  lemma MaskBits(b: bv8, k: nat, j: nat)
    requires k < 8 && j < 8
    ensures Bit(b | Mask(k), j) == (j == k || Bit(b, j))
    ensures Bit(b & !Mask(k), j) == (j != k && Bit(b, j))
  {
  }

  lemma FullByte(b: bv8)
    ensures b == 0xff <==> forall k :: 0 <= k < 8 ==> Bit(b, k)
  {
    if forall k :: 0 <= k < 8 ==> Bit(b, k) {
      assert Bit(b, 0) && Bit(b, 1) && Bit(b, 2) && Bit(b, 3);
      assert Bit(b, 4) && Bit(b, 5) && Bit(b, 6) && Bit(b, 7);
    }
  }

  function SetByte(b: bv8, k: nat, value: bool): bv8
    requires k < 8
  {
    if value then b | Mask(k) else b & !Mask(k)
  }

  lemma SetByteView(before: seq<bv8>, i: nat, value: bool)
    requires i < 8 * |before|
    ensures View(before[i / 8 := SetByte(before[i / 8], i % 8, value)]) == View(before)[i := value]
  {
    hide View, Bit, Mask, SetByte;
    var after := before[i / 8 := SetByte(before[i / 8], i % 8, value)];
    forall j | 0 <= j < 8 * |before|
      ensures View(after)[j] == View(before)[i := value][j]
    {
      ViewAt(before, j / 8, j % 8);
      ViewAt(after, j / 8, j % 8);
      SetBits(before[i / 8], i % 8, value, j % 8);
    }
  }

  lemma SetBits(b: bv8, k: nat, value: bool, j: nat)
    requires k < 8 && j < 8
    ensures Bit(SetByte(b, k, value), j) == if j == k then value else Bit(b, j)
  {
    hide Bit, Mask;
    MaskBits(b, k, j);
  }

  /** bitmap_scan_test */
  method ScanTest(bits: array<bv8>, i: nat) returns (r: bool)
    requires i < 8 * bits.Length
    ensures r == View(bits[..])[i]
  {
    var byteIdx, bitOdd := i / 8, i % 8;
    ViewAt(bits[..], byteIdx, bitOdd);
    r := bits[byteIdx] & Mask(bitOdd) != 0;
  }

  /** bitmap_set: setting or clearing one bit of one byte is an update of the row of bits at
      that index, and of nothing else. */
  method Set(bits: array<bv8>, i: nat, value: bool)
    requires i < 8 * bits.Length
    modifies bits
    ensures View(bits[..]) == View(old(bits[..]))[i := value]
  {
    SetByteView(bits[..], i, value);
    var byteIdx, bitOdd := i / 8, i % 8;
    var b := SetByte(bits[byteIdx], bitOdd, value);
    assert bits[..][byteIdx := b] == bits[..byteIdx] + [b] + bits[byteIdx + 1..];
    bits[byteIdx] := b;
    assert bits[..] == old(bits[..])[byteIdx := b];
  }

  /** The first loop of bitmap_scan: skip full bytes. */
  method SkipFullBytes(bits: array<bv8>) returns (idxByte: nat)
    ensures idxByte <= bits.Length
    ensures forall k :: 0 <= k < 8 * idxByte ==> View(bits[..])[k]
    ensures idxByte < bits.Length ==> bits[idxByte] != 0xff
  {
    idxByte := 0;
    while idxByte < bits.Length && bits[idxByte] == 0xff
      invariant 0 <= idxByte <= bits.Length
      invariant forall k :: 0 <= k < 8 * idxByte ==> View(bits[..])[k]
    {
      UsedByte(bits[..], idxByte);
      idxByte := idxByte + 1;
    }
  }

  /** Its second loop: the lowest clear bit of a byte that has one. */
  method LowestClear(b: bv8) returns (idxBit: nat)
    requires b != 0xff
    ensures idxBit < 8 && !Bit(b, idxBit)
    ensures forall k :: 0 <= k < idxBit ==> Bit(b, k)
  {
    FullByte(b);
    idxBit := 0;
    while b & Mask(idxBit) != 0
      invariant 0 <= idxBit < 8
      invariant forall k :: 0 <= k < idxBit ==> Bit(b, k)
      invariant exists k :: idxBit <= k < 8 && !Bit(b, k)
      decreases 8 - idxBit
    {
      assert Bit(b, idxBit);
      idxBit := idxBit + 1;
    }
  }

  method FirstClear(bits: array<bv8>) returns (r: int)
    ensures r == FindRun(View(bits[..]), 1)
  {
    ghost var v := View(bits[..]);
    RunOfOne(v);
    var idxByte := SkipFullBytes(bits);
    if idxByte == bits.Length {
      LeftmostUnique(v, 1, -1, FindRun(v, 1));
      return -1;
    }
    var idxBit := LowestClear(bits[idxByte]);
    r := idxByte * 8 + idxBit;
    forall k | 8 * idxByte <= k <= r ensures v[k] == (k < r) {
      ViewAt(bits[..], idxByte, k - 8 * idxByte);
    }
    LeftmostUnique(v, 1, r, FindRun(v, 1));
  }

  lemma UsedByte(bytes: seq<bv8>, p: nat)
    requires p < |bytes| && bytes[p] == 0xff
    ensures forall k :: 8 * p <= k < 8 * p + 8 ==> View(bytes)[k]
  {
    FullByte(bytes[p]);
    forall k | 8 * p <= k < 8 * p + 8 ensures View(bytes)[k] {
      ViewAt(bytes, p, k - 8 * p);
    }
  }

  /** The counting loop so far: the clear run ending before `next` has length `count`, and no
      run of cnt clear bits ends before `next`. */
  ghost predicate Counting(v: seq<bool>, cnt: nat, next: nat, count: nat) {
    && count <= next <= |v|
    && (forall k :: next - count <= k < next ==> !v[k])
    && (next > count ==> v[next - count - 1])
    && (forall s :: s + cnt < next ==> !ClearRun(v, s, cnt))
    && (count < cnt ==> forall s :: s + cnt <= next ==> !ClearRun(v, s, cnt))
  }

  lemma CountingStart(v: seq<bool>, cnt: nat, first: nat)
    requires cnt > 1 && first < |v| && !v[first]
    requires forall k :: 0 <= k < first ==> v[k]
    ensures Counting(v, cnt, first + 1, 1)
  {
    forall s | s + cnt <= first + 1 ensures !ClearRun(v, s, cnt) {
      assert 0 <= s ==> v[s];
    }
  }

  lemma CountingStep(v: seq<bool>, cnt: nat, next: nat, count: nat)
    requires Counting(v, cnt, next, count) && count < cnt && next < |v|
    ensures Counting(v, cnt, next + 1, if v[next] then 0 else count + 1)
  {
    var c := if v[next] then 0 else count + 1;
    if c < cnt {
      forall s | s + cnt == next + 1 ensures !ClearRun(v, s, cnt) {
        if 0 <= s {
          assert s <= next - c < s + cnt && v[next - c];
        }
      }
    }
  }

  lemma CountingFound(v: seq<bool>, cnt: nat, next: nat)
    requires Counting(v, cnt, next, cnt)
    ensures FindRun(v, cnt) == next - cnt
  {
    assert ClearRun(v, next - cnt, cnt);
    LeftmostUnique(v, cnt, next - cnt, FindRun(v, cnt));
  }

  /** bitmap_scan.  For cnt > 1 the last turn of its loop tests the bit just past the end of
      the bitmap: `past` is what memory holds there.  The search is the leftmost-run search on
      the row extended by that bit. */
  method Scan(bits: array<bv8>, cnt: nat, past: bool) returns (r: int)
    requires cnt >= 1
    ensures cnt == 1 ==> r == FindRun(View(bits[..]), 1)
    ensures cnt > 1 ==> r == FindRun(View(bits[..]) + [past], cnt)
  {
    hide View, Counting, FindRun, IsLeftmost, ClearRun;
    ghost var v := View(bits[..]) + [past];
    var first := FirstClear(bits);
    FirstIs(View(bits[..]), first);
    if first == -1 {
      if cnt > 1 {
        NoRunWithin(View(bits[..]), past, cnt);
      }
      return -1;
    }
    if cnt == 1 {
      return first;
    }
    assert forall k :: 0 <= k <= first ==> v[k] == View(bits[..])[k];
    CountingStart(v, cnt, first);
    var bitLeft := bits.Length * 8 - first;
    var nextBit := first + 1;
    var count := 1;
    while bitLeft > 0
      invariant bitLeft >= 0 && nextBit + bitLeft == |v|
      invariant 0 <= count < cnt
      invariant Counting(v, cnt, nextBit, count)
    {
      bitLeft := bitLeft - 1;
      CountingStep(v, cnt, nextBit, count);
      var used := past;
      if nextBit < 8 * bits.Length {
        used := ScanTest(bits, nextBit);
      }
      count := if !used then count + 1 else 0;
      if count == cnt {
        CountingFound(v, cnt, nextBit + 1);
        return nextBit - cnt + 1;
      }
      nextBit := nextBit + 1;
    }
    CountingNone(v, cnt, count);
    r := -1;
  }

  lemma FirstIs(v: seq<bool>, r: int)
    requires r == FindRun(v, 1)
    ensures r == -1 ==> forall k :: 0 <= k < |v| ==> v[k]
    ensures r != -1 ==> 0 <= r < |v| && !v[r] && forall k :: 0 <= k < r ==> v[k]
  {
    hide FindRun;
    RunOfOne(v);
    forall k | 0 <= k < |v| && !v[k] ensures ClearRun(v, k, 1) {
    }
  }

  lemma CountingNone(v: seq<bool>, cnt: nat, count: nat)
    requires Counting(v, cnt, |v|, count) && count < cnt
    ensures FindRun(v, cnt) == -1
  {
    LeftmostUnique(v, cnt, -1, FindRun(v, cnt));
  }

  lemma NoRunWithin(v: seq<bool>, past: bool, cnt: nat)
    requires cnt > 1 && forall k :: 0 <= k < |v| ==> v[k]
    ensures FindRun(v + [past], cnt) == -1
  {
    forall s ensures !ClearRun(v + [past], s, cnt) {
      if 0 <= s && s + cnt <= |v| + 1 { assert (v + [past])[s] == v[s]; }
    }
    LeftmostUnique(v + [past], cnt, -1, FindRun(v + [past], cnt));
  }

  // ---------------------------------------------------------------- the bit past the end

  /** The last cnt - 1 bits of the row are clear, so the extra bit could complete a run. */
  predicate TailClear(v: seq<bool>, cnt: nat)
    requires cnt > 1
  {
    ClearRun(v, |v| - (cnt - 1), cnt - 1)
  }

  /** Exactly when the scan for cnt > 1 is the leftmost-run search on the bitmap itself: unless
      the bit past the end is clear, the bitmap holds no run of its own, and its last cnt - 1
      bits are clear.  In that one case it answers a run that sticks out of the bitmap. */
  lemma ScanExact(v: seq<bool>, past: bool, cnt: nat)
    requires cnt > 1
    ensures FindRun(v + [past], cnt) == FindRun(v, cnt)
       <==> past || FindRun(v, cnt) != -1 || !TailClear(v, cnt)
    ensures FindRun(v + [past], cnt) != FindRun(v, cnt) ==> FindRun(v + [past], cnt) == |v| + 1 - cnt
  {
    var e := v + [past];
    forall s | s + cnt <= |v| ensures ClearRun(e, s, cnt) == ClearRun(v, s, cnt) {
      if 0 <= s {
        assert forall k :: s <= k < s + cnt ==> e[k] == v[k];
      }
    }
    var last := |v| + 1 - cnt;
    assert ClearRun(e, last, cnt) <==> !past && TailClear(v, cnt) by {
      if ClearRun(e, last, cnt) {
        assert e[|v|] == past;
        assert forall k :: last <= k < |v| ==> e[k] == v[k];
      }
    }
    if FindRun(v, cnt) != -1 {
      LeftmostUnique(e, cnt, FindRun(e, cnt), FindRun(v, cnt));
    } else if ClearRun(e, last, cnt) {
      LeftmostUnique(e, cnt, FindRun(e, cnt), last);
    } else {
      LeftmostUnique(e, cnt, FindRun(e, cnt), -1);
    }
  }

  /** One clear byte, nine bits wanted, a clear bit behind it: the scan answers 0, and bit 8
      does not exist. */
  lemma ScanOverrunExample()
    ensures FindRun(View([0 as bv8]) + [false], 9) == 0
    ensures FindRun(View([0 as bv8]), 9) == -1
  {
    var v := View([0 as bv8]);
    forall k | 0 <= k < 8 ensures !v[k] {
      ViewAt([0 as bv8], 0, k);
    }
    assert ClearRun(v + [false], 0, 9);
  }
}
