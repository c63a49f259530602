/** Bytes, little-endian words and 512-byte sectors, as the kernel lays them out on disk. */
module Bytes {

  type byte = b: int | 0 <= b < 256

  const WORD_LIMIT := 0x1_0000_0000
  type word = w: int | 0 <= w < WORD_LIMIT

  const SECTOR_SIZE := 512
  type Sector = s: seq<byte> | |s| == SECTOR_SIZE witness seq(SECTOR_SIZE, _ => 0)

  function Zeros(n: nat): (s: seq<byte>)
    ensures |s| == n
    ensures forall k :: 0 <= k < n ==> s[k] == 0
  {
    seq(n, _ => 0)
  }

  /** A uint32_t as it lies in memory. */
  function Le32(w: word): (s: seq<byte>)
    ensures |s| == 4
  {
    [w % 256, w / 256 % 256, w / 65536 % 256, w / 16777216]
  }

  function Word(s: seq<byte>): (w: word)
    requires |s| == 4
  {
    s[0] as int + 256 * s[1] as int + 65536 * s[2] as int + 16777216 * s[3] as int
  }

  lemma Le32RoundTrip(w: word)
    ensures Word(Le32(w)) == w
  {
    var a, b, c := w / 256, w / 65536, w / 16777216;
    assert b == a / 256 && c == b / 256;
    assert w == 256 * a + w % 256 && a == 256 * b + a % 256 && b == 256 * c + b % 256;
  }

  /** The uint32_t at byte offset `at`. */
  function WordAt(s: seq<byte>, at: nat): word
    requires at + 4 <= |s|
  {
    Word(s[at..at + 4])
  }

  /** memcpy of `piece` over `s` at offset `at`. */
  function Overwrite(s: seq<byte>, at: nat, piece: seq<byte>): (r: seq<byte>)
    requires at + |piece| <= |s|
    ensures |r| == |s|
    ensures forall k :: 0 <= k < |r| ==>
      r[k] == if at <= k < at + |piece| then piece[k - at] else s[k]
  {
    s[..at] + piece + s[at + |piece|..]
  }

  // ---------------------------------------------------------------- rows of words

  /** An array of uint32_t as it lies in memory. */
  function Pack(ws: seq<word>): (s: seq<byte>)
    ensures |s| == 4 * |ws|
  {
    seq(4 * |ws|, j requires 0 <= j < 4 * |ws| => Le32(ws[j / 4])[j % 4])
  }

  function Unpack(s: seq<byte>, n: nat): (ws: seq<word>)
    requires |s| == 4 * n
    ensures |ws| == n
    ensures forall i :: 0 <= i < n ==> ws[i] == WordAt(s, 4 * i)
  {
    seq(n, i requires 0 <= i < n => WordAt(s, 4 * i))
  }

  lemma PackRoundTrip(ws: seq<word>)
    ensures Unpack(Pack(ws), |ws|) == ws
  {
    hide Pack, Le32, Word;
    forall i | 0 <= i < |ws| ensures WordAt(Pack(ws), 4 * i) == ws[i] {
      PackAt(ws, i);
      Le32RoundTrip(ws[i]);
    }
  }

  lemma PackAt(ws: seq<word>, i: nat)
    requires i < |ws|
    ensures Pack(ws)[4 * i..4 * i + 4] == Le32(ws[i])
  {
    hide Le32;
    forall j | 0 <= j < 4 ensures Pack(ws)[4 * i + j] == Le32(ws[i])[j] {
      assert (4 * i + j) / 4 == i && (4 * i + j) % 4 == j;
    }
  }

  /** A sector of 128 words. */
  function Words(s: Sector): (ws: seq<word>)
    ensures |ws| == 128
  {
    Unpack(s, 128)
  }

  function PackWords(ws: seq<word>): (s: Sector)
    requires |ws| == 128
  {
    Pack(ws)
  }

  lemma WordsRoundTrip(ws: seq<word>)
    requires |ws| == 128
    ensures Words(PackWords(ws)) == ws
  {
    PackRoundTrip(ws);
  }
}
