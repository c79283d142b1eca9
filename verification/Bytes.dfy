/** Machine integers and their little-endian memory images.

    Everything the file system keeps on disk is a raw copy of a C structure, so
    the model needs the exact byte image of an `int` and of an array of them. */
module Bytes {

  type Byte = b: int | 0 <= b < 256

  const WORD_LIMIT := 0x1_0000_0000

  type Word = w: int | 0 <= w < 0x1_0000_0000

  type Int32 = v: int | -0x8000_0000 <= v < 0x8000_0000

  function Pow2(n: nat): (p: nat)
    ensures p >= 1
  {
    if n == 0 then 1 else 2 * Pow2(n - 1)
  }

  lemma Pow2WordSize()
    ensures Pow2(32) == WORD_LIMIT
  {
    assert Pow2(8) == 256;
    assert Pow2(16) == 65536;
    assert Pow2(24) == 16777216;
  }

  // The two's complement readings of the same 32 bits.
  function ToWord(v: Int32): (w: Word) {
    if v < 0 then v + WORD_LIMIT else v
  }

  function ToInt32(w: Word): (v: Int32) {
    if w < 0x8000_0000 then w else w - WORD_LIMIT
  }

  // What a 32-bit register keeps of an arbitrary integer.
  function Wrap(x: int): (v: Int32)
    ensures (v - x) % WORD_LIMIT == 0
  {
    ToInt32(x % WORD_LIMIT)
  }

  // Unary minus in a register; the least integer is its own negative.
  function Negated(x: int): Int32 {
    Wrap(-x)
  }

  function EncodeWord(w: Word): (bs: seq<Byte>)
    ensures |bs| == 4
  {
    [w % 256, (w / 256) % 256, (w / 65536) % 256, w / 16777216]
  }

  function DecodeWord(bs: seq<Byte>, at: nat): Word
    requires at + 4 <= |bs|
  {
    var b0: int, b1: int, b2: int, b3: int := bs[at], bs[at + 1], bs[at + 2], bs[at + 3];
    b0 + 256 * b1 + 65536 * b2 + 16777216 * b3
  }

  lemma DecodeEncodeWord(w: Word)
    ensures DecodeWord(EncodeWord(w), 0) == w
  {
    var q1, q2, q3 := w / 256, w / 65536, w / 16777216;
    assert q2 == q1 / 256 && q3 == q2 / 256;
  }

  lemma EncodeDecodeWord(bs: seq<Byte>)
    requires |bs| == 4
    ensures EncodeWord(DecodeWord(bs, 0)) == bs
  {
    var w := DecodeWord(bs, 0);
    var b1: int, b2: int, b3: int := bs[1], bs[2], bs[3];
    assert w / 256 == b1 + 256 * b2 + 65536 * b3;
    assert w / 65536 == b2 + 256 * b3;
    assert w / 16777216 == b3;
  }

  // Arrays of words, laid out one after the other.
  function EncodeWords(ws: seq<Word>): (bs: seq<Byte>)
    ensures |bs| == 4 * |ws|
  {
    seq(4 * |ws|, i requires 0 <= i < 4 * |ws| => EncodeWord(ws[i / 4])[i % 4])
  }

  function DecodeWords(bs: seq<Byte>): (ws: seq<Word>)
    ensures |ws| == |bs| / 4
  {
    seq(|bs| / 4, j requires 0 <= j < |bs| / 4 => DecodeWord(bs, 4 * j))
  }

  lemma EncodedWordAt(ws: seq<Word>, j: nat)
    requires j < |ws|
    ensures DecodeWord(EncodeWords(ws), 4 * j) == ws[j]
  {
    hide EncodeWord, EncodeWords;
    EncodedByteAt(ws, j, 0);
    EncodedByteAt(ws, j, 1);
    EncodedByteAt(ws, j, 2);
    EncodedByteAt(ws, j, 3);
    DecodeEncodeWord(ws[j]);
  }

  lemma EncodedByteAt(ws: seq<Word>, j: nat, k: nat)
    requires j < |ws| && k < 4
    ensures EncodeWords(ws)[4 * j + k] == EncodeWord(ws[j])[k]
  {
    hide EncodeWord;
    assert (4 * j + k) / 4 == j && (4 * j + k) % 4 == k;
  }

  lemma DecodeEncodeWords(ws: seq<Word>)
    ensures DecodeWords(EncodeWords(ws)) == ws
  {
    forall j | 0 <= j < |ws|
      ensures DecodeWords(EncodeWords(ws))[j] == ws[j]
    {
      EncodedWordAt(ws, j);
    }
  }

  lemma ProductMonotone(x: nat, y: nat, c: nat, d: nat)
    requires x <= c && y <= d
    ensures x * y <= c * d
  {
    assert x * y <= c * y <= c * d;
  }

  // The quotient and the remainder are the ones that fit.
  lemma Divided(x: nat, d: nat, q: nat, r: nat)
    requires d > 0 && x == d * q + r && r < d
    ensures x / d == q && x % d == r
  {
    if q < x / d { ProductMonotone(d, q + 1, d, x / d); }
    if x / d < q { ProductMonotone(d, x / d + 1, d, q); }
  }
}
