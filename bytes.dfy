/**
  Little-endian decoding as done by Python's `struct` module with the `<`
  prefix: unsigned words of any width, and signed 16-bit integers (`h`).
*/
module Bytes {

  type Byte = b: int | 0 <= b < 256

  function Pow256(n: nat): (r: nat)
    ensures r >= 1
  {
    if n == 0 then 1 else 256 * Pow256(n - 1)
  }

  /** The unsigned value of a little-endian byte string. */
  function LeUint(s: seq<Byte>): (r: nat)
    ensures r < Pow256(|s|)
  {
    if |s| == 0 then 0 else s[0] + 256 * LeUint(s[1..])
  }

  /** The n-byte little-endian encoding of x. */
  function LeBytes(x: nat, n: nat): (r: seq<Byte>)
    requires x < Pow256(n)
    ensures |r| == n
  {
    if n == 0 then [] else [x % 256] + LeBytes(x / 256, n - 1)
  }

  lemma {:induction false} LeUintOfLeBytes(x: nat, n: nat)
    requires x < Pow256(n)
    ensures LeUint(LeBytes(x, n)) == x
  {
    if n > 0 {
      LeUintOfLeBytes(x / 256, n - 1);
      assert LeBytes(x, n)[1..] == LeBytes(x / 256, n - 1);
    }
  }

  lemma {:induction false} LeBytesOfLeUint(s: seq<Byte>)
    ensures LeBytes(LeUint(s), |s|) == s
  {
    if |s| > 0 {
      LeBytesOfLeUint(s[1..]);
      assert LeUint(s) % 256 == s[0] && LeUint(s) / 256 == LeUint(s[1..]);
    }
  }

  /** Two byte strings of one length with the same value are equal. */
  lemma LeUintInjective(a: seq<Byte>, b: seq<Byte>)
    requires |a| == |b| && LeUint(a) == LeUint(b)
    ensures a == b
  {
    LeBytesOfLeUint(a);
    LeBytesOfLeUint(b);
  }

  // ---------------------------------------------------------------------
  // Signed 16-bit integers (`struct` code `<h`)

  const INT16_MIN: int := -32768
  const INT16_MAX: int := 32767

  /** The two's-complement value of the 16-bit pattern lo + 256 hi. */
  function Int16Le(lo: Byte, hi: Byte): (r: int)
    ensures INT16_MIN <= r <= INT16_MAX
  {
    var u := lo + 256 * hi;
    if u < 32768 then u else u - 65536
  }

  /** The signed value has the bit pattern of the unsigned little-endian value, modulo 2^16. */
  lemma Int16LeIsTwosComplement(lo: Byte, hi: Byte)
    ensures (Int16Le(lo, hi) + 65536) % 65536 == LeUint([lo, hi])
  {
    assert LeUint([lo, hi]) == lo + 256 * LeUint([hi]);
    assert LeUint([hi]) == hi;
  }

  /** The two little-endian bytes of a signed 16-bit value. */
  function Int16Bytes(v: int): (r: seq<Byte>)
    requires INT16_MIN <= v <= INT16_MAX
    ensures |r| == 2
  {
    LeBytes((v + 65536) % 65536, 2)
  }

  lemma Int16LeOfInt16Bytes(v: int)
    requires INT16_MIN <= v <= INT16_MAX
    ensures var b := Int16Bytes(v); Int16Le(b[0], b[1]) == v
  {
    var u := (v + 65536) % 65536;
    LeUintOfLeBytes(u, 2);
    var b := Int16Bytes(v);
    assert LeUint(b) == b[0] as int + 256 * b[1] as int;
  }

  lemma Int16BytesOfInt16Le(lo: Byte, hi: Byte)
    ensures Int16Bytes(Int16Le(lo, hi)) == [lo, hi]
  {
    Int16LeIsTwosComplement(lo, hi);
    LeBytesOfLeUint([lo, hi]);
  }

  // ---------------------------------------------------------------------
  // Sequences of fixed-width values (`struct` codes `<Nh` and `<Nd`)

  /** `struct.unpack('<%dh' % (|s| / 2), s)`. */
  function DecodeInt16s(s: seq<Byte>): (r: seq<int>)
    requires |s| % 2 == 0
    ensures |r| == |s| / 2
    ensures forall i :: 0 <= i < |r| ==> r[i] == Int16Le(s[2 * i], s[2 * i + 1])
  {
    if |s| == 0 then [] else [Int16Le(s[0], s[1])] + DecodeInt16s(s[2..])
  }

  function EncodeInt16s(vs: seq<int>): (r: seq<Byte>)
    requires forall i :: 0 <= i < |vs| ==> INT16_MIN <= vs[i] <= INT16_MAX
    ensures |r| == 2 * |vs|
  {
    if |vs| == 0 then [] else Int16Bytes(vs[0]) + EncodeInt16s(vs[1..])
  }

  lemma {:induction false} DecodeInt16sOfEncodeInt16s(vs: seq<int>)
    requires forall i :: 0 <= i < |vs| ==> INT16_MIN <= vs[i] <= INT16_MAX
    ensures DecodeInt16s(EncodeInt16s(vs)) == vs
  {
    if |vs| > 0 {
      var e := EncodeInt16s(vs);
      assert e[2..] == EncodeInt16s(vs[1..]);
      Int16LeOfInt16Bytes(vs[0]);
      DecodeInt16sOfEncodeInt16s(vs[1..]);
    }
  }

  /** The width in bytes of one record value (`struct` code `d`). */
  const WORD_SIZE: nat := 8

  /** A raw 64-bit record value, read as an unsigned little-endian word. */
  type Word64 = w: nat | w < 0x1_0000_0000_0000_0000

  /** The raw word stored at byte offset off. */
  function Word64At(s: seq<Byte>, off: nat): (w: Word64)
    requires off + WORD_SIZE <= |s|
  {
    Pow256Eight();
    LeUint(s[off .. off + WORD_SIZE])
  }

  lemma Pow256Eight()
    ensures Pow256(8) == 0x1_0000_0000_0000_0000
  {
  }

  /** `struct.unpack('<%dd' % (|s| / 8), s)` on raw words. */
  function DecodeWords(s: seq<Byte>): (r: seq<Word64>)
    requires |s| % WORD_SIZE == 0
    ensures |r| == |s| / WORD_SIZE
    ensures forall i :: 0 <= i < |r| ==> r[i] == Word64At(s, WORD_SIZE * i)
  {
    if |s| == 0 then []
    else
      var rest := DecodeWords(s[WORD_SIZE..]);
      assert forall i :: 0 <= i < |rest| ==>
        s[WORD_SIZE..][WORD_SIZE * i .. WORD_SIZE * i + WORD_SIZE]
        == s[WORD_SIZE * (i + 1) .. WORD_SIZE * (i + 1) + WORD_SIZE];
      [Word64At(s, 0)] + rest
  }

  function EncodeWords(ws: seq<Word64>): (r: seq<Byte>)
    ensures |r| == WORD_SIZE * |ws|
  {
    Pow256Eight();
    if |ws| == 0 then [] else LeBytes(ws[0], WORD_SIZE) + EncodeWords(ws[1..])
  }

  lemma {:induction false} DecodeWordsOfEncodeWords(ws: seq<Word64>)
    ensures DecodeWords(EncodeWords(ws)) == ws
  {
    if |ws| > 0 {
      Pow256Eight();
      var e := EncodeWords(ws);
      assert e[WORD_SIZE..] == EncodeWords(ws[1..]);
      assert e[0..WORD_SIZE] == LeBytes(ws[0], WORD_SIZE);
      LeUintOfLeBytes(ws[0], WORD_SIZE);
      DecodeWordsOfEncodeWords(ws[1..]);
    }
  }
}
