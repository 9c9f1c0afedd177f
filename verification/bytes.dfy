/**
 Wire-level scalar types shared by every driver model, and the C integer
 conversions the drivers rely on.

 Bytes and 16-bit words are bit-vectors, so that the drivers' masks, shifts
 and `uint8_t`/`uint16_t` truncations are stated exactly as the C code
 writes them. Counts and indices are unbounded `nat`s.
 */
module Bytes {

  /** C `uint8_t` */
  type byte = bv8
  /** C `uint16_t` */
  type word = bv16

  /** `((uint16_t)hi << 8) + lo`: the little-endian word the touch-point
      decoder assembles. */
  function Word(lo: byte, hi: byte): word {
    ((hi as word) << 8) + (lo as word)
  }

  /** The I2C `Read_Word` helper joins the bytes with `|` instead of `+`;
      the two fields do not overlap, so it is the same word. */
  lemma WordByOr(lo: byte, hi: byte)
    ensures ((hi as word) << 8) | (lo as word) == Word(lo, hi)
  {
  }

  /** The low byte of a word: what C keeps when a `uint16_t` is returned
      through a `uint8_t`. */
  function LowByte(w: word): byte {
    (w & 0xFF) as byte
  }

  /** The high byte of a word. */
  function HighByte(w: word): byte {
    (w >> 8) as byte
  }

  /** A word splits back into the two bytes it was assembled from. */
  lemma WordSplits(lo: byte, hi: byte)
    ensures LowByte(Word(lo, hi)) == lo
    ensures HighByte(Word(lo, hi)) == hi
  {
  }

  /** And a word is reassembled from its two bytes. */
  lemma WordJoins(w: word)
    ensures Word(LowByte(w), HighByte(w)) == w
  {
  }

  /** The byte holding a value below 256, built bit by bit from the most
      significant end. */
  function ByteOf(x: nat): (b: byte)
    requires x < 256
    ensures b as int == x
    decreases x
  {
    if x == 0 then 0
    else (ByteOf(x / 2) << 1) | (if x % 2 == 1 then 1 else 0)
  }

  /** Two bytes with the same value are the same byte. */
  lemma SameValueSameByte(a: byte, b: byte)
    requires a as int == b as int
    ensures a == b
  {
  }

  /** A C conversion of an `int` to `uint8_t`: the value modulo 256. */
  function Wrap8(x: int): (b: byte)
    ensures b as int == x % 256
  {
    ByteOf(x % 256)
  }

  /** Bit `k` of a byte, `(b >> k) & 1`. */
  predicate BitSet(b: byte, k: nat)
    requires k < 8
  {
    (b >> k) & 1 == 1
  }

  /** The byte with only bit `k` set. */
  function BitMask(k: nat): (m: byte)
    requires k < 8
    ensures forall j :: 0 <= j < 8 ==> (BitSet(m, j) <==> j == k)
  {
    (1 as byte) << k
  }

  /** `b | (1 << k)`: bit `k` set, every other bit as it was. */
  function SetBit(b: byte, k: nat): (r: byte)
    requires k < 8
    ensures BitSet(r, k)
    ensures forall j :: 0 <= j < 8 && j != k ==> (BitSet(r, j) <==> BitSet(b, j))
  {
    var r := b | BitMask(k);
    assert forall j :: 0 <= j < 8 && j != k ==> (BitSet(r, j) <==> BitSet(b, j)) by {
      forall j | 0 <= j < 8 && j != k {
        OrOtherBit(b, k, j);
      }
    }
    r
  }

  lemma OrOtherBit(b: byte, k: nat, j: nat)
    requires k < 8 && j < 8 && j != k
    ensures BitSet(b | BitMask(k), j) <==> BitSet(b, j)
  {
    assert !BitSet(BitMask(k), j);
  }

  /** `b & ~(1 << k)`: bit `k` clear, every other bit as it was. */
  function ClearBit(b: byte, k: nat): (r: byte)
    requires k < 8
    ensures !BitSet(r, k)
    ensures forall j :: 0 <= j < 8 && j != k ==> (BitSet(r, j) <==> BitSet(b, j))
  {
    var r := b & !BitMask(k);
    assert !BitSet(r, k) by {
      AndOwnBit(b, k);
    }
    assert forall j :: 0 <= j < 8 && j != k ==> (BitSet(r, j) <==> BitSet(b, j)) by {
      forall j | 0 <= j < 8 && j != k {
        AndOtherBit(b, k, j);
      }
    }
    r
  }

  lemma AndOwnBit(b: byte, k: nat)
    requires k < 8
    ensures !BitSet(b & !BitMask(k), k)
  {
    assert BitSet(BitMask(k), k);
  }

  lemma AndOtherBit(b: byte, k: nat, j: nat)
    requires k < 8 && j < 8 && j != k
    ensures BitSet(b & !BitMask(k), j) <==> BitSet(b, j)
  {
    assert !BitSet(BitMask(k), j);
  }

  /** Two bytes that agree on every bit are equal. */
  lemma BitsDetermineByte(a: byte, b: byte)
    requires forall j :: 0 <= j < 8 ==> (BitSet(a, j) <==> BitSet(b, j))
    ensures a == b
  {
    assert BitSet(a, 0) <==> BitSet(b, 0);
    assert BitSet(a, 1) <==> BitSet(b, 1);
    assert BitSet(a, 2) <==> BitSet(b, 2);
    assert BitSet(a, 3) <==> BitSet(b, 3);
    assert BitSet(a, 4) <==> BitSet(b, 4);
    assert BitSet(a, 5) <==> BitSet(b, 5);
    assert BitSet(a, 6) <==> BitSet(b, 6);
    assert BitSet(a, 7) <==> BitSet(b, 7);
  }

  /** The C string in a buffer of C `char`s: the bytes before the first NUL. */
  function CText(s: seq<byte>): (t: seq<byte>)
    ensures |t| <= |s| && t == s[..|t|]
    ensures forall k :: 0 <= k < |t| ==> t[k] != 0
    ensures |t| < |s| ==> s[|t|] == 0
  {
    if |s| == 0 || s[0] == 0 then []
    else [s[0]] + CText(s[1..])
  }

  /** Integer division as C performs it on `int`: truncation toward zero. */
  function CDiv(a: int, b: int): (q: int)
    requires b > 0
    ensures a >= 0 ==> q == a / b
    ensures a < 0 ==> q == -((-a) / b)
  {
    if a >= 0 then a / b else -((-a) / b)
  }

  /** The remainder that goes with `CDiv`: it takes the sign of `a`. */
  function CRem(a: int, b: int): (r: int)
    requires b > 0
    ensures a == CDiv(a, b) * b + r
    ensures a >= 0 ==> 0 <= r < b
    ensures a < 0 ==> -b < r <= 0
  {
    a - CDiv(a, b) * b
  }

  const TWO_32: int := 0x1_0000_0000
  const TWO_31: int := 0x8000_0000
  const TWO_64: int := 0x1_0000_0000_0000_0000

  /** A 32-bit unsigned value (`size_t` on the target) read as a C `int`:
      values from 2^31 upwards come out negative. */
  function AsInt32(x: nat): (i: int)
    requires x < TWO_32
    ensures -TWO_31 <= i < TWO_31
    ensures i % TWO_32 == x
    ensures x < TWO_31 ==> i == x
  {
    if x < TWO_31 then x else x - TWO_32
  }
}
