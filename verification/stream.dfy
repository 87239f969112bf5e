/** The encoded data as a bit stream: a byte sequence read most significant
    bit first, followed by an unbounded run of zero bytes, and the 32-bit
    big-endian word source the decoder pulls from it. */
module Stream {
  import opened Bits

  /** Byte i of the stream, 0 past the end of the data. */
  function ByteAt(data: seq<byte>, i: nat): (b: byte)
  {
    if i < |data| then data[i] else 0
  }

  /** Bit q of the stream (0 or 1); bit 0 is the MSB of the first byte. */
  function StreamBit(data: seq<byte>, q: nat): (r: nat)
    ensures r < 2
  {
    BitAbove(ByteAt(data, q / 8), 7 - q % 8)
  }

  /** Bit j of b counting from the least significant, (b >> j) & 1. */
  function BitAbove(b: nat, j: nat): (r: nat)
    ensures r < 2
    decreases j
  {
    if j == 0 then b % 2 else BitAbove(b / 2, j - 1)
  }

  lemma {:induction false} BitAboveIsDiv(b: nat, j: nat)
    ensures BitAbove(b, j) == (b / Pow2(j)) % 2
    decreases j
  {
    if j > 0 {
      BitAboveIsDiv(b / 2, j - 1);
      DivDiv(b, 2, Pow2(j - 1));
    }
  }

  /** The n stream bits starting at bit p, read as a big-endian number. */
  function Value(data: seq<byte>, p: nat, n: nat): (r: nat)
    ensures r < Pow2(n)
  {
    if n == 0 then 0 else 2 * Value(data, p, n - 1) + StreamBit(data, p + n - 1)
  }

  /** The word source: the four bytes at byteOffset, most significant
      first, with zero past the end of the data. The decoder asks only
      for word-aligned offsets (multiples of 4); at other offsets this is
      not what the test driver's `test_get_word` returns. */
  function Word(data: seq<byte>, byteOffset: nat): (w: u32)
  {
    ByteAt(data, byteOffset) as int * 0x100_0000 + ByteAt(data, byteOffset + 1) as int * 0x1_0000
      + ByteAt(data, byteOffset + 2) as int * 0x100 + ByteAt(data, byteOffset + 3) as int
  }

  /** Reading ab = a + b bits is reading a bits, then b more from
      pa = p + a. */
  lemma {:induction false} ValueSplit(data: seq<byte>, p: nat, a: nat, b: nat, pa: nat, ab: nat)
    requires pa == p + a && ab == a + b
    ensures Value(data, p, ab) == Value(data, p, a) * Pow2(b) + Value(data, pa, b)
    decreases b
  {
    if b > 0 {
      var b1, ab1 := b - 1, ab - 1;
      ValueSplit(data, p, a, b1, pa, ab1);
      var last := pa + b1;
      ValueStep(data, p, ab, ab1, last);
      ValueStep(data, pa, b, b1, last);
      StepArith(Value(data, p, ab), Value(data, p, a), Pow2(b1), Value(data, pa, b1),
        StreamBit(data, last), Value(data, pa, b), Pow2(b));
    }
  }

  /** One more bit: the n bits at p are the first n1 = n - 1 of them
      followed by the bit at last = p + n1. */
  lemma ValueStep(data: seq<byte>, p: nat, n: nat, n1: nat, last: nat)
    requires n == n1 + 1 && last == p + n1
    ensures Value(data, p, n) == 2 * Value(data, p, n1) + StreamBit(data, last)
  {
  }

  lemma StepArith(v: int, hi: int, h: int, lo: int, bit: int, vb: int, hh: int)
    requires v == 2 * (hi * h + lo) + bit && vb == 2 * lo + bit && hh == 2 * h
    ensures v == hi * hh + vb
  {
    MulDouble(hi, h);
  }

  /** The top n of the m bits at p are the n bits at p. */
  lemma ValueTop(data: seq<byte>, p: nat, n: nat, m: nat)
    requires n <= m
    ensures Value(data, p, m) / Pow2(m - n) == Value(data, p, n)
    ensures Value(data, p, m) % Pow2(m - n) == Value(data, p + n, m - n)
  {
    ValueTopAt(data, p, n, m, m - n, p + n);
  }

  lemma {:induction false} ByteBits(data: seq<byte>, i: nat, k: nat)
    requires k <= 8
    ensures Value(data, 8 * i, k) == ByteAt(data, i) / Pow2(8 - k)
    decreases k
  {
    var byt := ByteAt(data, i);
    if k == 0 {
      assert Pow2(8) == 256;
    } else {
      ByteBits(data, i, k - 1);
      var d := Pow2(8 - k);
      assert Pow2(8 - (k - 1)) == 2 * d;
      DivDiv(byt, d, 2);
      assert (8 * i + k - 1) / 8 == i && (8 * i + k - 1) % 8 == k - 1;
      BitAboveIsDiv(byt, 8 - k);
      assert StreamBit(data, 8 * i + k - 1) == (byt / d) % 2;
    }
  }

  lemma ValueOfByte(data: seq<byte>, i: nat, p: nat)
    requires p == 8 * i
    ensures Value(data, p, 8) == ByteAt(data, i)
  {
    ByteBits(data, i, 8);
  }

  /** A byte followed by n more bits, starting at q = p + 8. */
  lemma ByteThen(data: seq<byte>, i: nat, p: nat, q: nat, n: nat, n8: nat, rest: nat)
    requires p == 8 * i && q == p + 8 && n8 == 8 + n && rest == Value(data, q, n)
    ensures Value(data, p, n8) == ByteAt(data, i) as int * Pow2(n) + rest
  {
    ValueSplit(data, p, 8, n, q, n8);
    ValueOfByte(data, i, p);
  }

  /** The n bits at offset a within byte i: the byte shifted right past
      the bits after them, masked to n bits. */
  lemma ValueInByte(data: seq<byte>, i: nat, a: nat, n: nat, p: nat)
    requires p == 8 * i + a && a + n <= 8
    ensures Value(data, p, n) == (ByteAt(data, i) as int / Pow2(8 - a - n)) % Pow2(n)
  {
    var b, an := 8 * i, a + n;
    ValueOfByte(data, i, b);
    ValueTopAt(data, b, an, 8, 8 - a - n, b + an);
    ValueTopAt(data, b, a, an, n, p);
  }

  /** ValueTop with the rest's width k = m - n and position q = p + n
      named by the caller. */
  lemma ValueTopAt(data: seq<byte>, p: nat, n: nat, m: nat, k: nat, q: nat)
    requires n + k == m && q == p + n
    ensures Value(data, p, m) / Pow2(k) == Value(data, p, n)
    ensures Value(data, p, m) % Pow2(k) == Value(data, q, k)
  {
    ValueSplit(data, p, n, k, q, m);
    DivModUnique(Value(data, p, m), Pow2(k), Value(data, p, n), Value(data, q, k));
  }

  /** Every word the source returns is the 32 stream bits at its offset. */
  lemma WordIsValue(data: seq<byte>, byteOffset: nat)
    ensures Word(data, byteOffset) == Value(data, 8 * byteOffset, 32)
  {
    var o := byteOffset;
    var p := 8 * o;
    var p8, p16, p24 := p + 8, p + 16, p + 24;
    Pow2Bytes();
    var v3 := Value(data, p24, 8);
    ValueOfByte(data, o + 3, p24);
    var v2 := Value(data, p16, 16);
    ByteThen(data, o + 2, p16, p24, 8, 16, v3);
    var v1 := Value(data, p8, 24);
    ByteThen(data, o + 1, p8, p16, 16, 24, v2);
    ByteThen(data, o, p, p8, 24, 32, v1);
  }

  /** WordIsValue with the bit position named by the caller. */
  lemma WordIsValueAt(data: seq<byte>, byteOffset: nat, p: nat)
    requires p == 8 * byteOffset
    ensures Word(data, byteOffset) == Value(data, p, 32)
  {
    WordIsValue(data, byteOffset);
  }

  /** `w << k` on a 32-bit window keeps its last 32-k bits, moved up. */
  lemma ShiftOut(data: seq<byte>, p: nat, k: nat)
    requires k <= 32
    ensures (Value(data, p, 32) * Pow2(k)) % WordModulus == Value(data, p + k, 32 - k) * Pow2(k)
  {
    ValueSplit(data, p, k, 32 - k, p + k, 32);
    Pow2Add(32 - k, k);
    Pow2Word();
    ShiftArith(Value(data, p, 32), Value(data, p, k), Value(data, p + k, 32 - k),
      Pow2(32 - k), Pow2(k), WordModulus);
  }
}
