/** The shift `next_word >> (32 - offset_bits)` in `jbig2_huffman_get` when
    offset_bits is 0, which happens whenever a consume ends exactly on a
    word boundary. C leaves a shift of a 32-bit value by 32 undefined; x86
    takes the count modulo 32, so the shift leaves next_word whole and its
    bits are or-ed into the new current word. `HuffmanDecode.Consume` uses
    the evidently intended result, no bits of the next word. */
module RefillShift {
  import opened Bits
  import opened Stream
  import opened HuffmanDecode

  /** `w >> n` with the count taken modulo 32, as x86 executes it. */
  function ShrAsWritten(w: u32, n: nat): u32
  {
    Shr(w, n % 32)
  }

  /** `(w << k) | (next >> (32 - offsetBits))` with the x86 shift. */
  function ShiftInAsWritten(w: u32, next: u32, k: nat, offsetBits: nat): u32
    requires offsetBits <= 32
  {
    Pow2Word();
    OrBound(Shl(w, k), ShrAsWritten(next, 32 - offsetBits), 32);
    Or(Shl(w, k), ShrAsWritten(next, 32 - offsetBits))
  }

  /** The cursor step of `jbig2_huffman_get` as compiled for x86. */
  function ConsumeAsWritten(data: seq<byte>, c: Cursor, k: nat): (r: Cursor)
    requires 0 <= c.offsetBits < 32 && 0 <= c.offset && k <= 32
    ensures 0 <= r.offsetBits < 32 && r.offsetBits == (c.offsetBits + k) % 32
    ensures r.offset == (if c.offsetBits + k >= 32 then c.offset + 4 else c.offset)
  {
    var offsetBits := c.offsetBits + k;
    if offsetBits >= 32 then
      var next := Word(data, c.offset + 8);
      Cursor(ShiftInAsWritten(c.nextWord, next, offsetBits - 32, offsetBits - 32), next, offsetBits - 32, c.offset + 4)
    else
      Cursor(ShiftInAsWritten(c.thisWord, c.nextWord, k, offsetBits), c.nextWord, offsetBits, c.offset)
  }

  /** The two agree whenever offset_bits does not end at 0. */
  lemma AgreeOffWordBoundary(data: seq<byte>, c: Cursor, k: nat)
    requires 0 <= c.offsetBits < 32 && 0 <= c.offset && k <= 32
    requires (c.offsetBits + k) % 32 != 0
    ensures ConsumeAsWritten(data, c, k) == Consume(data, c, k)
  {
    var offsetBits := c.offsetBits + k;
    if offsetBits >= 32 {
      ShiftInAgrees(c.nextWord, Word(data, c.offset + 8), offsetBits - 32, offsetBits - 32);
    } else {
      ShiftInAgrees(c.thisWord, c.nextWord, k, offsetBits);
    }
  }

  /** A shift count strictly between 0 and 32 is the same on both. */
  lemma ShiftInAgrees(w: u32, next: u32, k: nat, offsetBits: nat)
    requires 0 < offsetBits < 32
    ensures ShiftInAsWritten(w, next, k, offsetBits) == ShiftIn(w, next, k, offsetBits)
  {
    assert (32 - offsetBits) % 32 == 32 - offsetBits;
  }

  /** With offset_bits at 0 the corrected refill shifts in no bits of the
      next word: the new current word is the old one moved up by k. */
  lemma IntendedShiftAddsNothing(w: u32, next: u32, k: nat)
    ensures ShiftIn(w, next, k, 0) == Shl(w, k)
  {
    ShrAll(next, 32);
    OrZero(Shl(w, k));
  }

  /** Reading the first 32 bits as one RANGELEN of 32 leaves offset_bits
      at 0. On any stream whose word at byte 4 is 0 and whose word at byte
      8 is FF000000 (BoundaryStream gives nine such bytes) the x86 shift
      or-s the word at byte 8 into the current word, which should hold the
      zero bits 32..63. The corrected step keeps the cursor invariant. */
  lemma RefillOnBoundaryBreaksInv(data: seq<byte>)
    requires Word(data, 4) == 0 && Word(data, 8) == 0xFF00_0000
    ensures Inv(data, New(data))
    ensures ConsumeAsWritten(data, New(data), 32).thisWord == 0xFF00_0000
    ensures !Inv(data, ConsumeAsWritten(data, New(data), 32))
    ensures Inv(data, Consume(data, New(data), 32))
  {
    var c := New(data);
    var c1 := ConsumeAsWritten(data, c, 32);
    WholeWordAsWritten(data);
    WordIsValue(data, 4);
    assert c1.offset == 4 && c1.offsetBits == 0;
    assert Value(data, 8 * c1.offset + c1.offsetBits, 32) == 0;
    ConsumeKeepsInv(data, c, 32);
  }

  /** A 32-bit read from a fresh cursor over an empty second word: the x86
      shift makes the current word the word at byte 8. */
  lemma WholeWordAsWritten(data: seq<byte>)
    requires Word(data, 4) == 0
    ensures ConsumeAsWritten(data, New(data), 32) == Cursor(Word(data, 8), Word(data, 8), 0, 4)
  {
    var c := New(data);
    assert c.nextWord == Word(data, 4) && c.offsetBits == 0 && c.offset == 0;
    ShiftInAsWrittenFromZero(Word(data, 8));
  }

  /** The same streams reached through `jbig2_huffman_get`: an entry with
      PREFLEN 1 and RANGELEN 31, read from a fresh cursor, consumes 1 bit
      for the prefix and then 31 for the range. The range refill leaves
      offset_bits at 0 and the x86 shift or-s the word at byte 8 into the
      current word. The corrected steps keep the cursor invariant. */
  lemma GetOnBoundaryBreaksInv(data: seq<byte>)
    requires Word(data, 4) == 0 && Word(data, 8) == 0xFF00_0000
    ensures ConsumeAsWritten(data, ConsumeAsWritten(data, New(data), 1), 31).thisWord == 0xFF00_0000
    ensures !Inv(data, ConsumeAsWritten(data, ConsumeAsWritten(data, New(data), 1), 31))
    ensures Inv(data, Consume(data, Consume(data, New(data), 1), 31))
  {
    var c := New(data);
    var c1 := PrefixFromFresh(data);
    var c2 := ConsumeAsWritten(data, c1, 31);
    RangeRefillAsWritten(data, c1);
    WordIsValue(data, 4);
    assert c2.offset == 4 && c2.offsetBits == 0;
    assert Value(data, 8 * c2.offset + c2.offsetBits, 32) == 0;
    ConsumeKeepsInv(data, c, 1);
    ConsumeKeepsInv(data, c1, 31);
  }

  /** One bit read from a fresh cursor is the same on both, and stays in
      the first word. */
  lemma PrefixFromFresh(data: seq<byte>) returns (c1: Cursor)
    ensures c1 == ConsumeAsWritten(data, New(data), 1) == Consume(data, New(data), 1)
    ensures c1.offsetBits == 1 && c1.offset == 0 && c1.nextWord == Word(data, 4)
  {
    var c := New(data);
    assert c.offsetBits == 0 && c.offset == 0 && c.nextWord == Word(data, 4);
    AgreeOffWordBoundary(data, c, 1);
    c1 := Consume(data, c, 1);
  }

  /** A 31-bit read from offset_bits 1 ends on the word boundary; with an
      empty next word the x86 shift makes the current word the word after. */
  lemma RangeRefillAsWritten(data: seq<byte>, c1: Cursor)
    requires c1.offsetBits == 1 && c1.offset == 0 && c1.nextWord == 0
    ensures ConsumeAsWritten(data, c1, 31) == Cursor(Word(data, 8), Word(data, 8), 0, 4)
  {
    ShiftInAsWrittenFromZero(Word(data, 8));
  }

  /** Nine bytes, eight zero and the last 0xFF, meet the condition of
      RefillOnBoundaryBreaksInv and GetOnBoundaryBreaksInv. */
  lemma BoundaryStream(data: seq<byte>)
    requires data == [0, 0, 0, 0, 0, 0, 0, 0, 0xFF]
    ensures Word(data, 4) == 0 && Word(data, 8) == 0xFF00_0000
  {
  }

  /** With an empty current word and offset_bits 0, the x86 shift makes
      the new current word the whole next word. */
  lemma ShiftInAsWrittenFromZero(next: u32)
    ensures ShiftInAsWritten(0, next, 0, 0) == next
  {
    OrZero(next);
  }
}
