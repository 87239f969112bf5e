/** The decoder state of `jbig2_huffman_new` / `jbig2_huffman_get`: a cursor
    holding two prefetched 32-bit words, a byte offset that is always a
    multiple of 4, and a bit offset inside the first word.

    The cursor invariant (the comment on the state struct) says that the
    current word is the 32 stream bits at the current bit position and the
    next word is the word four bytes on. `Consume` keeps it, and `Get` is
    shown to decode, at the stream level, what `Reading` finds in the table. */
module HuffmanDecode {
  import opened Bits
  import opened Stream
  import opened Wrappers
  import opened HuffmanCodes
  import opened HuffmanTable

  /** The state of a decoder; the word source is the byte stream `data`
      passed to every operation. */
  datatype Cursor = Cursor(thisWord: u32, nextWord: u32, offsetBits: int, offset: int)

  /** The current bit offset, offset * 8 + offset_bits. */
  function Position(c: Cursor): int
  {
    8 * c.offset + c.offsetBits
  }

  /** The cursor invariant. */
  ghost predicate Inv(data: seq<byte>, c: Cursor)
  {
    0 <= c.offsetBits < 32 && 0 <= c.offset && c.offset % 4 == 0
    && c.thisWord == Value(data, 8 * c.offset + c.offsetBits, 32)
    && c.nextWord == Word(data, c.offset + 4)
  }

  /** jbig2_huffman_new: offset 0, bit 0, and the first two words. */
  function New(data: seq<byte>): (c: Cursor)
    ensures Inv(data, c) && Position(c) == 0
  {
    WordIsValue(data, 0);
    Cursor(Word(data, 0), Word(data, 4), 0, 0)
  }

  /** `(w << k) | (next >> (32 - offsetBits))`: the current word moved up by
      k bits with the first offsetBits bits of the next word below it. */
  function ShiftIn(w: u32, next: u32, k: nat, offsetBits: nat): (r: u32)
    requires offsetBits <= 32
  {
    Pow2Word();
    OrBound(Shl(w, k), Shr(next, 32 - offsetBits), 32);
    Or(Shl(w, k), Shr(next, 32 - offsetBits))
  }

  /** Moves the cursor k bits on: `offset_bits += k`, crossing into the next
      word (and fetching the one after it) when offset_bits reaches 32. */
  function Consume(data: seq<byte>, c: Cursor, k: nat): (r: Cursor)
    requires 0 <= c.offsetBits < 32 && 0 <= c.offset && k <= 32
    ensures 0 <= r.offsetBits < 32
    ensures r.offset == c.offset || r.offset == c.offset + 4
  {
    var offsetBits := c.offsetBits + k;
    if offsetBits >= 32 then
      var next := Word(data, c.offset + 8);
      Cursor(ShiftIn(c.nextWord, next, offsetBits - 32, offsetBits - 32), next, offsetBits - 32, c.offset + 4)
    else
      Cursor(ShiftIn(c.thisWord, c.nextWord, k, offsetBits), c.nextWord, offsetBits, c.offset)
  }

  /** Consuming k bits keeps the cursor invariant and moves the bit
      position on by exactly k. */
  lemma ConsumeKeepsInv(data: seq<byte>, c: Cursor, k: nat)
    requires Inv(data, c) && k <= 32
    ensures Inv(data, Consume(data, c, k))
    ensures Position(Consume(data, c, k)) == Position(c) + k
  {
    if c.offsetBits + k >= 32 {
      RefillKeepsInv(data, c, k);
    } else {
      InWordKeepsInv(data, c, k);
    }
  }

  /** The branch of `Consume` that stays in the current word. */
  lemma InWordKeepsInv(data: seq<byte>, c: Cursor, k: nat)
    requires Inv(data, c) && k <= 32 && c.offsetBits + k < 32
    ensures Inv(data, Consume(data, c, k))
    ensures Position(Consume(data, c, k)) == Position(c) + k
  {
    var m := c.offsetBits + k;
    var base := 8 * c.offset;
    var w := ShiftIn(c.thisWord, c.nextWord, k, m);
    assert Consume(data, c, k) == Cursor(w, c.nextWord, m, c.offset);
    ShiftInWindow(data, c.offset, base, c.offsetBits, k, m, base + c.offsetBits, base + m, c.thisWord, c.nextWord);
    CursorAt(data, c.offset, m, base + m, w, c.nextWord);
  }

  /** The refill branch of `Consume`: the word four bytes on becomes the
      current word, shifted by what is left of k, and the word after it is
      fetched. */
  lemma RefillKeepsInv(data: seq<byte>, c: Cursor, k: nat)
    requires Inv(data, c) && k <= 32 && c.offsetBits + k >= 32
    ensures Inv(data, Consume(data, c, k))
    ensures Position(Consume(data, c, k)) == Position(c) + k
  {
    var o := c.offset + 4;
    var m := c.offsetBits + k - 32;
    var next := Word(data, o + 4);
    var base := 8 * o;
    var w := ShiftIn(c.nextWord, next, m, m);
    assert Consume(data, c, k) == Cursor(w, next, m, o);
    WordIsValueAt(data, o, base);
    ShiftInWindow(data, o, base, 0, m, m, base, base + m, c.nextWord, next);
    WordAligned(c.offset);
    CursorAt(data, o, m, base + m, w, next);
  }

  /** A cursor whose words are the window at bit p and the word after. */
  lemma CursorAt(data: seq<byte>, o: nat, ob: nat, p: nat, w: u32, next: u32)
    requires o % 4 == 0 && ob < 32 && p == 8 * o + ob
    requires w == Value(data, p, 32) && next == Word(data, o + 4)
    ensures Inv(data, Cursor(w, next, ob, o)) && Position(Cursor(w, next, ob, o)) == p
  {
  }

  /** The next word's offset is word-aligned too. */
  lemma WordAligned(offset: int)
    requires offset % 4 == 0
    ensures (offset + 4) % 4 == 0
  {
  }

  /** Shifting in keeps the current word equal to the stream window: the
      window at bit p = 8*o + ob, moved on by k bits that stay in the word,
      is the window at bit q = 8*o + m. The sums and products arrive as
      named parameters tied by equations, so that the solver works with
      plain variables instead of re-deriving nonlinear terms. */
  lemma ShiftInWindow(data: seq<byte>, o: nat, base: nat, ob: nat, k: nat, m: nat, p: nat, q: nat, w: u32, next: u32)
    requires base == 8 * o && m == ob + k && m < 32 && p == base + ob && q == base + m
    requires w == Value(data, p, 32) && next == Word(data, o + 4)
    ensures ShiftIn(w, next, k, m) == Value(data, q, 32)
  {
    var q1 := base + 32;
    ShlWindow(data, p, k, q, 32 - k, w);
    WordIsValueAt(data, o + 4, q1);
    ShrWindow(data, q1, m, next);
    JoinWindow(data, q, 32 - m, ob, k, q1, q1 + ob, 32 - k, m, Shl(w, k), Shr(next, 32 - m));
  }

  /** `w << k` of a stream window is the window k bits on, moved up. */
  lemma ShlWindow(data: seq<byte>, p: nat, k: nat, q: nat, n: nat, w: u32)
    requires k <= 32 && q == p + k && n == 32 - k && w == Value(data, p, 32)
    ensures Shl(w, k) == Value(data, q, n) * Pow2(k)
  {
    ShlIsMul(w, k);
    ShiftOut(data, p, k);
  }

  /** `w >> (32 - m)` of a stream window is its first m bits. */
  lemma ShrWindow(data: seq<byte>, p: nat, m: nat, w: u32)
    requires m <= 32 && w == Value(data, p, 32)
    ensures Shr(w, 32 - m) == Value(data, p, m)
  {
    ShrIsDiv(w, 32 - m);
    ValueTop(data, p, m, 32);
  }

  /** The refilled word: the n = len + ob bits at q moved up by k, or-ed
      with the m = ob + k bits that follow them at q1, is the 32-bit window
      at q. As in ShiftInWindow, every offset and width is a named
      parameter, which keeps each proof obligation small. */
  lemma JoinWindow(data: seq<byte>, q: nat, len: nat, ob: nat, k: nat, q1: nat, q2: nat, n: nat, m: nat, hi: nat, lo: nat)
    requires len + ob + k == 32 && q1 == q + len && q2 == q1 + ob && n == len + ob && m == ob + k
    requires hi == Value(data, q, n) * Pow2(k) && lo == Value(data, q1, m)
    ensures Or(hi, lo) == Value(data, q, 32)
  {
    var x, mid, low := Value(data, q, len), Value(data, q1, ob), Value(data, q2, k);
    ValueSplit(data, q, len, ob, q1, n);
    ValueSplit(data, q1, ob, k, q2, m);
    OrOverlap(hi, lo, x, mid, low, ob, k, m);
    ValueSplit(data, q, len, m, q1, 32);
  }

  /** The top log_table_size bits of a word, the lookup index. */
  function Index(w: u32, logTableSize: nat): (r: nat)
    requires logTableSize <= 32
    ensures r < Pow2(logTableSize)
  {
    ShrIsDiv(w, 32 - logTableSize);
    WordSplit(logTableSize);
    DivBelow(w, Pow2(32 - logTableSize), Pow2(logTableSize));
    Shr(w, 32 - logTableSize)
  }

  /** Table t can be read at bit position pos: it has 2^log_table_size
      entries, and the entry the next log_table_size bits select is set,
      with shifts within a word; an extension entry's sub-table must be
      readable in turn after the prefix. Entries a read does not reach may
      be unset, as the source leaves them uninitialised. */
  ghost predicate ReadableAt(data: seq<byte>, pos: nat, t: Table)
    decreases t
  {
    t.logTableSize <= 32 && |t.entries| == Pow2(t.logTableSize)
    && match t.entries[Value(data, pos, t.logTableSize)]
       case Terminal(prefLen, rangeLen, _, _, _) => prefLen <= 32 && rangeLen <= 32
       case Extension(prefLen, ext) => prefLen <= 32 && ReadableAt(data, pos + prefLen, ext)
       case Unset => false
  }

  /** The result of one `jbig2_huffman_get`: the value, what it stored through
      the oob pointer (None when the pointer is null), and the cursor. */
  datatype Decoded = Decoded(value: int, oob: Option<bool>, cursor: Cursor)

  /** The value a terminal entry decodes to when its HTOFFSET is h. */
  function Apply(e: Entry, h: nat): int
    requires e.Terminal?
  {
    if e.isLow then e.rangeLow - h else e.rangeLow + h
  }

  /** What a decode yields, without the cursor: the value, what is stored
      through the oob pointer, and the bit position after it. */
  datatype Outcome = Outcome(value: int, oob: Option<bool>, end: nat)

  function OutcomeOf(r: Decoded): Outcome
  {
    Outcome(r.value, r.oob, if Position(r.cursor) >= 0 then Position(r.cursor) else 0)
  }

  /** The stream-level reading of a table at bit position pos: the entry
      indexed by the next log_table_size bits, following extension entries
      past their prefixes; for the terminal entry reached, HTOFFSET is the
      RANGELEN bits after its prefix, and ISOOB is reported when there is
      somewhere to store it. */
  ghost function Reading(data: seq<byte>, pos: nat, t: Table, oobSlot: Option<bool>): Outcome
    requires ReadableAt(data, pos, t)
    decreases t
  {
    var e := t.entries[Value(data, pos, t.logTableSize)];
    if e.Extension? then
      Reading(data, pos + e.prefLen, e.ext, oobSlot)
    else
      Outcome(Apply(e, Value(data, pos + e.prefLen, e.rangeLen)),
        if oobSlot.Some? then Some(e.isOob) else None,
        pos + e.prefLen + e.rangeLen)
  }

  /** jbig2_huffman_get: look up the top log_table_size bits, consume the
      entry's PREFLEN bits, and follow extension entries; then read RANGELEN
      more bits as HTOFFSET and add it to RANGELOW, or subtract it for a
      low entry. `oobSlot` is the oob pointer: None for null, otherwise the
      value it points to. The result is the stream-level reading of the
      table at the cursor, and the cursor ends just past the prefix and
      range bits used, with its invariant kept. */
  method Get(data: seq<byte>, c: Cursor, t: Table, oobSlot: Option<bool>) returns (r: Decoded)
    requires Inv(data, c) && ReadableAt(data, Position(c), t)
    ensures Inv(data, r.cursor)
    ensures OutcomeOf(r) == Reading(data, Position(c), t, oobSlot)
    decreases t
  {
    var e := t.entries[Index(c.thisWord, t.logTableSize)];
    IndexIsValue(data, c, t.logTableSize);
    var c1 := Consume(data, c, e.prefLen);
    ConsumeKeepsInv(data, c, e.prefLen);
    var pos: nat, pos1: nat := Position(c), Position(c1);
    if e.Extension? {
      ReadingExtension(data, pos, t, oobSlot, e, pos1);
      r := Get(data, c1, e.ext, oobSlot);
    } else {
      ReadingTerminal(data, pos, t, oobSlot, e, pos1);
      r := Finish(data, c1, e, oobSlot);
    }
  }

  /** Reading through an extension entry is reading its sub-table after
      the prefix. */
  lemma ReadingExtension(data: seq<byte>, pos: nat, t: Table, oobSlot: Option<bool>, e: Entry, pos1: nat)
    requires ReadableAt(data, pos, t) && e == t.entries[Value(data, pos, t.logTableSize)]
    requires e.Extension? && pos1 == pos + e.prefLen
    ensures ReadableAt(data, pos1, e.ext)
    ensures Reading(data, pos, t, oobSlot) == Reading(data, pos1, e.ext, oobSlot)
  {
  }

  /** Reading a terminal entry takes its range bits after the prefix. */
  lemma ReadingTerminal(data: seq<byte>, pos: nat, t: Table, oobSlot: Option<bool>, e: Entry, pos1: nat)
    requires ReadableAt(data, pos, t) && e == t.entries[Value(data, pos, t.logTableSize)]
    requires e.Terminal? && pos1 == pos + e.prefLen
    ensures Reading(data, pos, t, oobSlot)
         == Outcome(Apply(e, Value(data, pos1, e.rangeLen)), if oobSlot.Some? then Some(e.isOob) else None, pos1 + e.rangeLen)
  {
  }

  /** The end of `jbig2_huffman_get` once a terminal entry is found and its
      prefix consumed: read RANGELEN bits as HTOFFSET, apply them to
      RANGELOW, and store ISOOB through a non-null pointer. */
  method Finish(data: seq<byte>, c: Cursor, e: Entry, oobSlot: Option<bool>) returns (r: Decoded)
    requires Inv(data, c) && e.Terminal? && e.rangeLen <= 32
    ensures Inv(data, r.cursor)
    ensures OutcomeOf(r) == Outcome(Apply(e, Value(data, Position(c), e.rangeLen)),
      if oobSlot.Some? then Some(e.isOob) else None, Position(c) + e.rangeLen)
  {
    var htOffset: nat := 0;
    var c2 := c;
    if e.rangeLen > 0 {
      htOffset := Shr(c.thisWord, 32 - e.rangeLen);
      c2 := Consume(data, c, e.rangeLen);
      ShrWindow(data, Position(c), e.rangeLen, c.thisWord);
      ConsumeKeepsInv(data, c, e.rangeLen);
    }
    r := Decoded(Apply(e, htOffset), if oobSlot.Some? then Some(e.isOob) else None, c2);
  }

  /** The lookup index is the log_table_size stream bits at the cursor. */
  lemma IndexIsValue(data: seq<byte>, c: Cursor, logTableSize: nat)
    requires Inv(data, c) && logTableSize <= 32
    ensures Index(c.thisWord, logTableSize) == Value(data, Position(c), logTableSize)
  {
    ShrWindow(data, Position(c), logTableSize, c.thisWord);
  }
}
