/** Decoding straight from the table lines, as section B.4 of ITU-T T.88
    describes it: find the line whose code is the next PREFLEN bits, then
    read its RANGELEN bits. This is the reference the lookup-table decoder
    of `jbig2_huffman_get` is measured against: on a table built from any
    code the builder accepts, with every RANGELEN within a word, the two
    agree at every bit position where some line's code matches, which is
    exactly where the lookup index lies below the Kraft sum. A complete
    code matches everywhere. */
module LineDecoding {
  import opened Bits
  import opened Stream
  import opened Wrappers
  import opened HuffmanCodes
  import opened HuffmanTable
  import opened HuffmanDecode

  /** Line i is coded and its code is the PREFLEN stream bits at pos. */
  predicate Matches(lines: seq<Line>, i: nat, data: seq<byte>, pos: nat)
    requires i < |lines|
  {
    lines[i].prefLen >= 1 && Code(lines, i) == Value(data, pos, lines[i].prefLen)
  }

  /** The first line at or after `from` that the stream at pos matches. */
  function MatchingLine(lines: seq<Line>, data: seq<byte>, pos: nat, from: nat): (r: Option<nat>)
    requires from <= |lines|
    ensures r.Some? ==> from <= r.value < |lines| && Matches(lines, r.value, data, pos)
    ensures r.None? ==> forall i :: from <= i < |lines| ==> !Matches(lines, i, data, pos)
    decreases |lines| - from
  {
    if from == |lines| then None
    else if Matches(lines, from, data, pos) then Some(from)
    else MatchingLine(lines, data, pos, from + 1)
  }

  /** One value decoded from the lines: the outcome of the line whose code
      matches, or None when no line matches. */
  function LineDecode(params: Params, data: seq<byte>, pos: nat, oobSlot: Option<bool>): Option<Outcome>
  {
    match MatchingLine(params.lines, data, pos, 0)
    case None => None
    case Some(i) => Some(LineOutcome(params.lines[i], IsLowLine(params, i), IsOobLine(params, i), data, pos, oobSlot))
  }

  /** What line `line` decodes to at pos once its code has matched:
      RANGELOW plus the RANGELEN bits after the code (minus them on the low
      line), the ISOOB flag when there is somewhere to store it, and the bit
      position after the code and range bits. */
  function LineOutcome(line: Line, low: bool, oob: bool, data: seq<byte>, pos: nat, oobSlot: Option<bool>): Outcome
  {
    var h := Value(data, pos + line.prefLen, line.rangeLen);
    Outcome(if low then line.rangeLow - h else line.rangeLow + h,
      if oobSlot.Some? then Some(oob) else None,
      pos + line.prefLen + line.rangeLen)
  }

  /** The lines form a complete code: their Kraft sum fills the table. */
  ghost predicate Complete(params: Params)
  {
    Buildable(params) && TableKraft(params.lines) == Pow2(LogTableSize(params.lines))
  }

  /** Every RANGELEN fits the 32-bit word HTOFFSET is shifted out of. */
  predicate RangesFitWord(lines: seq<Line>)
  {
    forall i :: 0 <= i < |lines| ==> lines[i].rangeLen <= 32
  }

  /** A line matches the stream at pos exactly when its range in the
      lookup table holds the index formed by the table-width bits at pos. */
  lemma MatchIsCover(lines: seq<Line>, tableBits: nat, i: nat, data: seq<byte>, pos: nat, x: nat)
    requires i < |lines| && lines[i].prefLen <= tableBits && x == Value(data, pos, tableBits)
    ensures Matches(lines, i, data, pos) <==> Covers(lines, tableBits, i, x)
  {
    CoversByQuotient(lines, tableBits, i, x);
    ValueTop(data, pos, lines[i].prefLen, tableBits);
  }

  /** The canonical code is prefix-free: at any bit position at most one
      line matches. */
  lemma CodesPrefixFree(lines: seq<Line>, data: seq<byte>, pos: nat, i: nat, k: nat)
    requires PrefixesBounded(lines) && i < |lines| && k < |lines|
    requires Matches(lines, i, data, pos) && Matches(lines, k, data, pos)
    ensures i == k
  {
    var tableBits := LogTableSize(lines);
    var x := Value(data, pos, tableBits);
    PrefixFitsTable(lines, i);
    PrefixFitsTable(lines, k);
    MatchIsCover(lines, tableBits, i, data, pos, x);
    MatchIsCover(lines, tableBits, k, data, pos, x);
    if i != k {
      RangesDisjoint(lines, tableBits, i, k, x);
    }
  }

  /** A complete code matches at every bit position. */
  lemma CompleteCodeMatches(params: Params, data: seq<byte>, pos: nat)
    requires Complete(params)
    ensures MatchingLine(params.lines, data, pos, 0).Some?
  {
    var lines := params.lines;
    var tableBits := LogTableSize(lines);
    var x := Value(data, pos, tableBits);
    BoundedFit(lines);
    CoveredBelowKraft(lines, tableBits, x);
    var i :| 0 <= i < |lines| && Covers(lines, tableBits, i, x);
    MatchIsCover(lines, tableBits, i, data, pos, x);
  }

  /** The line a matching search finds is the one line that matches. */
  lemma FoundLine(lines: seq<Line>, data: seq<byte>, pos: nat, i: nat)
    requires PrefixesBounded(lines) && i < |lines| && Matches(lines, i, data, pos)
    ensures MatchingLine(lines, data, pos, 0) == Some(i)
  {
    var found := MatchingLine(lines, data, pos, 0);
    CodesPrefixFree(lines, data, pos, i, found.value);
  }

  /** Some line matches at pos exactly when the lookup index there lies
      below the Kraft sum, that is, when the built table has an entry set
      at that index. */
  lemma MatchBelowKraft(params: Params, data: seq<byte>, pos: nat)
    requires Buildable(params)
    ensures MatchingLine(params.lines, data, pos, 0).Some?
        <==> Value(data, pos, LogTableSize(params.lines)) < TableKraft(params.lines)
  {
    var lines := params.lines;
    var tableBits := LogTableSize(lines);
    var x := Value(data, pos, tableBits);
    BoundedFit(lines);
    var found := MatchingLine(lines, data, pos, 0);
    if found.Some? {
      var i := found.value;
      MatchIsCover(lines, tableBits, i, data, pos, x);
      if x >= TableKraft(lines) {
        UncoveredFromKraft(lines, tableBits, i, x);
      }
    }
    if x < TableKraft(lines) {
      CoveredBelowKraft(lines, tableBits, x);
      var i :| 0 <= i < |lines| && Covers(lines, tableBits, i, x);
      MatchIsCover(lines, tableBits, i, data, pos, x);
    }
  }

  /** A folded entry's HTOFFSET, the RANGELEN bits of the index just below
      the prefix, is the RANGELEN stream bits after the code. */
  lemma FoldedOffset(data: seq<byte>, pos: nat, p: nat, r: nat, tableBits: nat, x: nat, pr: nat, posP: nat)
    requires pr == p + r && pr <= tableBits && posP == pos + p && x == Value(data, pos, tableBits)
    ensures (x / Pow2(tableBits - pr)) % Pow2(r) == Value(data, posP, r)
  {
    ValueTop(data, pos, pr, tableBits);
    ValueTop(data, pos, p, pr);
  }

  /** Wherever some line's code matches, the lookup table can be read and
      reads exactly what the lines decode to: the same value, the same
      ISOOB report and the same end position. */
  lemma TableReadsLine(params: Params, data: seq<byte>, pos: nat, oobSlot: Option<bool>)
    requires Buildable(params) && RangesFitWord(params.lines)
    requires MatchingLine(params.lines, data, pos, 0).Some?
    ensures ReadableAt(data, pos, SpecTable(params))
    ensures LineDecode(params, data, pos, oobSlot) == Some(Reading(data, pos, SpecTable(params), oobSlot))
  {
    var t := SpecTable(params);
    var x := Value(data, pos, t.logTableSize);
    var i := MatchingLine(params.lines, data, pos, 0).value;
    PrefixFitsTable(params.lines, i);
    MatchIsCover(params.lines, t.logTableSize, i, data, pos, x);
    assert Owns(params, i, x);
    LineEntry(params, i, x);
    HeldEntryReadable(data, pos, t, x, params.lines[i], IsLowLine(params, i), IsOobLine(params, i));
    ReadsOwnedLine(params, data, pos, oobSlot, t, x, i, t.entries[x]);
  }

  /** The entry a line with PREFLEN at most 8 and RANGELEN at most 32
      writes at the index read is one the decoder can use. */
  lemma HeldEntryReadable(data: seq<byte>, pos: nat, t: Table, x: nat, line: Line, low: bool, oob: bool)
    requires t.logTableSize <= LogTableSizeMax && |t.entries| == Pow2(t.logTableSize)
    requires x == Value(data, pos, t.logTableSize)
    requires line.prefLen <= LogTableSizeMax && line.rangeLen <= 32
    requires HoldsLine(t.entries[x], line, low, oob, t.logTableSize, x)
    ensures ReadableAt(data, pos, t)
  {
  }

  /** The step of TableReadsLine once the matching line and its entry are
      known. */
  lemma ReadsOwnedLine(params: Params, data: seq<byte>, pos: nat, oobSlot: Option<bool>, t: Table, x: nat, i: nat, e: Entry)
    requires PrefixesBounded(params.lines) && ReadableAt(data, pos, t) && i < |params.lines|
    requires x == Value(data, pos, t.logTableSize) && x < |t.entries| && e == t.entries[x]
    requires Matches(params.lines, i, data, pos)
    requires HoldsLine(e, params.lines[i], IsLowLine(params, i), IsOobLine(params, i), t.logTableSize, x)
    ensures LineDecode(params, data, pos, oobSlot) == Some(Reading(data, pos, t, oobSlot))
  {
    LineDecodeOf(params, data, pos, oobSlot, i);
    ReadingOwned(data, pos, oobSlot, t, x, e, params.lines[i], IsLowLine(params, i), IsOobLine(params, i));
  }

  /** The table side of ReadsOwnedLine: reading the entry line `line` wrote
      gives the outcome the line describes. */
  lemma ReadingOwned(data: seq<byte>, pos: nat, oobSlot: Option<bool>, t: Table, x: nat, e: Entry, line: Line, low: bool, oob: bool)
    requires ReadableAt(data, pos, t) && x == Value(data, pos, t.logTableSize) && x < |t.entries| && e == t.entries[x]
    requires HoldsLine(e, line, low, oob, t.logTableSize, x)
    ensures Reading(data, pos, t, oobSlot) == LineOutcome(line, low, oob, data, pos, oobSlot)
  {
    ReadingTerminal(data, pos, t, oobSlot, e, pos + e.prefLen);
    TerminalAgrees(e, line, low, oob, data, pos, t.logTableSize, x, oobSlot);
  }

  /** The entry a line owns reads the same outcome as the line itself. */
  lemma TerminalAgrees(e: Entry, line: Line, low: bool, oob: bool, data: seq<byte>, pos: nat, tableBits: nat, x: nat,
                       oobSlot: Option<bool>)
    requires HoldsLine(e, line, low, oob, tableBits, x) && x == Value(data, pos, tableBits)
    ensures Outcome(Apply(e, Value(data, pos + e.prefLen, e.rangeLen)), if oobSlot.Some? then Some(e.isOob) else None,
        pos + e.prefLen + e.rangeLen)
      == LineOutcome(line, low, oob, data, pos, oobSlot)
  {
    if line.prefLen + line.rangeLen <= LogTableSizeMax {
      FoldedOffset(data, pos, line.prefLen, line.rangeLen, tableBits, x, line.prefLen + line.rangeLen, pos + line.prefLen);
    }
  }

  /** What the lines decode to when line i matches. */
  lemma LineDecodeOf(params: Params, data: seq<byte>, pos: nat, oobSlot: Option<bool>, i: nat)
    requires PrefixesBounded(params.lines) && i < |params.lines| && Matches(params.lines, i, data, pos)
    ensures LineDecode(params, data, pos, oobSlot)
      == Some(LineOutcome(params.lines[i], IsLowLine(params, i), IsOobLine(params, i), data, pos, oobSlot))
  {
    FoundLine(params.lines, data, pos, i);
  }

  /** Building the table and reading one value with it decodes what the
      lines decode at the cursor, and keeps the cursor invariant, wherever
      some line's code matches there. */
  method DecodeWithLines(params: Params, data: seq<byte>, c: Cursor, oobSlot: Option<bool>) returns (r: Decoded)
    requires Buildable(params) && RangesFitWord(params.lines) && Inv(data, c)
    requires MatchingLine(params.lines, data, Position(c), 0).Some?
    ensures Inv(data, r.cursor)
    ensures LineDecode(params, data, Position(c), oobSlot) == Some(OutcomeOf(r))
  {
    var t := BuildTable(params);
    TableReadsLine(params, data, Position(c), oobSlot);
    r := Get(data, c, t, oobSlot);
  }
}
