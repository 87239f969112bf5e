/** The lookup table `jbig2_build_huffman_table` produces: a flat array of
    2^log_table_size entries in which every index whose top PREFLEN bits
    are a line's code holds that line's entry.

    `SpecTable` says declaratively what every index holds; `BuildTable`
    is the two-pass construction of the source (count, then fill), proved
    to produce exactly `SpecTable`. */
module HuffmanTable {
  import opened Bits
  import opened HuffmanCodes
  import opened Wrappers

  /** A table entry. `Terminal` is a line's entry, possibly with its range
      bits folded in, with the ISOOB and ISLOW flags; `Extension` is an
      ISEXT entry pointing to a sub-table; `Unset` is an index no code
      reaches, which the source leaves uninitialised. */
  datatype Entry =
    | Terminal(prefLen: nat, rangeLen: nat, rangeLow: int, isOob: bool, isLow: bool)
    | Extension(prefLen: nat, ext: Table)
    | Unset

  datatype Table = Table(logTableSize: nat, entries: seq<Entry>)

  /** ISOOB goes to the last line, and only when HTOOB is set. */
  predicate IsOobLine(params: Params, i: nat)
  {
    params.htoob && i == |params.lines| - 1
  }

  /** ISLOW goes to the line at position n-2, or n-3 under HTOOB. */
  predicate IsLowLine(params: Params, i: nat)
  {
    i == |params.lines| - (if params.htoob then 3 else 2)
  }

  /** A line whose prefix and range bits fit in LOG_TABLE_SIZE_MAX has its
      range folded into the table. */
  predicate Folded(line: Line)
  {
    line.prefLen + line.rangeLen <= LogTableSizeMax
  }

  ghost predicate PrefixesBounded(lines: seq<Line>)
  {
    forall i :: 0 <= i < |lines| ==> lines[i].prefLen <= LogTableSizeMax
  }

  lemma BoundedFit(lines: seq<Line>)
    requires PrefixesBounded(lines)
    ensures PrefixesFit(lines, LogTableSize(lines))
  {
    forall i | 0 <= i < |lines| ensures lines[i].prefLen <= LogTableSize(lines) {
      PrefixFitsTable(lines, i);
    }
  }

  /** What the builder needs of its input: every PREFLEN at most
      LOG_TABLE_SIZE_MAX (so that no shift is negative) and the Kraft
      inequality (so that every write stays inside the table). */
  ghost predicate Buildable(params: Params)
  {
    PrefixesBounded(params.lines) && TableKraft(params.lines) <= Pow2(LogTableSize(params.lines))
  }

  /** The Kraft sum of the lines, scaled to the table they build. */
  ghost function TableKraft(lines: seq<Line>): nat
    requires PrefixesBounded(lines)
  {
    BoundedFit(lines);
    KraftSum(lines, LogTableSize(lines))
  }

  /** What line `line`, with the given ISLOW and ISOOB flags, writes at
      index x of a 2^tableBits table: a terminal entry with those flags;
      the line's own PREFLEN, RANGELEN and RANGELOW when its range is not
      folded; otherwise PREFLEN+RANGELEN, no range bits, and RANGELOW moved
      by HTOFFSET, the RANGELEN bits of x just below the prefix, downwards
      on the low line. */
  function WrittenEntry(line: Line, low: bool, oob: bool, tableBits: nat, x: nat): Entry
    requires Folded(line) ==> line.prefLen + line.rangeLen <= tableBits
  {
    if !Folded(line) then Terminal(line.prefLen, line.rangeLen, line.rangeLow, oob, low)
    else
      var htOffset := (x / Pow2(tableBits - line.prefLen - line.rangeLen)) % Pow2(line.rangeLen);
      Terminal(line.prefLen + line.rangeLen, 0,
        if low then line.rangeLow - htOffset else line.rangeLow + htOffset, oob, low)
  }

  /** Entry e is the one `line` writes at index x, and a folded range fits
      the table. */
  ghost predicate HoldsLine(e: Entry, line: Line, low: bool, oob: bool, tableBits: nat, x: nat)
  {
    (Folded(line) ==> line.prefLen + line.rangeLen <= tableBits)
    && e == WrittenEntry(line, low, oob, tableBits, x)
  }

  /** The entry line i writes at index x, with the flags its position in
      the list gives it. */
  function EntryFor(params: Params, tableBits: nat, i: nat, x: nat): Entry
    requires i < |params.lines|
    requires Folded(params.lines[i]) ==> params.lines[i].prefLen + params.lines[i].rangeLen <= tableBits
  {
    WrittenEntry(params.lines[i], IsLowLine(params, i), IsOobLine(params, i), tableBits, x)
  }

  /** The first line at or after `from` whose range holds index x. */
  function CoveringLine(lines: seq<Line>, tableBits: nat, x: nat, from: nat): (r: Option<nat>)
    requires PrefixesFit(lines, tableBits) && from <= |lines|
    ensures r.Some? ==> from <= r.value < |lines| && Covers(lines, tableBits, r.value, x)
    ensures r.None? ==> forall i :: from <= i < |lines| ==> !Covers(lines, tableBits, i, x)
    decreases |lines| - from
  {
    if from == |lines| then None
    else if Covers(lines, tableBits, from, x) then Some(from)
    else CoveringLine(lines, tableBits, x, from + 1)
  }

  /** What the finished table holds at index x. */
  function SpecEntry(params: Params, x: nat): Entry
    requires PrefixesBounded(params.lines)
  {
    var lines := params.lines;
    var tableBits := LogTableSize(lines);
    BoundedFit(lines);
    match CoveringLine(lines, tableBits, x, 0)
    case None => Unset
    case Some(i) => FoldedFits(lines, i); EntryFor(params, tableBits, i, x)
  }

  function SpecTable(params: Params): (t: Table)
    requires PrefixesBounded(params.lines)
    ensures t.logTableSize <= LogTableSizeMax && |t.entries| == Pow2(t.logTableSize)
  {
    var tableBits := LogTableSize(params.lines);
    Table(tableBits, seq(Pow2(tableBits), x requires 0 <= x => SpecEntry(params, x)))
  }

  // ---------------------------------------------------------------------
  // The construction

  /** `lenCount` holds LENCOUNT of `lines` for every length up to lenMax. */
  ghost predicate CountsOf(lines: seq<Line>, lenCount: seq<int>, lenMax: int)
  {
    |lenCount| == 256 && lenMax < 256
    && forall len :: 0 <= len <= lenMax ==> lenCount[len] == LenCount(lines, len)
  }

  /** Step 1 of section B.3: LENCOUNT, LENMAX and log_table_size. */
  method CountLengths(lines: seq<Line>) returns (lenCount: seq<int>, lenMax: int, logTableSize: nat)
    requires PrefixesBounded(lines)
    ensures |lines| == 0 ==> lenMax == -1
    ensures |lines| > 0 ==> exists i :: 0 <= i < |lines| && lines[i].prefLen == lenMax
    ensures forall i :: 0 <= i < |lines| ==> lines[i].prefLen <= lenMax
    ensures CountsOf(lines, lenCount, lenMax)
    ensures logTableSize == LogTableSize(lines)
  {
    lenCount := seq(256, _ => 0);
    lenMax := -1;
    logTableSize := 0;
    var i := 0;
    while i < |lines|
      invariant 0 <= i <= |lines| && -1 <= lenMax <= LogTableSizeMax
      invariant i == 0 ==> lenMax == -1
      invariant i > 0 ==> exists k :: 0 <= k < i && lines[k].prefLen == lenMax
      invariant forall k :: 0 <= k < i ==> lines[k].prefLen <= lenMax
      invariant CountsOf(lines[..i], lenCount, lenMax)
      invariant logTableSize == LogTableSize(lines[..i])
    {
      var prefLen := lines[i].prefLen;
      if prefLen > lenMax {
        lenCount := ClearCounts(lines[..i], lenCount, lenMax, prefLen);
        lenMax := prefLen;
      }
      CountNext(lines, i, lenCount, lenMax);
      lenCount := lenCount[prefLen := lenCount[prefLen] + 1];
      var lts := prefLen + lines[i].rangeLen;
      if lts > LogTableSizeMax {
        lts := prefLen;
      }
      if lts <= LogTableSizeMax && logTableSize < lts {
        logTableSize := lts;
      }
      LogTableSizeNext(lines, i);
      i := i + 1;
    }
    assert lines[..i] == lines;
  }

  /** Zeroes LENCOUNT[lenMax+1 .. prefLen] when a longer prefix shows up:
      none of the lines seen so far has one of those lengths. */
  method ClearCounts(seen: seq<Line>, lenCount: seq<int>, lenMax: int, prefLen: nat) returns (cleared: seq<int>)
    requires -1 <= lenMax < prefLen < 256
    requires forall k :: 0 <= k < |seen| ==> seen[k].prefLen <= lenMax
    requires CountsOf(seen, lenCount, lenMax)
    ensures CountsOf(seen, cleared, prefLen)
  {
    cleared := lenCount;
    var j := lenMax + 1;
    while j < prefLen + 1
      invariant lenMax + 1 <= j <= prefLen + 1 && |cleared| == 256
      invariant forall len :: 0 <= len <= lenMax ==> cleared[len] == lenCount[len]
      invariant forall len :: lenMax < len < j ==> cleared[len] == 0
    {
      cleared := cleared[j := 0];
      j := j + 1;
    }
    forall len | lenMax < len <= prefLen
      ensures LenCount(seen, len) == 0
    {
      LenCountAbsent(seen, len);
    }
  }

  /** `LENCOUNT[PREFLEN]++` for line i keeps the counts exact. */
  lemma CountNext(lines: seq<Line>, i: nat, lenCount: seq<int>, lenMax: int)
    requires i < |lines| && lines[i].prefLen <= lenMax
    requires CountsOf(lines[..i], lenCount, lenMax)
    ensures CountsOf(lines[..i + 1], lenCount[lines[i].prefLen := lenCount[lines[i].prefLen] + 1], lenMax)
  {
    forall len: nat | len <= lenMax
      ensures LenCount(lines[..i + 1], len) == LenCount(lines[..i], len) + (if lines[i].prefLen == len then 1 else 0)
    {
      LenCountStep(lines, i, len);
    }
  }

  /** The running maximum of the contributions is log_table_size of the
      lines seen so far. */
  lemma LogTableSizeNext(lines: seq<Line>, i: nat)
    requires i < |lines|
    ensures var c := SizeContribution(lines[i]); var r := LogTableSize(lines[..i]);
      LogTableSize(lines[..i + 1]) == if c <= LogTableSizeMax && r < c then c else r
  {
    assert lines[..i + 1][..i] == lines[..i];
  }

  /** A length no line has is counted zero times. */
  lemma {:induction false} LenCountAbsent(lines: seq<Line>, len: nat)
    requires forall k :: 0 <= k < |lines| ==> lines[k].prefLen < len
    ensures LenCount(lines, len) == 0
    decreases |lines|
  {
    if |lines| > 0 {
      LenCountAbsent(lines[..|lines| - 1], len);
    }
  }

  /** Writes line i's entries over the index range [startJ, endJ), with the
      range bits folded in when they fit (the two inner loops of B.3 3(b)). */
  method FillRange(params: Params, tableBits: nat, i: nat, entries: seq<Entry>, startJ: nat, endJ: nat)
    returns (filled: seq<Entry>)
    requires i < |params.lines| && params.lines[i].prefLen <= tableBits
    requires Folded(params.lines[i]) ==> params.lines[i].prefLen + params.lines[i].rangeLen <= tableBits
    requires startJ <= endJ <= |entries|
    ensures |filled| == |entries|
    ensures forall x :: 0 <= x < |filled| ==>
      filled[x] == if startJ <= x < endJ then EntryFor(params, tableBits, i, x) else entries[x]
  {
    var line := params.lines[i];
    var oob, low := IsOobLine(params, i), IsLowLine(params, i);
    filled := entries;
    var j := startJ;
    if line.prefLen + line.rangeLen > LogTableSizeMax {
      while j < endJ
        invariant startJ <= j <= endJ && |filled| == |entries|
        invariant forall x :: 0 <= x < |filled| ==>
          filled[x] == if startJ <= x < j then EntryFor(params, tableBits, i, x) else entries[x]
      {
        filled := filled[j := Terminal(line.prefLen, line.rangeLen, line.rangeLow, oob, low)];
        j := j + 1;
      }
    } else {
      var shift := tableBits - line.prefLen;
      while j < endJ
        invariant startJ <= j <= endJ && |filled| == |entries|
        invariant forall x :: 0 <= x < |filled| ==>
          filled[x] == if startJ <= x < j then EntryFor(params, tableBits, i, x) else entries[x]
      {
        var htOffset := (j / Pow2(shift - line.rangeLen)) % Pow2(line.rangeLen);
        var rangeLow := if low then line.rangeLow - htOffset else line.rangeLow + htOffset;
        filled := filled[j := Terminal(line.prefLen + line.rangeLen, 0, rangeLow, oob, low)];
        j := j + 1;
      }
    }
  }

  /** The table is final below `bound` and untouched from there on. */
  predicate FilledBelow(target: seq<Entry>, entries: seq<Entry>, bound: nat)
  {
    |entries| == |target| && forall x :: 0 <= x < |entries| ==> entries[x] == if x < bound then target[x] else Unset
  }

  /** jbig2_build_huffman_table: count the lengths, then for each length in
      increasing order give its lines consecutive codes and fill their
      ranges. */
  method BuildTable(params: Params) returns (t: Table)
    requires Buildable(params)
    ensures t == SpecTable(params)
  {
    var lines := params.lines;
    var lenCount, lenMax, logTableSize := CountLengths(lines);
    var tableBits := logTableSize;
    BoundedFit(lines);
    KraftIsEnd(lines, tableBits);
    if |lines| > 0 {
      var k :| 0 <= k < |lines| && lines[k].prefLen == lenMax;
      PrefixFitsTable(lines, k);
    }
    var entries := seq(Pow2(tableBits), _ => Unset);
    ghost var spec := SpecTable(params).entries;
    assert End(lines, tableBits, 0) == 0;
    assert FilledBelow(spec, entries, 0);
    lenCount := lenCount[0 := 0];
    var firstCode := 0;
    var curLen := 1;
    ghost var filledTo := 0;
    while curLen <= lenMax
      invariant 1 <= curLen <= tableBits + 1 && (curLen <= lenMax + 1 || curLen == 1)
      invariant |entries| == Pow2(tableBits) && |lenCount| == 256
      invariant forall len :: 0 <= len <= lenMax ==> lenCount[len] == CodeCount(lines, len)
      invariant firstCode == FirstCode(lines, curLen - 1)
      invariant filledTo == End(lines, tableBits, curLen - 1)
      invariant FilledBelow(spec, entries, filledTo)
    {
      firstCode := (firstCode + lenCount[curLen - 1]) * 2;
      EndMono(lines, tableBits, curLen, tableBits);
      entries := FillLength(params, curLen, firstCode, entries);
      filledTo := End(lines, tableBits, curLen);
      curLen := curLen + 1;
    }
    forall x | 0 <= x < |entries| ensures entries[x] == spec[x] {
      if x >= filledTo {
        NothingPastLongest(params, curLen - 1, x);
      }
    }
    t := Table(tableBits, entries);
  }

  /** Where the filled part of the table ends once the first k lines have
      been visited for length len. */
  function Frontier(lines: seq<Line>, tableBits: nat, len: nat, k: nat): nat
    requires len <= tableBits && k <= |lines|
  {
    (FirstCode(lines, len) + LenCount(lines[..k], len)) * Pow2(tableBits - len)
  }

  /** Step 3(b) of section B.3 for one length: its lines, in list order,
      take consecutive codes from FIRSTCODE, and each fills its range. */
  method FillLength(params: Params, curLen: nat, firstCode: nat, entries: seq<Entry>)
    returns (filled: seq<Entry>)
    requires PrefixesBounded(params.lines)
    requires 1 <= curLen <= LogTableSize(params.lines)
    requires End(params.lines, LogTableSize(params.lines), curLen) <= |entries|
    requires firstCode == FirstCode(params.lines, curLen)
    requires FilledBelow(SpecTable(params).entries, entries, End(params.lines, LogTableSize(params.lines), curLen - 1))
    ensures FilledBelow(SpecTable(params).entries, filled, End(params.lines, LogTableSize(params.lines), curLen))
  {
    var lines := params.lines;
    var n := |lines|;
    var tableBits := LogTableSize(lines);
    FrontierBounds(lines, tableBits, curLen);
    filled := entries;
    var curCode := firstCode;
    var curTemp := 0;
    while curTemp < n
      invariant 0 <= curTemp <= n
      invariant curCode == FirstCode(lines, curLen) + LenCount(lines[..curTemp], curLen)
      invariant FilledBelow(SpecTable(params).entries, filled, Frontier(lines, tableBits, curLen, curTemp))
    {
      filled, curCode := FillLine(params, curLen, curTemp, curCode, filled);
      curTemp := curTemp + 1;
    }
  }

  /** The CURCODE loop starts at the end of the previous length's block and
      stops at the end of this one's. */
  lemma FrontierBounds(lines: seq<Line>, tableBits: nat, len: nat)
    requires 1 <= len <= tableBits
    ensures Frontier(lines, tableBits, len, 0) == End(lines, tableBits, len - 1)
    ensures Frontier(lines, tableBits, len, |lines|) == End(lines, tableBits, len)
  {
    FirstCodeIsPreviousEnd(lines, tableBits, len);
    assert lines[..|lines|] == lines;
  }

  /** One turn of the CURTEMP loop: line i, if its PREFLEN is CURLEN, takes
      code CURCODE and fills its range, and CURCODE moves on. */
  method FillLine(params: Params, curLen: nat, i: nat, curCode: nat, entries: seq<Entry>)
    returns (filled: seq<Entry>, nextCode: nat)
    requires PrefixesBounded(params.lines) && i < |params.lines|
    requires 1 <= curLen <= LogTableSize(params.lines)
    requires End(params.lines, LogTableSize(params.lines), curLen) <= |entries|
    requires curCode == FirstCode(params.lines, curLen) + LenCount(params.lines[..i], curLen)
    requires FilledBelow(SpecTable(params).entries, entries, Frontier(params.lines, LogTableSize(params.lines), curLen, i))
    ensures nextCode == FirstCode(params.lines, curLen) + LenCount(params.lines[..i + 1], curLen)
    ensures |filled| == |entries|
    ensures FilledBelow(SpecTable(params).entries, filled, Frontier(params.lines, LogTableSize(params.lines), curLen, i + 1))
  {
    var lines := params.lines;
    var tableBits := LogTableSize(lines);
    var shift := tableBits - curLen;
    BoundedFit(lines);
    FrontierStep(lines, tableBits, curLen, i);
    LenCountStep(lines, i, curLen);
    filled, nextCode := entries, curCode;
    if lines[i].prefLen == curLen {
      var w := Pow2(shift);
      assert curCode == Code(lines, i);
      var startJ := curCode * w;
      var endJ := (curCode + 1) * w;
      assert startJ == Frontier(lines, tableBits, curLen, i) && endJ == Frontier(lines, tableBits, curLen, i + 1);
      assert startJ <= endJ <= |entries|;
      FoldedFits(lines, i);
      filled := FillRange(params, tableBits, i, entries, startJ, endJ);
      FillStep(params, i, entries, filled, startJ, endJ);
      nextCode := curCode + 1;
    } else {
      ghost var target := SpecTable(params).entries;
      assert Frontier(lines, tableBits, curLen, i + 1) == Frontier(lines, tableBits, curLen, i);
      assert FilledBelow(target, filled, Frontier(lines, tableBits, curLen, i + 1));
    }
  }

  /** A line of the current length advances the frontier by its range, which
      starts at its code and stays within the length's block; any other
      line leaves it. */
  lemma FrontierStep(lines: seq<Line>, tableBits: nat, len: nat, i: nat)
    requires 1 <= len <= tableBits && i < |lines| && lines[i].prefLen <= tableBits
    ensures lines[i].prefLen != len ==> Frontier(lines, tableBits, len, i + 1) == Frontier(lines, tableBits, len, i)
    ensures lines[i].prefLen == len ==>
      var w := Pow2(tableBits - len);
      Frontier(lines, tableBits, len, i) == Code(lines, i) * w
      && Frontier(lines, tableBits, len, i + 1) == (Code(lines, i) + 1) * w
      && Code(lines, i) * w <= (Code(lines, i) + 1) * w <= End(lines, tableBits, len)
  {
    LenCountStep(lines, i, len);
    if lines[i].prefLen == len {
      var w := Pow2(tableBits - len);
      RangeWithinLength(lines, tableBits, i);
      MulMonotone(Code(lines, i), Code(lines, i) + 1, w);
    }
  }

  lemma FoldedFits(lines: seq<Line>, i: nat)
    requires i < |lines|
    ensures Folded(lines[i]) ==> lines[i].prefLen + lines[i].rangeLen <= LogTableSize(lines)
  {
    LogTableSizeIsMax(lines);
  }

  /** Filling line i's range moves the frontier from its start to its end. */
  lemma FillStep(params: Params, i: nat, before: seq<Entry>, after: seq<Entry>, startJ: nat, endJ: nat)
    requires PrefixesBounded(params.lines) && i < |params.lines|
    requires 1 <= params.lines[i].prefLen <= LogTableSize(params.lines)
    requires Folded(params.lines[i]) ==> params.lines[i].prefLen + params.lines[i].rangeLen <= LogTableSize(params.lines)
    requires var w := Pow2(LogTableSize(params.lines) - params.lines[i].prefLen);
      startJ == Code(params.lines, i) * w && endJ == (Code(params.lines, i) + 1) * w
    requires FilledBelow(SpecTable(params).entries, before, startJ) && |after| == |before| && endJ <= |before|
    requires forall x :: 0 <= x < |after| ==>
      after[x] == if startJ <= x < endJ then EntryFor(params, LogTableSize(params.lines), i, x) else before[x]
    ensures FilledBelow(SpecTable(params).entries, after, endJ)
  {
    var target := SpecTable(params).entries;
    forall x | 0 <= x < |after|
      ensures after[x] == if x < endJ then target[x] else Unset
    {
      if startJ <= x < endJ {
        SpecEntryOfLine(params, i, x);
      }
    }
  }

  // ---------------------------------------------------------------------
  // What the table holds

  /** The entry at an index a line's range holds is that line's entry. */
  lemma SpecEntryOfLine(params: Params, i: nat, x: nat)
    requires PrefixesBounded(params.lines) && i < |params.lines|
    requires params.lines[i].prefLen <= LogTableSize(params.lines)
    requires Folded(params.lines[i]) ==> params.lines[i].prefLen + params.lines[i].rangeLen <= LogTableSize(params.lines)
    requires Covers(params.lines, LogTableSize(params.lines), i, x)
    ensures SpecEntry(params, x) == EntryFor(params, LogTableSize(params.lines), i, x)
  {
    var lines := params.lines;
    var tableBits := LogTableSize(lines);
    BoundedFit(lines);
    var found := CoveringLine(lines, tableBits, x, 0);
    if found.value != i {
      RangesDisjoint(lines, tableBits, i, found.value, x);
    }
  }

  /** No index at or past the end of the longest length's block is set. */
  lemma NothingPastLongest(params: Params, len: nat, x: nat)
    requires PrefixesBounded(params.lines) && len <= LogTableSize(params.lines)
    requires forall i :: 0 <= i < |params.lines| ==> params.lines[i].prefLen <= len
    requires End(params.lines, LogTableSize(params.lines), len) <= x
    ensures SpecEntry(params, x) == Unset
  {
    var lines := params.lines;
    var tableBits := LogTableSize(lines);
    BoundedFit(lines);
    forall i | 0 <= i < |lines| ensures !Covers(lines, tableBits, i, x) {
      if lines[i].prefLen >= 1 {
        RangeWithinLength(lines, tableBits, i);
        EndMono(lines, tableBits, lines[i].prefLen, len);
      }
    }
  }

  /** Line i is coded and its range holds index x. */
  ghost predicate Owns(params: Params, i: nat, x: nat)
  {
    i < |params.lines| && 1 <= params.lines[i].prefLen <= LogTableSize(params.lines)
    && Covers(params.lines, LogTableSize(params.lines), i, x)
  }

  /** What an index of a line's range holds: the entry that line writes
      there, with the ISOOB and ISLOW flags its position in the list gives. */
  lemma LineEntry(params: Params, i: nat, x: nat)
    requires Buildable(params) && Owns(params, i, x)
    ensures x < |SpecTable(params).entries|
    ensures HoldsLine(SpecTable(params).entries[x], params.lines[i], IsLowLine(params, i), IsOobLine(params, i),
      LogTableSize(params.lines), x)
  {
    OwnedEntry(params, i, x);
  }

  /** The entry a line owns is the one `EntryFor` gives for it. */
  lemma OwnedEntry(params: Params, i: nat, x: nat)
    requires Buildable(params) && Owns(params, i, x)
    ensures Folded(params.lines[i]) ==> params.lines[i].prefLen + params.lines[i].rangeLen <= LogTableSize(params.lines)
    ensures x < |SpecTable(params).entries|
    ensures SpecTable(params).entries[x] == EntryFor(params, LogTableSize(params.lines), i, x)
  {
    var lines := params.lines;
    BoundedFit(lines);
    RangeBelowKraft(lines, LogTableSize(lines), i);
    FoldedFits(lines, i);
    SpecEntryOfLine(params, i, x);
  }

  /** The builder never makes an extension entry, and an index is left
      unset exactly when it lies at or past the Kraft sum of the codes,
      that is, when no line's range holds it. */
  lemma TableShape(params: Params, x: nat)
    requires Buildable(params) && x < Pow2(LogTableSize(params.lines))
    ensures var e := SpecTable(params).entries[x];
      && !e.Extension?
      && (e.Unset? <==> TableKraft(params.lines) <= x)
      && (e.Terminal? <==> exists i :: Owns(params, i, x))
  {
    if TableKraft(params.lines) <= x {
      UnsetPastKraft(params, x);
    } else {
      OwnedBelowKraft(params, x);
    }
  }

  lemma UnsetPastKraft(params: Params, x: nat)
    requires PrefixesBounded(params.lines) && x < Pow2(LogTableSize(params.lines))
    requires TableKraft(params.lines) <= x
    ensures SpecTable(params).entries[x] == Unset
    ensures forall i :: !Owns(params, i, x)
  {
    var lines := params.lines;
    var tableBits := LogTableSize(lines);
    BoundedFit(lines);
    forall i | 0 <= i < |lines| ensures !Covers(lines, tableBits, i, x) {
      UncoveredFromKraft(lines, tableBits, i, x);
    }
    assert SpecTable(params).entries[x] == SpecEntry(params, x);
  }

  lemma OwnedBelowKraft(params: Params, x: nat)
    requires PrefixesBounded(params.lines) && x < TableKraft(params.lines)
    requires x < Pow2(LogTableSize(params.lines))
    ensures SpecTable(params).entries[x].Terminal?
    ensures exists i :: Owns(params, i, x)
  {
    var lines := params.lines;
    var tableBits := LogTableSize(lines);
    BoundedFit(lines);
    CoveredBelowKraft(lines, tableBits, x);
    var i :| 0 <= i < |lines| && Covers(lines, tableBits, i, x);
    FoldedFits(lines, i);
    SpecEntryOfLine(params, i, x);
    assert Owns(params, i, x);
    assert SpecTable(params).entries[x] == SpecEntry(params, x);
  }

  /** A complete code (Kraft equality) leaves no index unset. */
  lemma CompleteTableIsDense(params: Params, x: nat)
    requires Buildable(params) && x < Pow2(LogTableSize(params.lines))
    requires TableKraft(params.lines) == Pow2(LogTableSize(params.lines))
    ensures SpecTable(params).entries[x].Terminal?
  {
    TableShape(params, x);
  }
}
