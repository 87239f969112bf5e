/** Canonical code assignment of section B.3 of ITU-T T.88 (JBIG2), as
    `jbig2_build_huffman_table` performs it: the line list, the derived
    lookup-table width, the per-length counts, the first code of each
    length, and the index range of the lookup table each coded line owns.

    The ranges are laid out contiguously in (length, list position) order,
    which gives disjointness for every line list, containment in the table
    under the Kraft inequality, and a gap-free table when the inequality is
    an equality. */
module HuffmanCodes {
  import opened Bits

  /** LOG_TABLE_SIZE_MAX: the lookup table never has more than 2^8 entries. */
  const LogTableSizeMax: nat := 8

  /** One line of a table: PREFLEN, RANGELEN and RANGELOW. */
  datatype Line = Line(prefLen: nat, rangeLen: nat, rangeLow: int)

  /** A table description: its lines in order, and HTOOB. */
  datatype Params = Params(htoob: bool, lines: seq<Line>)

  /** How many index bits a line asks of the lookup table: its prefix and
      range bits together when they fit in LOG_TABLE_SIZE_MAX, otherwise
      its prefix alone. */
  function SizeContribution(line: Line): nat
  {
    if line.prefLen + line.rangeLen > LogTableSizeMax then line.prefLen
    else line.prefLen + line.rangeLen
  }

  /** log_table_size: the largest contribution that fits in the cap. */
  function LogTableSize(lines: seq<Line>): (r: nat)
    ensures r <= LogTableSizeMax
  {
    if |lines| == 0 then 0
    else
      var r := LogTableSize(lines[..|lines| - 1]);
      var c := SizeContribution(lines[|lines| - 1]);
      if c <= LogTableSizeMax && r < c then c else r
  }

  /** log_table_size is the largest contribution within the cap: every
      such contribution is at most it, and it is 0 or one of them. */
  lemma {:induction false} LogTableSizeIsMax(lines: seq<Line>)
    ensures forall i :: 0 <= i < |lines| && SizeContribution(lines[i]) <= LogTableSizeMax ==>
      SizeContribution(lines[i]) <= LogTableSize(lines)
    ensures LogTableSize(lines) == 0
      || exists i :: 0 <= i < |lines| && SizeContribution(lines[i]) == LogTableSize(lines)
    decreases |lines|
  {
    if |lines| > 0 {
      var init := lines[..|lines| - 1];
      LogTableSizeIsMax(init);
      assert forall i :: 0 <= i < |init| ==> init[i] == lines[i];
    }
  }

  /** Lines whose PREFLEN is at most LOG_TABLE_SIZE_MAX always fit the table. */
  lemma PrefixFitsTable(lines: seq<Line>, i: nat)
    requires i < |lines| && lines[i].prefLen <= LogTableSizeMax
    ensures lines[i].prefLen <= LogTableSize(lines)
  {
    LogTableSizeIsMax(lines);
  }

  /** The number of lines with PREFLEN == len. */
  function LenCount(lines: seq<Line>, len: nat): (r: nat)
    ensures r <= |lines|
  {
    if |lines| == 0 then 0
    else LenCount(lines[..|lines| - 1], len) + (if lines[|lines| - 1].prefLen == len then 1 else 0)
  }

  /** LENCOUNT after B.3 step 2 forces LENCOUNT[0] to zero. */
  function CodeCount(lines: seq<Line>, len: nat): nat
  {
    if len == 0 then 0 else LenCount(lines, len)
  }

  /** FIRSTCODE of section B.3 step 3(a). */
  function FirstCode(lines: seq<Line>, len: nat): (r: nat)
  {
    if len == 0 then 0 else (FirstCode(lines, len - 1) + CodeCount(lines, len - 1)) * 2
  }

  /** How many earlier lines share line i's PREFLEN. */
  function Rank(lines: seq<Line>, i: nat): nat
    requires i < |lines|
  {
    LenCount(lines[..i], lines[i].prefLen)
  }

  /** The code B.3 step 3(b) gives line i. */
  function Code(lines: seq<Line>, i: nat): (r: nat)
    requires i < |lines|
  {
    FirstCode(lines, lines[i].prefLen) + Rank(lines, i)
  }

  ghost predicate PrefixesFit(lines: seq<Line>, tableBits: nat)
  {
    forall i :: 0 <= i < |lines| ==> lines[i].prefLen <= tableBits
  }

  /** Line i owns index x of a 2^tableBits lookup table: its code is the
      top PREFLEN bits of x. */
  predicate Covers(lines: seq<Line>, tableBits: nat, i: nat, x: nat)
    requires i < |lines| && lines[i].prefLen <= tableBits
  {
    var w := Pow2(tableBits - lines[i].prefLen);
    lines[i].prefLen >= 1 && Code(lines, i) * w <= x < (Code(lines, i) + 1) * w
  }

  /** The Kraft sum of the coded lines, scaled by 2^tableBits. */
  function KraftSum(lines: seq<Line>, tableBits: nat): nat
    requires PrefixesFit(lines, tableBits)
  {
    if |lines| == 0 then 0
    else
      var last := lines[|lines| - 1];
      KraftSum(lines[..|lines| - 1], tableBits) + (if last.prefLen >= 1 then Pow2(tableBits - last.prefLen) else 0)
  }

  /** The same sum, gathered by length. */
  function LengthKraft(lines: seq<Line>, tableBits: nat, len: nat): nat
    requires len <= tableBits
  {
    if len == 0 then 0
    else LengthKraft(lines, tableBits, len - 1) + CodeCount(lines, len) * Pow2(tableBits - len)
  }

  /** One past the last table index owned by a line of length len. */
  function End(lines: seq<Line>, tableBits: nat, len: nat): nat
    requires len <= tableBits
  {
    (FirstCode(lines, len) + CodeCount(lines, len)) * Pow2(tableBits - len)
  }

  // ---------------------------------------------------------------------
  // Counting lemmas

  lemma LenCountStep(lines: seq<Line>, a: nat, len: nat)
    requires a < |lines|
    ensures LenCount(lines[..a + 1], len) == LenCount(lines[..a], len) + (if lines[a].prefLen == len then 1 else 0)
  {
    assert lines[..a + 1][..a] == lines[..a];
  }

  lemma {:induction false} LenCountMono(lines: seq<Line>, a: nat, b: nat, len: nat)
    requires a <= b <= |lines|
    ensures LenCount(lines[..a], len) <= LenCount(lines[..b], len)
    decreases b - a
  {
    if a < b {
      LenCountStep(lines, a, len);
      LenCountMono(lines, a + 1, b, len);
    }
  }

  lemma RankBelowCount(lines: seq<Line>, i: nat)
    requires i < |lines|
    ensures Rank(lines, i) < LenCount(lines, lines[i].prefLen)
  {
    LenCountStep(lines, i, lines[i].prefLen);
    LenCountMono(lines, i + 1, |lines|, lines[i].prefLen);
    assert lines[..|lines|] == lines;
  }

  /** Lines of equal length are numbered in list order. */
  lemma RankIncreasing(lines: seq<Line>, i: nat, k: nat)
    requires i < k < |lines| && lines[i].prefLen == lines[k].prefLen
    ensures Rank(lines, i) < Rank(lines, k)
  {
    LenCountStep(lines, i, lines[i].prefLen);
    LenCountMono(lines, i + 1, k, lines[i].prefLen);
  }

  /** Every rank below the count of a length is taken by some line. */
  lemma {:induction false} RankExists(lines: seq<Line>, len: nat, r: nat)
    requires r < LenCount(lines, len)
    ensures exists i :: 0 <= i < |lines| && lines[i].prefLen == len && Rank(lines, i) == r
    decreases |lines|
  {
    var n := |lines|;
    var init := lines[..n - 1];
    if r < LenCount(init, len) {
      RankExists(init, len, r);
      var i :| 0 <= i < |init| && init[i].prefLen == len && Rank(init, i) == r;
      assert init[..i] == lines[..i];
      assert lines[i].prefLen == len && Rank(lines, i) == r;
    } else {
      assert lines[n - 1].prefLen == len && Rank(lines, n - 1) == r;
    }
  }

  // ---------------------------------------------------------------------
  // The tiling of the lookup table

  lemma FirstCodeIsPreviousEnd(lines: seq<Line>, tableBits: nat, len: nat)
    requires 1 <= len <= tableBits
    ensures FirstCode(lines, len) * Pow2(tableBits - len) == End(lines, tableBits, len - 1)
  {
    var s := FirstCode(lines, len - 1) + CodeCount(lines, len - 1);
    var w := Pow2(tableBits - len);
    assert Pow2(tableBits - (len - 1)) == 2 * w;
    assert FirstCode(lines, len) == s * 2;
    MulDouble(s, w);
  }

  lemma EndStep(lines: seq<Line>, tableBits: nat, len: nat)
    requires 1 <= len <= tableBits
    ensures End(lines, tableBits, len)
         == End(lines, tableBits, len - 1) + CodeCount(lines, len) * Pow2(tableBits - len)
  {
    FirstCodeIsPreviousEnd(lines, tableBits, len);
    var w := Pow2(tableBits - len);
    Distrib(FirstCode(lines, len), 1, CodeCount(lines, len), w);
  }

  lemma {:induction false} EndIsLengthKraft(lines: seq<Line>, tableBits: nat, len: nat)
    requires len <= tableBits
    ensures End(lines, tableBits, len) == LengthKraft(lines, tableBits, len)
    decreases len
  {
    if len > 0 {
      EndStep(lines, tableBits, len);
      EndIsLengthKraft(lines, tableBits, len - 1);
    }
  }

  lemma EndMono(lines: seq<Line>, tableBits: nat, a: nat, b: nat)
    requires a <= b <= tableBits
    ensures End(lines, tableBits, a) <= End(lines, tableBits, b)
  {
    EndIsLengthKraft(lines, tableBits, a);
    EndIsLengthKraft(lines, tableBits, b);
    LengthKraftMono(lines, tableBits, a, b);
  }

  lemma {:induction false} LengthKraftMono(lines: seq<Line>, tableBits: nat, a: nat, b: nat)
    requires a <= b <= tableBits
    ensures LengthKraft(lines, tableBits, a) <= LengthKraft(lines, tableBits, b)
    decreases b - a
  {
    if a < b {
      LengthKraftMono(lines, tableBits, a, b - 1);
    }
  }

  /** Adding a line to the list adds its weight to the gathered sum. */
  lemma {:induction false} LengthKraftSnoc(lines: seq<Line>, tableBits: nat, len: nat)
    requires |lines| > 0 && len <= tableBits
    ensures var last := lines[|lines| - 1];
      LengthKraft(lines, tableBits, len)
        == LengthKraft(lines[..|lines| - 1], tableBits, len)
         + (if 1 <= last.prefLen <= len then Pow2(tableBits - last.prefLen) else 0)
    decreases len
  {
    if len > 0 {
      LengthKraftSnoc(lines, tableBits, len - 1);
      var init := lines[..|lines| - 1];
      var w := Pow2(tableBits - len);
      var d := if lines[|lines| - 1].prefLen == len then 1 else 0;
      assert CodeCount(lines, len) == CodeCount(init, len) + d;
      Distrib(CodeCount(init, len), 1, d, w);
    }
  }

  lemma {:induction false} LengthKraftOfEmpty(lines: seq<Line>, tableBits: nat, len: nat)
    requires |lines| == 0 && len <= tableBits
    ensures LengthKraft(lines, tableBits, len) == 0
    decreases len
  {
    if len > 0 {
      LengthKraftOfEmpty(lines, tableBits, len - 1);
    }
  }

  lemma {:induction false} KraftByLength(lines: seq<Line>, tableBits: nat)
    requires PrefixesFit(lines, tableBits)
    ensures KraftSum(lines, tableBits) == LengthKraft(lines, tableBits, tableBits)
    decreases |lines|
  {
    if |lines| > 0 {
      var init := lines[..|lines| - 1];
      assert PrefixesFit(init, tableBits) by {
        forall i | 0 <= i < |init| ensures init[i].prefLen <= tableBits {
          assert init[i] == lines[i];
        }
      }
      KraftByLength(init, tableBits);
      LengthKraftSnoc(lines, tableBits, tableBits);
    } else {
      LengthKraftOfEmpty(lines, tableBits, tableBits);
    }
  }

  /** The Kraft sum is where the last coded range ends. */
  lemma KraftIsEnd(lines: seq<Line>, tableBits: nat)
    requires PrefixesFit(lines, tableBits)
    ensures KraftSum(lines, tableBits) == End(lines, tableBits, tableBits)
  {
    KraftByLength(lines, tableBits);
    EndIsLengthKraft(lines, tableBits, tableBits);
  }

  /** Line i's range lies within the block of its length. */
  lemma RangeWithinLength(lines: seq<Line>, tableBits: nat, i: nat)
    requires i < |lines| && 1 <= lines[i].prefLen <= tableBits
    ensures var p := lines[i].prefLen; var w := Pow2(tableBits - p);
      End(lines, tableBits, p - 1) <= Code(lines, i) * w
      && (Code(lines, i) + 1) * w <= End(lines, tableBits, p)
  {
    var p := lines[i].prefLen;
    var w := Pow2(tableBits - p);
    FirstCodeIsPreviousEnd(lines, tableBits, p);
    RankBelowCount(lines, i);
    MulMonotone(FirstCode(lines, p), Code(lines, i), w);
    MulMonotone(Code(lines, i) + 1, FirstCode(lines, p) + CodeCount(lines, p), w);
  }

  lemma CoversByQuotient(lines: seq<Line>, tableBits: nat, i: nat, x: nat)
    requires i < |lines| && lines[i].prefLen <= tableBits
    ensures Covers(lines, tableBits, i, x)
        <==> lines[i].prefLen >= 1 && x / Pow2(tableBits - lines[i].prefLen) == Code(lines, i)
  {
    var w := Pow2(tableBits - lines[i].prefLen);
    QuotientRange(x, w, Code(lines, i));
  }

  /** Two distinct lines never own the same index. */
  lemma RangesDisjoint(lines: seq<Line>, tableBits: nat, i: nat, k: nat, x: nat)
    requires i < |lines| && k < |lines| && i != k
    requires lines[i].prefLen <= tableBits && lines[k].prefLen <= tableBits
    requires Covers(lines, tableBits, i, x)
    ensures !Covers(lines, tableBits, k, x)
  {
    var p, q := lines[i].prefLen, lines[k].prefLen;
    if Covers(lines, tableBits, k, x) {
      if p == q {
        CoversByQuotient(lines, tableBits, i, x);
        CoversByQuotient(lines, tableBits, k, x);
        if i < k { RankIncreasing(lines, i, k); } else { RankIncreasing(lines, k, i); }
        assert false;
      } else if p < q {
        RangeWithinLength(lines, tableBits, i);
        RangeWithinLength(lines, tableBits, k);
        EndMono(lines, tableBits, p, q - 1);
        assert false;
      } else {
        RangeWithinLength(lines, tableBits, i);
        RangeWithinLength(lines, tableBits, k);
        EndMono(lines, tableBits, q, p - 1);
        assert false;
      }
    }
  }

  /** Every coded range ends at or before the Kraft sum. */
  lemma RangeBelowKraft(lines: seq<Line>, tableBits: nat, i: nat)
    requires PrefixesFit(lines, tableBits) && i < |lines| && lines[i].prefLen >= 1
    ensures (Code(lines, i) + 1) * Pow2(tableBits - lines[i].prefLen) <= KraftSum(lines, tableBits)
  {
    RangeWithinLength(lines, tableBits, i);
    EndMono(lines, tableBits, lines[i].prefLen, tableBits);
    KraftIsEnd(lines, tableBits);
  }

  /** Every index below the Kraft sum is owned by some line. */
  lemma {:induction false} CoveredBelowEnd(lines: seq<Line>, tableBits: nat, len: nat, x: nat)
    requires PrefixesFit(lines, tableBits) && len <= tableBits
    requires x < End(lines, tableBits, len)
    ensures exists i :: 0 <= i < |lines| && Covers(lines, tableBits, i, x)
    decreases len
  {
    assert len > 0;
    EndStep(lines, tableBits, len);
    var start := End(lines, tableBits, len - 1);
    if x < start {
      CoveredBelowEnd(lines, tableBits, len - 1, x);
    } else {
      var w := Pow2(tableBits - len);
      var r := Slot(x, start, w, CodeCount(lines, len));
      RankExists(lines, len, r);
      var i :| 0 <= i < |lines| && lines[i].prefLen == len && Rank(lines, i) == r;
      FirstCodeIsPreviousEnd(lines, tableBits, len);
      SlotBounds(FirstCode(lines, len), r, w, start);
      assert Covers(lines, tableBits, i, x);
    }
  }

  lemma CoveredBelowKraft(lines: seq<Line>, tableBits: nat, x: nat)
    requires PrefixesFit(lines, tableBits) && x < KraftSum(lines, tableBits)
    ensures exists i :: 0 <= i < |lines| && Covers(lines, tableBits, i, x)
  {
    KraftIsEnd(lines, tableBits);
    CoveredBelowEnd(lines, tableBits, tableBits, x);
  }

  /** No line owns an index at or past the Kraft sum. */
  lemma UncoveredFromKraft(lines: seq<Line>, tableBits: nat, i: nat, x: nat)
    requires PrefixesFit(lines, tableBits) && i < |lines| && KraftSum(lines, tableBits) <= x
    ensures !Covers(lines, tableBits, i, x)
  {
    if lines[i].prefLen >= 1 {
      RangeBelowKraft(lines, tableBits, i);
    }
  }
}
