/** Tables B.1, B.2 and B.4 of ITU-T T.88 as line lists for the builder,
    and the decode of the four-byte stream E9 CB F4 00 with them that the
    test driver of jbig2_huffman.c performs: B.4, B.2, B.2, B.1 from a fresh
    cursor read 8, 5, out-of-band, 8.

    Each table lists its lines with the upper-range line last (before the
    OOB line under HTOOB) and a lower-range line just before it, which is
    where the builder puts ISLOW. B.1, B.2 and B.4 have no lower range, so
    that line is an uncoded placeholder: PREFLEN 0, RANGELEN 32, RANGELOW -1. */
module StandardTables {
  import opened Bits
  import opened Stream
  import opened Wrappers
  import opened HuffmanCodes
  import opened HuffmanTable
  import opened HuffmanDecode
  import opened LineDecoding

  /** Table B.1: 0..15, 16..271, 272..65807 and the upper range from 65808. */
  const TableB1: Params := Params(false,
    [Line(1, 4, 0), Line(2, 8, 16), Line(3, 16, 272), Line(0, 32, -1), Line(3, 32, 65808)])

  /** Table B.2: 0, 1, 2, 3..10, 11..74, the upper range from 75, and OOB. */
  const TableB2: Params := Params(true,
    [Line(1, 0, 0), Line(2, 0, 1), Line(3, 0, 2), Line(4, 3, 3), Line(5, 6, 11), Line(0, 32, -1),
     Line(6, 32, 75), Line(6, 0, 0)])

  /** Table B.4: 1, 2, 3, 4..11, 12..75 and the upper range from 76. */
  const TableB4: Params := Params(false,
    [Line(1, 0, 1), Line(2, 0, 2), Line(3, 0, 3), Line(4, 3, 4), Line(5, 6, 12), Line(0, 32, -1),
     Line(5, 32, 76)])

  /** The three tables are complete codes the builder accepts, with every
      range within a word, and their lookup tables have 2^5, 2^7 and 2^7
      entries. */
  lemma StandardTablesComplete()
    ensures Complete(TableB1) && RangesFitWord(TableB1.lines) && LogTableSize(TableB1.lines) == 5
    ensures Complete(TableB2) && RangesFitWord(TableB2.lines) && LogTableSize(TableB2.lines) == 7
    ensures Complete(TableB4) && RangesFitWord(TableB4.lines) && LogTableSize(TableB4.lines) == 7
  {
    CompleteB1();
    CompleteB2();
    CompleteB4();
  }

  lemma CompleteB1()
    ensures Complete(TableB1) && RangesFitWord(TableB1.lines) && LogTableSize(TableB1.lines) == 5
  {
    var l := TableB1.lines;
    assert Pow2(2) == 4 && Pow2(3) == 8 && Pow2(4) == 16 && Pow2(5) == 32;
    assert SizeTo(l, 3) == 5 && SizeTo(l, 5) == 5;
    assert KraftTo(l, 5, 3) == 28 && KraftTo(l, 5, 5) == 32;
    TableSize(l, 5);
  }

  lemma CompleteB2()
    ensures Complete(TableB2) && RangesFitWord(TableB2.lines) && LogTableSize(TableB2.lines) == 7
  {
    SumsOfB2();
    TableSize(TableB2.lines, 7);
  }

  lemma SumsOfB2()
    ensures PrefixesFit(TableB2.lines, 7)
    ensures SizeTo(TableB2.lines, 8) == 7 && KraftTo(TableB2.lines, 7, 8) == 128
  {
    var l := TableB2.lines;
    assert Pow2(1) == 2 && Pow2(2) == 4 && Pow2(3) == 8 && Pow2(4) == 16 && Pow2(5) == 32;
    assert Pow2(6) == 64 && Pow2(7) == 128;
    assert SizeTo(l, 4) == 7;
    assert KraftTo(l, 7, 4) == 120;
  }

  lemma CompleteB4()
    ensures Complete(TableB4) && RangesFitWord(TableB4.lines) && LogTableSize(TableB4.lines) == 7
  {
    SumsOfB4();
    TableSize(TableB4.lines, 7);
  }

  lemma SumsOfB4()
    ensures PrefixesFit(TableB4.lines, 7)
    ensures SizeTo(TableB4.lines, 7) == 7 && KraftTo(TableB4.lines, 7, 7) == 128
  {
    var l := TableB4.lines;
    assert Pow2(2) == 4 && Pow2(3) == 8 && Pow2(4) == 16 && Pow2(5) == 32;
    assert Pow2(6) == 64 && Pow2(7) == 128;
    assert SizeTo(l, 4) == 7;
    assert KraftTo(l, 7, 4) == 120;
  }

  lemma TableSize(lines: seq<Line>, tableBits: nat)
    requires PrefixesBounded(lines) && PrefixesFit(lines, tableBits)
    requires SizeTo(lines, |lines|) == tableBits && tableBits <= LogTableSizeMax
    requires KraftTo(lines, tableBits, |lines|) == Pow2(tableBits)
    ensures LogTableSize(lines) == tableBits && TableKraft(lines) == Pow2(tableBits)
  {
    assert lines[..|lines|] == lines;
    SizeToIsLogTableSize(lines, |lines|);
    KraftToIsKraftSum(lines, tableBits, |lines|);
  }

  /** The stream of the test driver: E9 CB F4 00. */
  predicate IsTestStream(data: seq<byte>)
  {
    data == [0xE9, 0xCB, 0xF4, 0x00]
  }

  /** `test_get_word` on its local array `stream`: 0 once offset + 3
      exceeds the array's length, otherwise the four bytes at offset, most
      significant first. The guard is one short: at offset |stream| - 3 it
      lets through a read one past the array, which has no defined value
      (None). */
  function TestGetWord(stream: seq<byte>, offset: nat): (r: Option<u32>)
  {
    if offset + 3 > |stream| then Some(0)
    else if offset + 3 >= |stream| then None
    else Some(Word(stream, offset))
  }

  /** At every word-aligned offset, the only ones the decoder asks for,
      the zero-padded word source on the test stream is `test_get_word`. */
  lemma TestWordAligned(data: seq<byte>, offset: nat)
    requires IsTestStream(data) && offset % 4 == 0
    ensures TestGetWord(data, offset) == Some(Word(data, offset))
  {
    if offset > 0 {
      assert ByteAt(data, offset) == 0 && ByteAt(data, offset + 1) == 0;
      assert ByteAt(data, offset + 2) == 0 && ByteAt(data, offset + 3) == 0;
    }
  }

  /** Off the word grid the two differ: on the test stream
      `test_get_word` reads past the array at offset 1 and gives 0 at
      offset 2, where the stream still holds F4 00. */
  lemma TestWordUnaligned(data: seq<byte>)
    requires IsTestStream(data)
    ensures TestGetWord(data, 1) == None
    ensures TestGetWord(data, 2) == Some(0) && Word(data, 2) == 0xF400_0000
  {
    assert ByteAt(data, 2) == 0xF4 && ByteAt(data, 3) == 0 && ByteAt(data, 4) == 0;
  }

  /** B.4 at bit 0: the code 1110 of the line 4..11, then range bits 100. */
  lemma FirstRead(data: seq<byte>)
    requires IsTestStream(data)
    ensures LineDecode(TableB4, data, 0, Some(false)) == Some(Outcome(8, Some(false), 7))
  {
    FirstBits(data);
    CodesOfB4();
    CompleteB4();
    LineDecodeOf(TableB4, data, 0, Some(false), 3);
  }

  /** B.2 at bit 7: the code 1110 of the line 3..10, then range bits 010. */
  lemma SecondRead(data: seq<byte>)
    requires IsTestStream(data)
    ensures LineDecode(TableB2, data, 7, Some(false)) == Some(Outcome(5, Some(false), 14))
  {
    SecondBits(data);
    CodesOfB2();
    CompleteB2();
    LineDecodeOf(TableB2, data, 7, Some(false), 3);
  }

  /** B.2 at bit 14: the code 111111 of the OOB line. */
  lemma ThirdRead(data: seq<byte>)
    requires IsTestStream(data)
    ensures LineDecode(TableB2, data, 14, Some(false)) == Some(Outcome(0, Some(true), 20))
  {
    ThirdBits(data);
    CodesOfB2();
    CompleteB2();
    LineDecodeOf(TableB2, data, 14, Some(false), 7);
  }

  /** B.1 at bit 20: the code 0 of the line 0..15, then range bits 1000. */
  lemma FourthRead(data: seq<byte>)
    requires IsTestStream(data)
    ensures LineDecode(TableB1, data, 20, Some(false)) == Some(Outcome(8, Some(false), 25))
  {
    FourthBits(data);
    CodesOfB1();
    CompleteB1();
    LineDecodeOf(TableB1, data, 20, Some(false), 0);
  }

  // The bit fields of the stream each read uses: E9 CB F4 00 is
  // 1110 100|1 110|0 10|11 1111 |0 100|0 0000 0000.

  lemma FirstBits(data: seq<byte>)
    requires IsTestStream(data)
    ensures Value(data, 0, 4) == 14 && Value(data, 4, 3) == 4
  {
    assert ByteAt(data, 0) == 0xE9;
    assert Pow2(1) == 2 && Pow2(3) == 8 && Pow2(4) == 16;
    ValueInByte(data, 0, 0, 4, 0);
    ValueInByte(data, 0, 4, 3, 4);
  }

  lemma SecondBits(data: seq<byte>)
    requires IsTestStream(data)
    ensures Value(data, 7, 4) == 14 && Value(data, 11, 3) == 2
  {
    assert ByteAt(data, 0) == 0xE9 && ByteAt(data, 1) == 0xCB;
    assert Pow2(0) == 1 && Pow2(1) == 2 && Pow2(2) == 4 && Pow2(3) == 8 && Pow2(5) == 32;
    ValueSplit(data, 7, 1, 3, 8, 4);
    ValueInByte(data, 0, 7, 1, 7);
    ValueInByte(data, 1, 0, 3, 8);
    ValueInByte(data, 1, 3, 3, 11);
  }

  lemma ThirdBits(data: seq<byte>)
    requires IsTestStream(data)
    ensures Value(data, 14, 6) == 63 && Value(data, 20, 0) == 0
  {
    assert ByteAt(data, 1) == 0xCB && ByteAt(data, 2) == 0xF4;
    assert Pow2(0) == 1 && Pow2(2) == 4 && Pow2(4) == 16;
    ValueSplit(data, 14, 2, 4, 16, 6);
    ValueInByte(data, 1, 6, 2, 14);
    ValueInByte(data, 2, 0, 4, 16);
  }

  lemma FourthBits(data: seq<byte>)
    requires IsTestStream(data)
    ensures Value(data, 20, 1) == 0 && Value(data, 21, 4) == 8
  {
    assert ByteAt(data, 2) == 0xF4 && ByteAt(data, 3) == 0x00;
    assert Pow2(0) == 1 && Pow2(1) == 2 && Pow2(3) == 8 && Pow2(7) == 128;
    ValueInByte(data, 2, 4, 1, 20);
    ValueSplit(data, 21, 3, 1, 24, 4);
    ValueInByte(data, 2, 5, 3, 21);
    ValueInByte(data, 3, 0, 1, 24);
  }

  // The codes the reads match: FIRSTCODE is 0, 2, 6, 14, 30, 62 for
  // lengths 1 to 6 in each of the three tables, one line per length
  // below 5.

  lemma CodesOfB1()
    ensures Code(TableB1.lines, 0) == 0
  {
    CodeByPosition(TableB1.lines, 0);
  }

  lemma CodesOfB2()
    ensures Code(TableB2.lines, 3) == 14 && Code(TableB2.lines, 7) == 63
  {
    var l := TableB2.lines;
    FirstCodesOfB2();
    CodeByPosition(l, 3);
    CodeByPosition(l, 7);
  }

  lemma FirstCodesOfB2()
    ensures FirstCodeTo(TableB2.lines, 4) == 14 && FirstCodeTo(TableB2.lines, 6) == 62
  {
    var l := TableB2.lines;
    assert CountTo(l, 1, 8) == 1 && CountTo(l, 2, 8) == 1 && CountTo(l, 3, 8) == 1;
    assert CountTo(l, 4, 8) == 1 && CountTo(l, 5, 8) == 1;
    assert FirstCodeTo(l, 1) == 0;
    assert FirstCodeTo(l, 2) == 2;
    assert FirstCodeTo(l, 3) == 6;
    assert FirstCodeTo(l, 4) == 14;
    assert FirstCodeTo(l, 5) == 30;
  }

  lemma CodesOfB4()
    ensures Code(TableB4.lines, 3) == 14
  {
    var l := TableB4.lines;
    CodeByPosition(l, 3);
    assert CountTo(l, 1, 7) == 1 && CountTo(l, 2, 7) == 1 && CountTo(l, 3, 7) == 1;
    assert FirstCodeTo(l, 1) == 0;
    assert FirstCodeTo(l, 2) == 2;
    assert FirstCodeTo(l, 3) == 6;
  }

  /** The test driver: build B.1, B.2 and B.4, start a cursor on the
      stream, and decode with B.4, B.2, B.2 and B.1 in turn, passing an oob
      pointer each time. */
  method TestDriver(data: seq<byte>) returns (first: Decoded, second: Decoded, third: Decoded, fourth: Decoded)
    requires IsTestStream(data)
    ensures first.value == 8 && first.oob == Some(false)
    ensures second.value == 5 && second.oob == Some(false)
    ensures third.oob == Some(true)
    ensures fourth.value == 8 && fourth.oob == Some(false)
    ensures Position(fourth.cursor) == 25
  {
    StandardTablesComplete();
    var b1 := BuildTable(TableB1);
    var b2 := BuildTable(TableB2);
    var b4 := BuildTable(TableB4);
    var c := New(data);
    FirstRead(data);
    TableReadsLine(TableB4, data, 0, Some(false));
    first := Get(data, c, b4, Some(false));
    SecondRead(data);
    TableReadsLine(TableB2, data, 7, Some(false));
    second := Get(data, first.cursor, b2, Some(false));
    ThirdRead(data);
    TableReadsLine(TableB2, data, 14, Some(false));
    third := Get(data, second.cursor, b2, Some(false));
    FourthRead(data);
    TableReadsLine(TableB1, data, 20, Some(false));
    fourth := Get(data, third.cursor, b1, Some(false));
  }

  // ---------------------------------------------------------------------
  // The same quantities by position in the line list, which the verifier
  // can compute on a literal list

  /** LENCOUNT[len] over the first k lines, for literal evaluation. */
  function CountTo(lines: seq<Line>, len: nat, k: nat): nat
    requires k <= |lines|
  {
    if k == 0 then 0 else CountTo(lines, len, k - 1) + (if lines[k - 1].prefLen == len then 1 else 0)
  }

  lemma {:induction false} CountToIsLenCount(lines: seq<Line>, len: nat, k: nat)
    requires k <= |lines|
    ensures CountTo(lines, len, k) == LenCount(lines[..k], len)
  {
    if k > 0 {
      CountToIsLenCount(lines, len, k - 1);
      assert lines[..k][..k - 1] == lines[..k - 1];
    }
  }

  /** log_table_size over the first k lines, for literal evaluation. */
  function SizeTo(lines: seq<Line>, k: nat): nat
    requires k <= |lines|
  {
    if k == 0 then 0
    else
      var r := SizeTo(lines, k - 1);
      var c := SizeContribution(lines[k - 1]);
      if c <= LogTableSizeMax && r < c then c else r
  }

  lemma {:induction false} SizeToIsLogTableSize(lines: seq<Line>, k: nat)
    requires k <= |lines|
    ensures SizeTo(lines, k) == LogTableSize(lines[..k])
  {
    if k > 0 {
      SizeToIsLogTableSize(lines, k - 1);
      assert lines[..k][..k - 1] == lines[..k - 1];
    }
  }

  /** The Kraft sum of the first k lines, for literal evaluation. */
  function KraftTo(lines: seq<Line>, tableBits: nat, k: nat): nat
    requires k <= |lines| && PrefixesFit(lines, tableBits)
  {
    if k == 0 then 0
    else
      var last := lines[k - 1];
      KraftTo(lines, tableBits, k - 1) + (if last.prefLen >= 1 then Pow2(tableBits - last.prefLen) else 0)
  }

  lemma {:induction false} KraftToIsKraftSum(lines: seq<Line>, tableBits: nat, k: nat)
    requires k <= |lines| && PrefixesFit(lines, tableBits)
    ensures PrefixesFit(lines[..k], tableBits)
    ensures KraftTo(lines, tableBits, k) == KraftSum(lines[..k], tableBits)
  {
    if k > 0 {
      KraftToIsKraftSum(lines, tableBits, k - 1);
      assert lines[..k][..k - 1] == lines[..k - 1];
    }
  }

  /** FIRSTCODE of length len from CountTo, for literal evaluation. */
  function FirstCodeTo(lines: seq<Line>, len: nat): nat
  {
    if len == 0 then 0
    else (FirstCodeTo(lines, len - 1) + (if len - 1 == 0 then 0 else CountTo(lines, len - 1, |lines|))) * 2
  }

  lemma {:induction false} FirstCodeToIsFirstCode(lines: seq<Line>, len: nat)
    ensures FirstCodeTo(lines, len) == FirstCode(lines, len)
  {
    if len > 0 {
      FirstCodeToIsFirstCode(lines, len - 1);
      CountToIsLenCount(lines, len - 1, |lines|);
      assert lines[..|lines|] == lines;
    }
  }

  /** Line i's code, by position. */
  lemma CodeByPosition(lines: seq<Line>, i: nat)
    requires i < |lines|
    ensures Code(lines, i) == FirstCodeTo(lines, lines[i].prefLen) + CountTo(lines, lines[i].prefLen, i)
  {
    FirstCodeToIsFirstCode(lines, lines[i].prefLen);
    CountToIsLenCount(lines, lines[i].prefLen, i);
  }
}
