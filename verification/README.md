# JBIG2 Huffman tables and PCL cursor rules in Dafny

This project models two small pieces of a page-description interpreter.

**JBIG2 Huffman decoding** (`jbig2_huffman.c`). This is the table-driven
decoder for the canonical Huffman codes of Annex B of ITU-T T.88. It has
three parts:

- `jbig2_build_huffman_table` turns a list of table lines into a lookup
  table of 2^log_table_size entries. Each line is PREFLEN, RANGELEN and
  RANGELOW; the list also carries HTOOB. The builder assigns canonical
  codes as in section B.3 of T.88.
- `jbig2_huffman_new` opens a two-word cursor on a word stream.
- `jbig2_huffman_get` indexes the table with the top bits of the current
  word. It follows extension entries, adds or subtracts the HTOFFSET range
  bits, reports out-of-band (OOB) and refills the cursor.

Each part is proved against an independent statement:

- The builder's result equals a declarative table (`SpecTable`). In it,
  entry x belongs to the line whose code is the top PREFLEN bits of x.
- The decoder's outcome equals `Reading`, the value that the stream bits at
  the cursor position denote.
- Wherever some line's code matches the stream, building the table and
  reading once gives exactly what matching the lines' codes gives
  (`LineDecode`). A line matches exactly when the lookup index lies below
  the Kraft sum, and a complete code matches everywhere.
- The cursor invariant of the source (lines 29-32) holds after `new` and
  after every `get`.
- The test driver's stream E9 CB F4 00 decodes to 8, 5, OOB, 8. It reads
  with Tables B.4, B.2, B.2 and B.1 from a fresh cursor.

**PCL5 drawing utilities** (`pcl/pcdraw.c`). These are the integer rules
for moving the cursor, which clamps to the margins or to the logical page,
for setting the HMI (horizontal motion index, the width of one column),
which rounds to the unit of measure, and for the default margins. They also
choose a built-in fill pattern for a shading percentage or a cross-hatch
id.

Modules:

| module | file | contents |
|---|---|---|
| `Bits` | bits.dfy | powers of two, shifts as multiplication and division, bitwise or on naturals |
| `Stream` | stream.dfy | the zero-padded byte stream, its big-endian bit fields, the zero-padded word source (equal to `test_get_word` at word-aligned offsets) |
| `HuffmanCodes` | huffman_codes.dfy | table lines, log_table_size, LENCOUNT, FIRSTCODE, canonical codes, Kraft sums |
| `HuffmanTable` | huffman_table.dfy | entries, the declarative table, the builder |
| `HuffmanDecode` | huffman_decode.dfy | the cursor, its invariant, `new`, `get` |
| `LineDecoding` | huffman_lines.dfy | decoding by matching line codes, and its agreement with build-then-get |
| `RefillShift` | refill_shift.dfy | the refill shift as written (see Findings) |
| `StandardTables` | standard_tables.dfy | Tables B.1, B.2, B.4 and the test driver |
| `PclDraw` | pcdraw.dfy | cursor, HMI, default margins, pattern selection |

Two details follow the code closely:

- The low-range line is the line `n_lines - (HTOOB ? 3 : 2)`, the one just
  before the upper-range line. It is not the last line of a table without
  OOB.
- `*oob` is written only when the caller passes a pointer. The model makes
  that pointer an `Option` slot.

## Model

| member | source | states |
|---|---|---|
| HuffmanCodes.SizeContribution | jbig2_huffman.c:167-169 | what one line offers log_table_size: PREFLEN+RANGELEN, or PREFLEN alone when the sum exceeds LOG_TABLE_SIZE_MAX |
| HuffmanCodes.LogTableSize | jbig2_huffman.c:154-172 | log_table_size: the running maximum of PREFLEN+RANGELEN, or PREFLEN when the sum exceeds LOG_TABLE_SIZE_MAX, over the lines; never above LOG_TABLE_SIZE_MAX |
| HuffmanCodes.LogTableSizeIsMax | jbig2_huffman.c:154-172 | log_table_size is the largest PREFLEN+RANGELEN of any line, or its PREFLEN when the sum exceeds LOG_TABLE_SIZE_MAX; it is 0 or reached by some line |
| HuffmanCodes.PrefixFitsTable | jbig2_huffman.c:167-171 | every PREFLEN of at most 8 fits the table width, so each code's shift is non-negative |
| HuffmanCodes.LenCount | jbig2_huffman.c:159-165 | LENCOUNT[len]: the number of lines whose PREFLEN is len, at most the number of lines |
| HuffmanCodes.CodeCount | jbig2_huffman.c:178 | LENCOUNT after `LENCOUNT[0] = 0`: uncoded lines take no codes |
| HuffmanCodes.FirstCode | jbig2_huffman.c:180-185 | FIRSTCODE of length L is (FIRSTCODE of L-1 plus LENCOUNT[L-1]) doubled, with LENCOUNT[0] taken as 0 |
| HuffmanCodes.Code | jbig2_huffman.c:185-230 | the CURCODE a line gets: FIRSTCODE of its PREFLEN plus the number of earlier lines with the same PREFLEN |
| HuffmanCodes.RankBelowCount | jbig2_huffman.c:185-230 | a line's code stays among the LENCOUNT codes of its length |
| HuffmanCodes.RankIncreasing | jbig2_huffman.c:188-230 | lines of equal PREFLEN get increasing codes in list order |
| HuffmanCodes.FirstCodeIsPreviousEnd | jbig2_huffman.c:185 | the first code of length L, scaled to the table, starts where the ranges of length L-1 end |
| HuffmanCodes.EndIsLengthKraft | jbig2_huffman.c:180-233 | the entries filled through length L number the Kraft sum of the lines no longer than L |
| HuffmanCodes.KraftIsEnd | jbig2_huffman.c:180-233 | all lengths together fill exactly the Kraft sum of the lines |
| HuffmanCodes.Covers | jbig2_huffman.c:194-195 | a coded line's range of table indices, [CURCODE << shift, (CURCODE+1) << shift) with shift = log_table_size - PREFLEN |
| HuffmanCodes.RangeWithinLength | jbig2_huffman.c:194-195 | start_j and end_j of a line lie inside the block of its length |
| HuffmanCodes.CoversByQuotient | jbig2_huffman.c:194-195 | index x lies in [CURCODE << shift, (CURCODE+1) << shift) exactly when x >> shift is the line's code |
| HuffmanCodes.RangesDisjoint | jbig2_huffman.c:194-228 | no entry lies in the ranges of two lines: the code is prefix-free |
| HuffmanCodes.CoveredBelowKraft | jbig2_huffman.c:180-233 | every index below the Kraft sum lies in some line's range |
| HuffmanCodes.UncoveredFromKraft | jbig2_huffman.c:180-233 | no index at or above the Kraft sum lies in any line's range |
| HuffmanTable.IsOobLine | jbig2_huffman.c:199-200 | ISOOB is set on the last line, and only under HTOOB |
| HuffmanTable.IsLowLine | jbig2_huffman.c:201-202 | ISLOW is set on line n_lines-3 under HTOOB and n_lines-2 without |
| HuffmanTable.Folded | jbig2_huffman.c:203 | a line's range bits go into the table exactly when PREFLEN+RANGELEN is at most LOG_TABLE_SIZE_MAX |
| HuffmanTable.WrittenEntry | jbig2_huffman.c:203-228 | the entry a line writes at index j: its flags; its own PREFLEN, RANGELEN and RANGELOW when PREFLEN+RANGELEN exceeds LOG_TABLE_SIZE_MAX; otherwise PREFLEN+RANGELEN, RANGELEN 0 and RANGELOW moved by HTOFFSET = (j >> (shift - RANGELEN)) & ((1 << RANGELEN) - 1), downwards under ISLOW |
| HuffmanTable.HoldsLine | jbig2_huffman.c:203-228 | an entry is exactly the one a line writes at its index, and a folded line's PREFLEN+RANGELEN fits the table width |
| HuffmanTable.EntryFor | jbig2_huffman.c:197-228 | the entry the two inner loops write for line CURTEMP at index j: WrittenEntry with the ISOOB and ISLOW flags of the line's position |
| HuffmanTable.CountLengths | jbig2_huffman.c:153-172 | LENCOUNT counts the lines of each length, LENMAX is the longest PREFLEN (-1 for no lines), log_table_size as above |
| HuffmanTable.ClearCounts | jbig2_huffman.c:159-164 | zeroing the counts of lengths beyond the old LENMAX keeps the counts of the lines seen so far |
| HuffmanTable.FillRange | jbig2_huffman.c:205-228 | the j loop writes the line's entry on [start_j, end_j) and nothing else |
| HuffmanTable.FillLine | jbig2_huffman.c:188-231 | one line fills its whole range and CURCODE moves to the next code |
| HuffmanTable.FillLength | jbig2_huffman.c:180-233 | after length CURLEN the entries below the end of that length hold their final values and the rest are untouched |
| HuffmanTable.BuildTable | jbig2_huffman.c:137-236 | the built table is the declarative table: entry x holds the line whose code is the top PREFLEN bits of x |
| HuffmanTable.LineEntry | jbig2_huffman.c:199-228 | every index of a coded line's range holds the entry HoldsLine describes for that line, with ISOOB and ISLOW placed as IsOobLine and IsLowLine say |
| HuffmanTable.TableShape | jbig2_huffman.c:175-233 | the builder makes no extension entries; an entry is left unset exactly from the Kraft sum on, and it is terminal exactly when a line owns it |
| HuffmanTable.CompleteTableIsDense | jbig2_huffman.c:180-233 | a complete code leaves no entry unset |
| HuffmanDecode.Position | jbig2_huffman.c:29-32 | the cursor's bit position in the stream, offset*8 + offset_bits |
| HuffmanDecode.Inv | jbig2_huffman.c:29-32 | the cursor invariant: this_word is the 32 stream bits at offset*8 + offset_bits, next_word the word at offset+4, offset a multiple of 4 and offset_bits in [0, 32) |
| HuffmanDecode.New | jbig2_huffman.c:42-55 | a fresh cursor is at bit 0 and satisfies the cursor invariant |
| HuffmanDecode.Consume | jbig2_huffman.c:78-91 | offset_bits stays in [0, 32) and offset grows by 0 or 4 |
| HuffmanDecode.ShiftIn | jbig2_huffman.c:90-91 | (w << k) or (next >> (32 - offset_bits)) on 32-bit words, with a shift by 32 giving 0 |
| HuffmanDecode.ConsumeKeepsInv | jbig2_huffman.c:29-32 | consuming k bits keeps this_word the 32 bits at offset*8 + offset_bits and next_word the word at offset+4, and advances the position by exactly k |
| HuffmanDecode.ShiftInWindow | jbig2_huffman.c:90-91 | (this_word << k) or (next_word >> (32 - offset_bits)) is the 32-bit window at the new position |
| HuffmanDecode.Index | jbig2_huffman.c:74 | the table index this_word >> (32 - log_table_size), always below 2^log_table_size |
| HuffmanDecode.ReadableAt | jbig2_huffman.c:72-96 | the entries a get visits from a bit position are set and keep PREFLEN and RANGELEN within a word; other entries may be uninitialised |
| HuffmanDecode.IndexIsValue | jbig2_huffman.c:74 | the table index is the log_table_size stream bits at the cursor position |
| HuffmanDecode.Get | jbig2_huffman.c:57-133 | on any table whose visited entries are set, get keeps the cursor invariant, and its value, OOB report and end position are those the stream bits denote through the table and its extensions |
| HuffmanDecode.ReadingExtension | jbig2_huffman.c:92-95 | an extension entry continues in its sub-table after PREFLEN bits |
| HuffmanDecode.Apply | jbig2_huffman.c:106-109 | the decoded value: RANGELOW minus HTOFFSET under ISLOW, plus it otherwise |
| HuffmanDecode.Finish | jbig2_huffman.c:99-130 | the value is RANGELOW minus HTOFFSET for ISLOW and plus it otherwise, OOB is reported only into a given slot, and the position moves on by RANGELEN |
| LineDecoding.MatchingLine | jbig2_huffman.c:188-191 | a line at or after `from` whose code matches the stream, or none when no such line matches |
| LineDecoding.MatchIsCover | jbig2_huffman.c:74 | a line's code matches the stream exactly when the table index lies in its range |
| LineDecoding.CodesPrefixFree | jbig2_huffman.c:185-230 | at most one line's code matches at any position |
| LineDecoding.CompleteCodeMatches | jbig2_huffman.c:180-233 | with a complete code, some line matches at every position |
| LineDecoding.MatchBelowKraft | jbig2_huffman.c:180-233 | for any code the builder accepts, some line matches at a bit position exactly when the lookup index there lies below the Kraft sum, that is, where the built table has an entry set |
| LineDecoding.FoldedOffset | jbig2_huffman.c:217-218 | the HTOFFSET a folded entry takes from its index is the RANGELEN stream bits after the prefix |
| LineDecoding.TableReadsLine | jbig2_huffman.c:57-236 | for any code the builder accepts with RANGELEN at most 32, wherever some line matches, the built table is readable and reads what matching the lines reads: same value, OOB and end |
| LineDecoding.DecodeWithLines | jbig2_huffman.c:57-236 | for any code the builder accepts with RANGELEN at most 32, building the table and calling get at a cursor where some line matches decodes exactly that line and keeps the cursor invariant |
| Stream.Word | jbig2_huffman.c:49-50 | the word source the cursor pulls from: the four bytes at a byte offset, most significant first, zero past the data |
| Stream.WordIsValue | jbig2_huffman.c:29-32 | the word at a byte offset is the 32 stream bits from 8 times that offset, so the words the decoder fetches at offsets 0, 4, 8, ... are consecutive windows of the stream |
| Stream.ValueSplit | jbig2_huffman.c:29-32 | a bit field splits into its leading and trailing parts |
| RefillShift.ShrAsWritten | jbig2_huffman.c:90-91 | `w >> n` with the count taken modulo 32, as x86 executes a 32-bit shift |
| RefillShift.ShiftInAsWritten | jbig2_huffman.c:90-91 | (w << k) or (next >> (32 - offset_bits)) with that x86 shift, so offset_bits 0 or-s in all of next |
| RefillShift.AgreeOffWordBoundary | jbig2_huffman.c:90-91 | the refill as written and as intended agree whenever offset_bits does not end at 0 |
| RefillShift.IntendedShiftAddsNothing | jbig2_huffman.c:90-91 | with offset_bits 0 the corrected refill shifts in no bits of next_word: the new word is this_word << k |
| RefillShift.RefillOnBoundaryBreaksInv | jbig2_huffman.c:80-91 | a consume ending on a word boundary breaks the cursor invariant as written and keeps it as intended |
| RefillShift.ConsumeAsWritten | jbig2_huffman.c:79-91 | the cursor step as x86 executes it: offset_bits moves on by k modulo 32 and offset by 4 exactly when a word is crossed, as in the corrected step; only the shifted-in bits differ |
| RefillShift.GetOnBoundaryBreaksInv | jbig2_huffman.c:79-123 | through the two cursor steps get takes for a PREFLEN 1, RANGELEN 31 entry: a 1-bit prefix and a 31-bit range from a fresh cursor end on a word boundary, and on a stream whose word at byte 4 is 0 and at byte 8 is FF000000 the range refill as written loads FF000000 and breaks the cursor invariant, while the corrected refill keeps it |
| StandardTables.StandardTablesComplete | jbig2_huffman.c:267-269 | Tables B.1, B.2 and B.4 are complete codes the builder accepts, with 2^5, 2^7 and 2^7 entries |
| StandardTables.TestGetWord | jbig2_huffman.c:241-254 | test_get_word: 0 once offset+3 exceeds the array, the four bytes at offset otherwise, and no defined value where the guard lets a read one past the array through |
| StandardTables.TestWordAligned | jbig2_huffman.c:241-254 | at every word-aligned offset test_get_word on E9 CB F4 00 returns the zero-padded word source |
| StandardTables.TestWordUnaligned | jbig2_huffman.c:247-253 | at unaligned offsets they differ: offset 1 reads past the array, and offset 2 gives 0 where the stream holds F4 00 |
| StandardTables.TestDriver | jbig2_huffman.c:238-296 | from a fresh cursor on E9 CB F4 00, get with B.4, B.2, B.2, B.1 returns 8, 5, OOB, 8 |
| PclDraw.ClampBelowThenAbove | pcl/pcdraw.c:224-235 | the clamped value is at most the upper bound, and at least the lower one when the bounds are ordered |
| PclDraw.ClampIsNearest | pcl/pcdraw.c:224-235 | for ordered bounds the clamp is the nearest point of the interval; with crossed bounds the upper one wins |
| PclDraw.ClampIdempotent | pcl/pcdraw.c:224-235 | clamping an already clamped value to the same bounds changes nothing |
| PclDraw.XBounds | pcl/pcdraw.c:224-235 | the interval x is clamped to: the left and right margins with to_margins, [0, logical_page_width] without |
| PclDraw.SetCursorX | pcl/pcdraw.c:221-246 | the new x lies within the margins or the logical page, and no other field changes |
| PclDraw.SetCursorXLands | pcl/pcdraw.c:224-246 | with to_margins x lands between the margins, without it on [0, logical_page_width]; an x already inside is kept |
| PclDraw.SetCursorXIdempotent | pcl/pcdraw.c:221-246 | repeating a move changes nothing, and only the last of two moves counts |
| PclDraw.SetCursorY | pcl/pcdraw.c:248-254 | y becomes cy unclamped, and no other field changes |
| PclDraw.SetCursorYIgnoresMargins | pcl/pcdraw.c:248-254 | to_margins does not matter for y, and the x and y moves commute |
| PclDraw.CDiv | pcl/pcdraw.c:262-264 | C's integer `/` by a positive divisor, truncating toward zero for a negative dividend |
| PclDraw.CDivBounds | pcl/pcdraw.c:262-264 | C division by a positive divisor truncates toward zero |
| PclDraw.RoundHmi | pcl/pcdraw.c:262-264 | the font HMI (hmi + (uom_cp >> 1)) / uom_cp * uom_cp with C's truncating division |
| PclDraw.RoundHmiNearest | pcl/pcdraw.c:262-264 | the rounded HMI is a multiple of uom_cp; for a non-negative HMI it is the nearest multiple, halves up |
| PclDraw.SetHmi | pcl/pcdraw.c:257-265 | hmi_unrounded is the input and hmi_set says how it came; an explicit HMI is kept, a font's is rounded to a multiple of uom_cp |
| PclDraw.SetHmiFromFontStable | pcl/pcdraw.c:257-265 | setting a font HMI again with the value it produced keeps that value |
| PclDraw.IsLandscape | pcl/pcdraw.c:63-68 | `orientation & 1`: orientations 1 and 3 are landscape |
| PclDraw.PageHeight | pcl/pcdraw.c:63-68 | the height the margins are laid out on: the logical page height, or its width in landscape |
| PclDraw.DefaultMargins | pcl/pcdraw.c:57-76 | left is the default and right the page width; top, length and half an inch or nothing fill the page height; top is the default only within the page |
| PclDraw.DefaultMarginsByParity | pcl/pcdraw.c:63-68 | orientations of equal parity agree, and opposite parities swap width and height |
| PclDraw.ShadingFill | pcl/pcdraw.c:464-491 | 0% is white and above 99% black; otherwise a pattern with 8-wide tiles, 16 rows for 1-2% and 8 otherwise, cached at index*4 under id 0x10000+index |
| PclDraw.ShadingIsFirstLimit | pcl/pcdraw.c:469-487 | the chain of comparisons picks the first pattern whose limit (2, 10, 20, 35, 55, 80, 99) covers the percentage |
| PclDraw.ShadingMonotone | pcl/pcdraw.c:469-487 | a larger percentage never selects a lighter pattern |
| PclDraw.CrossHatchFill | pcl/pcdraw.c:501-520 | ids 1 to 6 select pattern id-1 with 16x16 tiles under id 0x20000+index; any other id is solid black |
| PclDraw.SavedIdsDistinct | pcl/pcdraw.c:474-514 | saved pattern ids identify the pattern, and shading and cross-hatch ids never collide |

## Left out

- The word stream is a byte sequence, zero-padded past its end, and not a
  callback. Memory allocation and the `ws` pointer are not modelled.
- Builder inputs with PREFLEN above LOG_TABLE_SIZE_MAX, or with a Kraft sum
  above the table size, are excluded by `Buildable`. In the source such
  inputs have no defined result:
  - A PREFLEN above 8 never raises log_table_size (`lts = PREFLEN` fails
    the `lts <= LOG_TABLE_SIZE_MAX` test at lines 167-171). The shift
    `log_table_size - CURLEN` then goes negative, and `CURCODE << shift`
    at lines 194-195 is undefined.
  - A PREFLEN of 256 or more also indexes past `LENCOUNT[256]` at lines
    159-165.
  - A Kraft sum above 2^log_table_size gives ranges that run past the
    allocated entries.
- HuffmanTable.BuildTable: leaves entries that no line covers as `Unset`.
  The source leaves them uninitialised.
- HuffmanDecode.Get: requires the entries the read visits to be set, with
  PREFLEN and RANGELEN within a word (`ReadableAt`). Other entries may be
  unset. Reading an uninitialised entry is undefined in the source.
- LineDecoding.TableReadsLine: requires every RANGELEN to be at most 32
  (`RangesFitWord`) and some line to match at the position. In the source
  a longer RANGELEN makes the shift `32 - RANGELEN` at line 105 negative,
  which is undefined. Where no line matches, the index lies at or past the
  Kraft sum (`MatchBelowKraft`), and get reads an uninitialised entry.
- LineDecoding.DecodeWithLines: has the same two requirements, for the
  same reasons.
- Stream.Word: agrees with the test driver's `test_get_word` only at
  word-aligned offsets (`TestWordAligned`). Those are the only offsets
  `new` and `get` ask for. At other offsets they differ
  (`TestWordUnaligned`). The guard `offset+3 > sizeof(stream)` at line
  247 returns 0 from offset 2 on. At offset 1 it lets through a read of
  `stream[4]`, one past the array.
- Extension tables are never built; the source marks this as "todo". The
  decoder follows an abstract extension entry into its sub-table.
- HuffmanDecode.Index: uses 0 for `this_word >> (32 - log_table_size)`
  when log_table_size is 0. That shift by 32 is undefined in C.
- HuffmanDecode.Finish: values are unbounded integers. It does not model
  the int32 wrap of HTOFFSET, which can reach 2^32 - 1 for RANGELEN 32,
  nor the wrap of RANGELOW plus or minus it.
- HuffmanCodes.Line: PREFLEN and RANGELEN are natural numbers, while the
  source's `int` fields may be negative. A negative PREFLEN indexes
  `LENCOUNT[-1]` at lines 159-165. A negative RANGELEN on a folded line
  makes `1 << RANGELEN` at line 218 a negative shift. It can also keep
  log_table_size below the line's PREFLEN, so that `log_table_size -
  CURLEN` at line 182 is negative and `CURCODE << shift` at lines 194-195
  undefined. (Get's `32 - RANGELEN` at line 105 is guarded by
  `RANGELEN > 0` at line 101.) Such lines are not represented.
- HuffmanTable.WrittenEntry: RANGELOW is an unbounded integer. The int32
  overflow of RANGELOW plus or minus HTOFFSET, folded into a table entry at
  lines 217-224, is not modelled. `HoldsLine` and `EntryFor`, which are
  stated through it, share this.
- `jbig2_hufftab.h` is not part of this model. Tables B.1, B.2 and B.4 are
  taken from Annex B of ITU-T T.88, which lists no lower-range line for
  these tables. The model adds to each an uncoded placeholder line
  (PREFLEN 0, RANGELEN 32, RANGELOW -1) in the lower-range position. The
  builder puts ISLOW on line `n_lines - (HTOOB ? 3 : 2)` (lines 201-202),
  and the placeholder makes that a line no code reaches.
- The `printf` output of the test driver is left out. Only its expected
  values are kept.
- The underline break and continue around cursor moves change no modelled
  field and are left out.
- `pcl_left_margin` and `pcl_right_margin` are taken as the state's left
  and right margins. Their header definitions are not part of this model.
- PclDraw.SetHmi: does not model overflow of `hmi + uom_cp / 2` in a C
  int. It also requires `uom_cp > 0` for a font HMI, because the source
  divides by `uom_cp`.
- PclDraw.RoundHmiNearest: states nearest-multiple rounding only for a
  non-negative HMI. For a negative one the C division truncates toward
  zero, so the result is not the nearest multiple. `CDivBounds` states
  what happens there.
- PclDraw.SetHmiFromFontStable: requires a non-negative HMI, for the same
  reason.
- `left_margin_default`, `top_margin_default` and `inch2coord(0.5)` come
  from headers that are not part of this model. They are the fields of
  `MarginDefaults`.
- The rest of `pcl/pcdraw.c` is not modelled:
  - the CTM, the clip and the print direction are floating-point
    graphics-library calls;
  - `pcl_home_cursor` uses floating point;
  - `pcl_updated_hmi` needs font lookup;
  - pattern bitmaps, paint procedures, the pattern cache and its reference
    counts, user-defined patterns and the reset procedure are not
    modelled;
  - `pcl_compute_logical_page_size` depends on header field aliasing.

## Findings

| source | as written | input that shows it | evidently intended | confidence | as-written member | corrected member |
|---|---|---|---|---|---|---|
| jbig2_huffman.c:80-123 | after a refill that leaves offset_bits at 0, `next_word >> (32 - offset_bits)` shifts a 32-bit word by 32, which C leaves undefined; x86 takes the count mod 32 and ors all of next_word into this_word; the same shift recurs for the range at lines 122-123 | nine bytes 00 00 00 00 00 00 00 00 FF and a get, from a fresh cursor, through an entry with PREFLEN 1 and RANGELEN 31: the range refill leaves offset_bits at 0 and this_word becomes FF000000 instead of the zero bits 32..63 (a single 32-bit consume shows the same) | the shifted-in part is 0 bits, so this_word is next_word and the cursor invariant holds | not executed | RefillShift.GetOnBoundaryBreaksInv, with RefillShift.ConsumeAsWritten and RefillShift.RefillOnBoundaryBreaksInv | HuffmanDecode.ConsumeKeepsInv, with RefillShift.IntendedShiftAddsNothing |
