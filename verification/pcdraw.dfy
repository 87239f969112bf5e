/** The integer cursor, margin and HMI rules of the PCL5 interpreter's
    drawing utilities, and the choice of built-in pattern for a shading
    percentage or a cross-hatch id.

    Coordinates are centipoints (`coord`). The state is the handful of
    fields these rules read and write; the underline break and continue
    around a cursor move change none of them. */
module PclDraw {
  import opened Bits

  // ---------------------------------------------------------------------
  // State
  // ---------------------------------------------------------------------

  /** How the current HMI was set. */
  datatype HmiSource = SetExplicitly | SetFromFont

  /** The cursor position `cap`, the horizontal margins, the logical page
      width, and the HMI with its unit of measure `uom_cp`. */
  datatype State = State(
    capX: int,
    capY: int,
    leftMargin: int,
    rightMargin: int,
    logicalPageWidth: int,
    hmi: int,
    hmiUnrounded: int,
    hmiSet: HmiSource,
    uomCp: int)

  /** The page margins `pcl_default_margins` fills in. */
  datatype Margins = Margins(left: int, right: int, top: int, length: int)

  /** The header-defined constants the default margins use: the default
      left and top margins and `inch2coord(0.5)`. */
  datatype MarginDefaults = MarginDefaults(leftDefault: int, topDefault: int, halfInch: int)

  // ---------------------------------------------------------------------
  // Clamping
  // ---------------------------------------------------------------------

  /** Raise v to lo, then lower the result to hi, in that order. */
  function ClampBelowThenAbove(v: int, lo: int, hi: int): (r: int)
    ensures r <= hi
    ensures lo <= hi ==> lo <= r
  {
    var raised := if v < lo then lo else v;
    if raised > hi then hi else raised
  }

  /** For a non-empty interval the two-step clamp gives the point of
      [lo, hi] nearest to v: v itself when it lies inside, otherwise the
      end it passed. With lo above hi the upper bound wins. */
  lemma ClampIsNearest(v: int, lo: int, hi: int)
    ensures lo <= v <= hi ==> ClampBelowThenAbove(v, lo, hi) == v
    ensures lo <= hi && v < lo ==> ClampBelowThenAbove(v, lo, hi) == lo
    ensures v > hi ==> ClampBelowThenAbove(v, lo, hi) == hi
    ensures hi < lo ==> ClampBelowThenAbove(v, lo, hi) == hi
    ensures lo <= hi ==> forall y :: lo <= y <= hi ==>
      Distance(ClampBelowThenAbove(v, lo, hi), v) <= Distance(y, v)
  {
  }

  function Distance(a: int, b: int): nat
  {
    if a <= b then b - a else a - b
  }

  /** Clamping twice into the same bounds is clamping once. */
  lemma ClampIdempotent(v: int, lo: int, hi: int)
    ensures ClampBelowThenAbove(ClampBelowThenAbove(v, lo, hi), lo, hi) == ClampBelowThenAbove(v, lo, hi)
  {
  }

  // ---------------------------------------------------------------------
  // Cursor moves
  // ---------------------------------------------------------------------

  /** The bounds `pcl_set_cursor_x` clamps to: the left and right margins,
      or the logical page from 0 to its width. */
  function XBounds(s: State, toMargins: bool): (int, int)
  {
    if toMargins then (s.leftMargin, s.rightMargin) else (0, s.logicalPageWidth)
  }

  /** pcl_set_cursor_x: clamp cx and move the cursor there. Moving left
      also breaks and continues the underline, which changes no field
      here, so the direction of the move does not matter. */
  function SetCursorX(s: State, cx: int, toMargins: bool): (r: State)
    ensures r.capX <= XBounds(s, toMargins).1
    ensures XBounds(s, toMargins).0 <= XBounds(s, toMargins).1 ==> XBounds(s, toMargins).0 <= r.capX
    ensures r.(capX := s.capX) == s
  {
    var (lo, hi) := XBounds(s, toMargins);
    var x := ClampBelowThenAbove(cx, lo, hi);
    s.(capX := x)
  }

  /** With to_margins the cursor lands between the margins, and without it
      on the logical page; a target already inside stays put. */
  lemma SetCursorXLands(s: State, cx: int, toMargins: bool)
    ensures toMargins && s.leftMargin <= s.rightMargin ==>
      s.leftMargin <= SetCursorX(s, cx, toMargins).capX <= s.rightMargin
    ensures !toMargins && 0 <= s.logicalPageWidth ==>
      0 <= SetCursorX(s, cx, toMargins).capX <= s.logicalPageWidth
    ensures XBounds(s, toMargins).0 <= cx <= XBounds(s, toMargins).1 ==> SetCursorX(s, cx, toMargins).capX == cx
    ensures SetCursorX(s, cx, toMargins).capX == ClampBelowThenAbove(cx, XBounds(s, toMargins).0, XBounds(s, toMargins).1)
  {
    ClampIsNearest(cx, XBounds(s, toMargins).0, XBounds(s, toMargins).1);
  }

  /** Setting the same x twice is setting it once, and only the last of
      two x moves counts. */
  lemma SetCursorXIdempotent(s: State, cx: int, cx2: int, toMargins: bool)
    ensures SetCursorX(SetCursorX(s, cx, toMargins), cx, toMargins) == SetCursorX(s, cx, toMargins)
    ensures SetCursorX(SetCursorX(s, cx, toMargins), cx2, toMargins) == SetCursorX(s, cx2, toMargins)
  {
    ClampIdempotent(cx, XBounds(s, toMargins).0, XBounds(s, toMargins).1);
  }

  /** pcl_set_cursor_y: the cursor moves to cy with no clamping, and
      to_margins is not consulted. */
  function SetCursorY(s: State, cy: int, toMargins: bool): (r: State)
    ensures r.capY == cy && r.(capY := s.capY) == s
  {
    s.(capY := cy)
  }

  /** The vertical move ignores to_margins, and it commutes with a
      horizontal move: the two touch different fields. */
  lemma SetCursorYIgnoresMargins(s: State, cx: int, cy: int, mx: bool, my: bool)
    ensures SetCursorY(s, cy, true) == SetCursorY(s, cy, false)
    ensures SetCursorY(SetCursorX(s, cx, mx), cy, my) == SetCursorX(SetCursorY(s, cy, my), cx, mx)
  {
  }

  // ---------------------------------------------------------------------
  // HMI
  // ---------------------------------------------------------------------

  /** C's integer division, which truncates toward zero, by a positive
      divisor. */
  function CDiv(a: int, b: int): (q: int)
    requires b > 0
  {
    if a >= 0 then a / b else -((-a) / b)
  }

  /** The quotient rounds toward zero: q * b lies between 0 and a, less
      than b away from a. */
  lemma CDivBounds(a: int, b: int)
    requires b > 0
    ensures a >= 0 ==> 0 <= CDiv(a, b) * b <= a < CDiv(a, b) * b + b
    ensures a < 0 ==> CDiv(a, b) * b - b < a <= CDiv(a, b) * b <= 0
  {
    if a >= 0 {
      DivParts(a, b, a / b);
    } else {
      var q := (-a) / b;
      DivParts(-a, b, q);
      assert CDiv(a, b) == -q;
      NegMul(q, b);
    }
  }

  lemma DivParts(n: nat, b: int, q: int)
    requires b > 0 && q == n / b
    ensures 0 <= q * b <= n < q * b + b
  {
    var r := n % b;
    assert n == q * b + r;
    MulNat(q, b);
  }

  lemma NegMul(q: int, b: int)
    ensures (-q) * b == -(q * b)
  {
  }

  /** The HMI a font sets: `(hmi + (uom_cp >> 1)) / uom_cp * uom_cp`, the
      input rounded to a multiple of the unit of measure. */
  function RoundHmi(hmi: int, uomCp: int): (r: int)
    requires uomCp > 0
  {
    CDiv(hmi + uomCp / 2, uomCp) * uomCp
  }

  /** The rounded HMI is a multiple of the unit. For a non-negative HMI it
      is the multiple nearest to it, halves rounding up, so a multiple of
      the unit is left as it is. */
  lemma RoundHmiNearest(hmi: int, uomCp: int)
    requires uomCp > 0
    ensures RoundHmi(hmi, uomCp) % uomCp == 0
    ensures hmi >= 0 ==> 0 <= RoundHmi(hmi, uomCp)
    ensures hmi >= 0 ==> hmi - (uomCp - uomCp / 2) < RoundHmi(hmi, uomCp) <= hmi + uomCp / 2
    ensures hmi >= 0 && hmi % uomCp == 0 ==> RoundHmi(hmi, uomCp) == hmi
  {
    var half := uomCp / 2;
    var sum := hmi + half;
    var q := CDiv(sum, uomCp);
    CDivBounds(sum, uomCp);
    DivModUnique(q * uomCp, uomCp, q, 0);
    if hmi >= 0 && hmi % uomCp == 0 {
      var k := hmi / uomCp;
      assert hmi == k * uomCp;
      DivModUnique(sum, uomCp, k, half);
    }
  }

  /** pcl_set_hmi: record the value and how it was set; an explicit HMI is
      kept as given, one from a font is rounded to the unit of measure.
      The division happens only on the font path, so only there must the
      unit be positive. */
  function SetHmi(s: State, hmi: int, explicit: bool): (r: State)
    requires explicit || s.uomCp > 0
    ensures r.hmiUnrounded == hmi
    ensures r.hmiSet == (if explicit then SetExplicitly else SetFromFont)
    ensures explicit ==> r.hmi == hmi
    ensures !explicit ==> r.hmi % s.uomCp == 0
    ensures !explicit && hmi >= 0 ==> hmi - (s.uomCp - s.uomCp / 2) < r.hmi <= hmi + s.uomCp / 2
    ensures r.(hmi := s.hmi, hmiUnrounded := s.hmiUnrounded, hmiSet := s.hmiSet) == s
  {
    var rounded := if explicit then hmi else (RoundHmiNearest(hmi, s.uomCp); RoundHmi(hmi, s.uomCp));
    s.(hmiUnrounded := hmi, hmiSet := if explicit then SetExplicitly else SetFromFont, hmi := rounded)
  }

  /** Setting the HMI from a font a second time with the HMI it produced
      changes nothing but the unrounded value, which is then the rounded
      one: rounding is idempotent. */
  lemma SetHmiFromFontStable(s: State, hmi: int)
    requires s.uomCp > 0 && hmi >= 0
    ensures var once := SetHmi(s, hmi, false);
      SetHmi(once, once.hmi, false) == once.(hmiUnrounded := once.hmi)
  {
    var once := SetHmi(s, hmi, false);
    RoundHmiNearest(hmi, s.uomCp);
    RoundHmiNearest(once.hmi, s.uomCp);
  }

  // ---------------------------------------------------------------------
  // Default margins
  // ---------------------------------------------------------------------

  /** `orientation & 1` on a two's-complement int is its remainder mod 2,
      negative values included. */
  predicate IsLandscape(orientation: int)
  {
    orientation % 2 == 1
  }

  /** The page height the margins are laid out on: the logical height,
      or the logical width in an odd orientation. */
  function PageHeight(orientation: int, logicalWidth: int, logicalHeight: int): int
  {
    if IsLandscape(orientation) then logicalWidth else logicalHeight
  }

  /** pcl_default_margins: in an odd orientation the logical page's width
      and height swap; the left margin is the default and the right margin
      the page width. The margins split the page height into the top
      margin, the text length and a bottom margin of half an inch, or of
      nothing when half an inch would leave less than half an inch of text;
      the top margin is the default only when that is within the page. */
  function DefaultMargins(d: MarginDefaults, orientation: int, logicalWidth: int, logicalHeight: int): (m: Margins)
    ensures m.left == d.leftDefault
    ensures m.right == (if IsLandscape(orientation) then logicalHeight else logicalWidth)
    ensures var h := PageHeight(orientation, logicalWidth, logicalHeight);
      && ((m.top == d.topDefault && d.topDefault <= h) || (m.top == 0 && d.topDefault > h))
      && ((m.top + m.length + d.halfInch == h && m.length >= d.halfInch)
          || (m.top + m.length == h && h - m.top - d.halfInch < d.halfInch))
  {
    var pageWidth := if IsLandscape(orientation) then logicalHeight else logicalWidth;
    var pageHeight := PageHeight(orientation, logicalWidth, logicalHeight);
    var top := if d.topDefault > pageHeight then 0 else d.topDefault;
    var length := pageHeight - top - d.halfInch;
    Margins(d.leftDefault, pageWidth, top, if length < d.halfInch then pageHeight - top else length)
  }

  /** Turning the page a quarter turn swaps the roles of the logical width
      and height: orientations of the same parity agree, and opposite
      parities agree once width and height are exchanged. */
  lemma DefaultMarginsByParity(d: MarginDefaults, o1: int, o2: int, w: int, h: int)
    ensures o1 % 2 == o2 % 2 ==> DefaultMargins(d, o1, w, h) == DefaultMargins(d, o2, w, h)
    ensures o1 % 2 != o2 % 2 ==> DefaultMargins(d, o1, w, h) == DefaultMargins(d, o2, h, w)
  {
  }

  // ---------------------------------------------------------------------
  // Built-in patterns
  // ---------------------------------------------------------------------

  /** What a shading or cross-hatch request draws with: a solid gray, or
      built-in pattern `index` of its family, with the tile's repeat size,
      its slot in the pattern cache and the id it is saved under. */
  datatype Fill =
    | SolidWhite
    | SolidBlack
    | Tile(index: nat, repWidth: nat, repHeight: nat, cacheSlot: nat, savedId: nat)

  /** The highest percentage each of the seven shading patterns stands
      for. */
  const ShadeLimits: seq<nat> := [2, 10, 20, 35, 55, 80, 99]

  /** The shading pattern for a percentage: 0 is white, above 99 black,
      and otherwise the first pattern whose limit the percentage does not
      exceed, with a 16-row repeat for the two lightest percentages. */
  function ShadingFill(percent: nat): (f: Fill)
    ensures f.SolidWhite? <==> percent == 0
    ensures f.SolidBlack? <==> percent > 99
    ensures f.Tile? ==>
      && f.index < |ShadeLimits| && f.repWidth == 8
      && f.repHeight == (if percent <= 2 then 16 else 8)
      && f.cacheSlot == f.index * 4 && f.savedId == 0x10000 + f.index
  {
    if percent == 0 then SolidWhite
    else if percent <= 99 then
      var index := if percent <= 2 then 0
        else if percent <= 10 then 1
        else if percent <= 20 then 2
        else if percent <= 35 then 3
        else if percent <= 55 then 4
        else if percent <= 80 then 5
        else 6;
      Tile(index, 8, if percent <= 2 then 16 else 8, index * 4, 0x10000 + index)
    else SolidBlack
  }

  /** The first limit, counting from i, that percent does not exceed. */
  function FirstLimitFrom(percent: nat, i: nat): (r: nat)
    requires i <= |ShadeLimits|
    ensures i <= r <= |ShadeLimits|
    decreases |ShadeLimits| - i
  {
    if i == |ShadeLimits| then i
    else if percent <= ShadeLimits[i] then i
    else FirstLimitFrom(percent, i + 1)
  }

  /** The chain of comparisons is a search of the limit list: for 1..99
      the pattern is the first whose limit covers the percentage, so the
      percentage lies above every earlier limit and within its own. */
  lemma ShadingIsFirstLimit(percent: nat)
    requires 1 <= percent <= 99
    ensures ShadingFill(percent).Tile?
    ensures ShadingFill(percent).index == FirstLimitFrom(percent, 0)
    ensures var i := ShadingFill(percent).index;
      percent <= ShadeLimits[i] && (i == 0 || ShadeLimits[i - 1] < percent)
  {
  }

  /** A larger percentage never selects a lighter pattern. */
  lemma ShadingMonotone(p: nat, q: nat)
    requires 1 <= p <= q <= 99
    ensures ShadingFill(p).index <= ShadingFill(q).index
  {
  }

  /** The number of cross-hatch patterns. */
  const CrossHatchCount: nat := 6

  /** The cross-hatch pattern for an id: ids 1 to 6 select pattern id - 1,
      any other id draws solid black. */
  function CrossHatchFill(id: nat): (f: Fill)
    ensures f.Tile? <==> 1 <= id <= CrossHatchCount
    ensures f.Tile? ==>
      && f.index == id - 1 && f.repWidth == 16 && f.repHeight == 16
      && f.cacheSlot == f.index * 4 && f.savedId == 0x20000 + f.index
    ensures !f.Tile? ==> f == SolidBlack
  {
    var index := id - 1;
    if index < 0 || index >= CrossHatchCount then SolidBlack
    else Tile(index, 16, 16, index * 4, 0x20000 + index)
  }

  /** The saved pattern ids never collide: within a family they name the
      pattern index, and shading and cross-hatch ids differ. */
  lemma SavedIdsDistinct(p1: nat, p2: nat, h1: nat, h2: nat)
    ensures ShadingFill(p1).Tile? && ShadingFill(p2).Tile? ==>
      (ShadingFill(p1).savedId == ShadingFill(p2).savedId <==> ShadingFill(p1).index == ShadingFill(p2).index)
    ensures CrossHatchFill(h1).Tile? && CrossHatchFill(h2).Tile? ==>
      (CrossHatchFill(h1).savedId == CrossHatchFill(h2).savedId <==> h1 == h2)
    ensures ShadingFill(p1).Tile? && CrossHatchFill(h1).Tile? ==>
      ShadingFill(p1).savedId != CrossHatchFill(h1).savedId
  {
  }
}
