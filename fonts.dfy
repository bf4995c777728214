/**
 Font atlas layout of the asset packer. Every glyph of the character range is
 placed on a shelf: left to right along a row, wrapping to a new row one line
 height lower whenever the next glyph would pass the texture size limit. The
 kerning of every glyph pair is stored in a flat table, and each glyph's
 coverage is written into the alpha byte of an RGBA texture that starts out
 transparent white.

 FreeType is outside the model: glyph metrics, bitmaps and kerning values
 arrive as parameters, in 26.6 fixed point where FreeType uses it.
 */
module FontAtlas {
  import opened GraphicsLayout
  import opened IntMath

  /** The texture size limit, in both directions. */
  const TexSizeLimit := 1024

  /** RGBA: four bytes per texture pixel, alpha last. */
  const TexChannelCnt := 4

  /** `>> 6` on a 26.6 fixed-point value: the whole pixels, rounded down
      (an arithmetic shift, also for negative values). */
  function Px(v: int): (r: int)
    ensures r * 64 <= v < r * 64 + 64
  {
    v / 64
  }

  /** `get_line_height`: the face's height metric in whole pixels. */
  function LineHeight(heightMetric: int): (r: int)
    ensures r * 64 <= heightMetric < r * 64 + 64
  {
    Px(heightMetric)
  }

  /** The metrics a glyph stores, from its 26.6 bearing and advance. */
  datatype CharMetrics = CharMetrics(horOffset: int, verOffset: int, horAdvance: int)

  function GlyphMetrics(ascender: int, horiBearingX: int, horiBearingY: int, horiAdvance: int): (r: CharMetrics)
    ensures r.horOffset * 64 <= horiBearingX < r.horOffset * 64 + 64
    ensures r.verOffset * 64 <= ascender - horiBearingY < r.verOffset * 64 + 64
    ensures r.horAdvance * 64 <= horiAdvance < r.horAdvance * 64 + 64
  {
    CharMetrics(Px(horiBearingX), Px(ascender - horiBearingY), Px(horiAdvance))
  }

  // ---------------------------------------------------------------------------
  // Texture size

  /** The widest of the glyph bitmaps (0 for none). */
  function MaxWidth(widths: seq<nat>): (r: nat)
    ensures forall i :: 0 <= i < |widths| ==> widths[i] <= r
    ensures r == 0 || r in widths
  {
    if |widths| == 0 then 0
    else
      var m := MaxWidth(widths[..|widths| - 1]);
      assert forall i :: 0 <= i < |widths| - 1 ==> widths[..|widths| - 1][i] == widths[i];
      if widths[|widths| - 1] > m then widths[|widths| - 1] else m
  }

  /** `calc_largest_bitmap_width`: a running maximum over the range. */
  method CalcLargestBitmapWidth(widths: seq<nat>) returns (width: nat)
    ensures width == MaxWidth(widths)
  {
    width := 0;
    var i := 0;
    while i < |widths|
      invariant 0 <= i <= |widths|
      invariant width == MaxWidth(widths[..i])
    {
      assert widths[..i + 1][..i] == widths[..i];
      if widths[i] > width {
        width := widths[i];
      }
      i := i + 1;
    }
    assert widths[..i] == widths;
  }

  /** `calc_font_tex_size` as written: the width is the ideal width (every
      glyph as wide as the widest, side by side) capped at the limit; the
      height allots one line per started multiple of the limit in the ideal
      width. */
  function FontTexSizeAsWritten(largestWidth: nat, rangeSize: nat, lineHeight: int): (r: (int, int))
    ensures 0 <= r.0 <= TexSizeLimit && (r.0 == TexSizeLimit || r.0 == largestWidth * rangeSize)
    ensures r.1 == lineHeight * ((largestWidth * rangeSize) / TexSizeLimit + 1)
  {
    var idealTexWidth := largestWidth * rangeSize;
    (if idealTexWidth < TexSizeLimit then idealTexWidth else TexSizeLimit,
     lineHeight * (idealTexWidth / TexSizeLimit + 1))
  }

  /** The font is refused when its texture would be taller than the limit. */
  predicate TexTooTall(texHeight: int)
  {
    texHeight > TexSizeLimit
  }

  // ---------------------------------------------------------------------------
  // Shelf placement

  datatype Pos = Pos(x: int, y: int)

  /** Where a glyph of width `w` goes when the drawing cursor is at `c`: at
      the cursor, or at the start of the next row when it would pass the
      limit. */
  function ShelfPos(c: Pos, w: nat, lineHeight: int): Pos
  {
    if c.x + w > TexSizeLimit then Pos(0, c.y + lineHeight) else c
  }

  /** The positions of all glyphs, in order, and the cursor after the last:
      each glyph advances the cursor by its width along its row. */
  function Placed(widths: seq<nat>, lineHeight: int): (r: (seq<Pos>, Pos))
    ensures |r.0| == |widths|
    ensures |widths| == 0 ==> r.1 == Pos(0, 0)
    ensures |widths| > 0 ==> r.1 == Pos(r.0[|widths| - 1].x + widths[|widths| - 1], r.0[|widths| - 1].y)
  {
    if |widths| == 0 then ([], Pos(0, 0))
    else
      var (ps, c) := Placed(widths[..|widths| - 1], lineHeight);
      var w := widths[|widths| - 1];
      var p := ShelfPos(c, w, lineHeight);
      (ps + [p], Pos(p.x + w, p.y))
  }

  /** Placing more glyphs never moves the ones already placed. */
  lemma {:induction false} PlacedPrefix(widths: seq<nat>, lineHeight: int, n: nat)
    requires n <= |widths|
    ensures forall i :: 0 <= i < n ==> Placed(widths[..n], lineHeight).0[i] == Placed(widths, lineHeight).0[i]
    decreases |widths| - n
  {
    if n < |widths| {
      var m := |widths|;
      PlacedPrefix(widths[..m - 1], lineHeight, n);
      assert widths[..m - 1][..n] == widths[..n];
      assert Placed(widths, lineHeight).0 == Placed(widths[..m - 1], lineHeight).0 + [Placed(widths, lineHeight).0[m - 1]];
    } else {
      assert widths[..n] == widths;
    }
  }

  /** The cursor in front of glyph `i`, and the rule that places it. */
  function CursorBefore(widths: seq<nat>, lineHeight: int, i: nat): Pos
    requires i <= |widths|
  {
    Placed(widths[..i], lineHeight).1
  }

  /** Glyph `i` wraps to the start of the next row exactly when it would pass
      the limit from the cursor; otherwise it sits at the cursor. The cursor
      then advances by the glyph's width along the glyph's row. */
  lemma PlacementStep(widths: seq<nat>, lineHeight: int, i: nat)
    requires i < |widths|
    ensures var c := CursorBefore(widths, lineHeight, i);
      var p := Placed(widths, lineHeight).0[i];
      && (c.x + widths[i] > TexSizeLimit ==> p == Pos(0, c.y + lineHeight))
      && (c.x + widths[i] <= TexSizeLimit ==> p == c)
      && CursorBefore(widths, lineHeight, i + 1) == Pos(p.x + widths[i], p.y)
  {
    PlacedPrefix(widths, lineHeight, i + 1);
    assert widths[..i + 1][..i] == widths[..i];
  }

  /** A glyph no wider than the limit ends at or before the limit. */
  lemma GlyphWithinRow(widths: seq<nat>, lineHeight: int, i: nat)
    requires i < |widths| && widths[i] <= TexSizeLimit
    ensures 0 <= Placed(widths, lineHeight).0[i].x
    ensures Placed(widths, lineHeight).0[i].x + widths[i] <= TexSizeLimit
  {
    PlacementStep(widths, lineHeight, i);
    CursorNonNegative(widths, lineHeight, i);
  }

  lemma {:induction false} CursorNonNegative(widths: seq<nat>, lineHeight: int, i: nat)
    requires i <= |widths|
    ensures CursorBefore(widths, lineHeight, i).x >= 0
  {
    if i > 0 {
      CursorNonNegative(widths, lineHeight, i - 1);
      PlacementStep(widths, lineHeight, i - 1);
    }
  }

  /** With a positive line height, a later glyph starts at least one line
      lower or lies to the right of the whole earlier glyph on the same row,
      so glyphs no taller than a line never overlap. */
  lemma {:induction false} GlyphsInReadingOrder(widths: seq<nat>, lineHeight: int, i: nat, j: nat)
    requires i < j < |widths| && lineHeight > 0
    ensures var ps := Placed(widths, lineHeight).0;
      ps[i].y + lineHeight <= ps[j].y || (ps[i].y == ps[j].y && ps[i].x + widths[i] <= ps[j].x)
    decreases j
  {
    var ps := Placed(widths, lineHeight).0;
    PlacementStep(widths, lineHeight, j - 1);
    PlacementStep(widths, lineHeight, j);
    if i < j - 1 {
      GlyphsInReadingOrder(widths, lineHeight, i, j - 1);
    }
  }

  /** The cursor never moves back up. */
  lemma {:induction false} CursorRowsNonDecreasing(widths: seq<nat>, lineHeight: int, k1: nat, k2: nat)
    requires k1 <= k2 <= |widths| && lineHeight >= 0
    ensures CursorBefore(widths, lineHeight, k1).y <= CursorBefore(widths, lineHeight, k2).y
    decreases k2
  {
    if k1 < k2 {
      CursorRowsNonDecreasing(widths, lineHeight, k1, k2 - 1);
      PlacementStep(widths, lineHeight, k2 - 1);
    }
  }

  /** Rows never go back up, and the final cursor is on the last row. */
  lemma RowsNonDecreasing(widths: seq<nat>, lineHeight: int, i: nat, j: nat)
    requires i <= j < |widths| && lineHeight >= 0
    ensures Placed(widths, lineHeight).0[i].y <= Placed(widths, lineHeight).0[j].y
    ensures Placed(widths, lineHeight).0[j].y <= Placed(widths, lineHeight).1.y
  {
    PlacementStep(widths, lineHeight, i);
    PlacementStep(widths, lineHeight, j);
    if i < j {
      CursorRowsNonDecreasing(widths, lineHeight, i + 1, j);
    }
    CursorRowsNonDecreasing(widths, lineHeight, j + 1, |widths|);
    assert widths[..|widths|] == widths;
  }

  /** The height that holds every row the placement uses (corrected). */
  function FontTexHeight(widths: seq<nat>, lineHeight: int): int
  {
    Placed(widths, lineHeight).1.y + lineHeight
  }

  /** With the corrected height every glyph's row lies inside the texture. */
  lemma RowsInsideTexture(widths: seq<nat>, lineHeight: int, i: nat)
    requires i < |widths| && lineHeight >= 0
    ensures 0 <= Placed(widths, lineHeight).0[i].y
    ensures Placed(widths, lineHeight).0[i].y + lineHeight <= FontTexHeight(widths, lineHeight)
  {
    RowsNonDecreasing(widths, lineHeight, 0, i);
    RowsNonDecreasing(widths, lineHeight, i, i);
    PlacementStep(widths, lineHeight, 0);
    assert CursorBefore(widths, lineHeight, 0) == Pos(0, 0);
  }

  /** While the whole range is narrower than the limit nothing wraps and
      the cursor stays within the widths placed so far. */
  lemma {:induction false} NarrowRangeNeverWraps(widths: seq<nat>, lineHeight: int, k: nat)
    requires k <= |widths| && MaxWidth(widths) * |widths| < TexSizeLimit
    ensures 0 <= CursorBefore(widths, lineHeight, k).x <= k * MaxWidth(widths)
    ensures CursorBefore(widths, lineHeight, k).y == 0
    decreases k
  {
    if k == 0 {
      assert widths[..0] == [];
    } else {
      var m := MaxWidth(widths);
      NarrowRangeNeverWraps(widths, lineHeight, k - 1);
      PlacementStep(widths, lineHeight, k - 1);
      NarrowCursorStep(CursorBefore(widths, lineHeight, k - 1).x, widths[k - 1], m, k - 1, |widths|);
    }
  }

  lemma NarrowCursorStep(cx: int, w: nat, m: nat, k: nat, n: nat)
    requires 0 <= cx <= k * m && w <= m && k < n && m * n < TexSizeLimit
    ensures cx + w <= (k + 1) * m < TexSizeLimit
  {
    MulMonotone(k + 1, n, m);
  }

  /** The texture width `calc_font_tex_size` computes holds every glyph, as
      long as no glyph is wider than the limit. */
  lemma GlyphsFitTexWidth(widths: seq<nat>, lineHeight: int, i: nat)
    requires i < |widths| && MaxWidth(widths) <= TexSizeLimit
    ensures 0 <= Placed(widths, lineHeight).0[i].x
    ensures Placed(widths, lineHeight).0[i].x + widths[i]
         <= FontTexSizeAsWritten(MaxWidth(widths), |widths|, lineHeight).0
  {
    GlyphWithinRow(widths, lineHeight, i);
    if MaxWidth(widths) * |widths| < TexSizeLimit {
      NarrowRangeNeverWraps(widths, lineHeight, i);
      PlacementStep(widths, lineHeight, i);
      NarrowCursorStep(CursorBefore(widths, lineHeight, i).x, widths[i], MaxWidth(widths), i, |widths|);
      MulMonotone(i + 1, |widths|, MaxWidth(widths));
    }
  }

  /** The as-written height can be short of the rows the placement uses:
      five glyphs 400 pixels wide with a 10-pixel line height take three rows
      (two glyphs fit per row), but the formula allots 10 * (2000 / 1024 + 1)
      = 20 pixels, so the last glyph's row starts at the texture's bottom
      edge and its pixels are written past the end of the buffer. */
  lemma TexHeightAsWrittenTooShort()
    ensures var widths: seq<nat> := [400, 400, 400, 400, 400];
      && FontTexSizeAsWritten(MaxWidth(widths), 5, 10).1 == 20
      && Placed(widths, 10).0[4] == Pos(0, 20)
      && FontTexHeight(widths, 10) == 30
      && !TexTooTall(FontTexSizeAsWritten(MaxWidth(widths), 5, 10).1)
  {
    var widths: seq<nat> := [400, 400, 400, 400, 400];
    assert MaxWidth(widths) == 400;
    var w1: seq<nat>, w2: seq<nat>, w3: seq<nat>, w4: seq<nat> := [400], [400, 400], [400, 400, 400], [400, 400, 400, 400];
    assert w1[..0] == [] && w2[..1] == w1 && w3[..2] == w2 && w4[..3] == w3 && widths[..4] == w4;
    assert Placed(w1, 10).1 == Pos(400, 0);
    assert Placed(w2, 10).1 == Pos(800, 0);
    assert Placed(w3, 10).1 == Pos(400, 10);
    assert Placed(w4, 10).1 == Pos(800, 10);
  }

  /** `n` glyphs of the same width `w`. */
  function SameWidths(n: nat, w: nat): (r: seq<nat>)
    ensures |r| == n && forall i :: 0 <= i < n ==> r[i] == w
  {
    seq(n, _ => w)
  }

  lemma MulSucc(a: int, b: int)
    ensures a * (b + 1) == a * b + a && (b + 1) * a == b * a + a
  {
  }

  /** How many glyphs of width `w` share a row. */
  lemma PerRowBounds(w: nat)
    requires 0 < w <= TexSizeLimit
    ensures TexSizeLimit / w >= 1
    ensures w * (TexSizeLimit / w) <= TexSizeLimit < w * (TexSizeLimit / w) + w
  {
    DivModParts(TexSizeLimit, w);
  }

  /** The column and row of glyph k from those of glyph k - 1, when
      `perRow` glyphs of width `w` fill a row: a full row wraps. */
  lemma ColumnStep(k: nat, perRow: nat, w: nat, lineHeight: int)
    requires k >= 1 && perRow >= 1 && w * perRow <= TexSizeLimit < w * perRow + w
    ensures var q, m := (k - 1) / perRow, (k - 1) % perRow;
      && (m == perRow - 1 ==>
            w * m + w + w > TexSizeLimit && w * (k % perRow) == 0 && lineHeight * (k / perRow) == lineHeight * q + lineHeight)
      && (m != perRow - 1 ==>
            w * m + w + w <= TexSizeLimit && w * (k % perRow) == w * m + w && lineHeight * (k / perRow) == lineHeight * q)
  {
    var q: nat, m: nat := (k - 1) / perRow, (k - 1) % perRow;
    DivModParts(k - 1, perRow);
    MulSucc(w, m);
    if m == perRow - 1 {
      MulSucc(lineHeight, q);
      MulSucc(perRow, q);
      FlatIndexRoundTrip(q + 1, 0, perRow);
    } else {
      MulSucc(w, m + 1);
      MulMonotone(m + 2, perRow, w);
      FlatIndexRoundTrip(q, m + 1, perRow);
    }
  }

  /** With every glyph `w` pixels wide, `TexSizeLimit / w` glyphs share a
      row: glyph k sits in column k mod that count, on row k div it. */
  lemma {:induction false} SameWidthPlacement(n: nat, w: nat, lineHeight: int, k: nat)
    requires 0 < w <= TexSizeLimit && k < n
    ensures var perRow := TexSizeLimit / w;
      Placed(SameWidths(n, w), lineHeight).0[k] == Pos(w * (k % perRow), lineHeight * (k / perRow))
  {
    var widths := SameWidths(n, w);
    PerRowBounds(w);
    PlacementStep(widths, lineHeight, k);
    if k == 0 {
      assert widths[..0] == [];
    } else {
      SameWidthPlacement(n, w, lineHeight, k - 1);
      PlacementStep(widths, lineHeight, k - 1);
      ColumnStep(k, TexSizeLimit / w, w, lineHeight);
    }
  }

  /** The same shortfall with a printable-ASCII range of 95 glyphs, all 43
      pixels wide: 23 glyphs fit a row, so the glyphs take 5 rows, but the
      formula allots 4 lines (4085 / 1024 = 3, plus one), and the last glyph's
      row starts at the texture's bottom edge. */
  lemma TexHeightAsWrittenTooShortAscii(lineHeight: int)
    requires 0 < lineHeight <= TexSizeLimit / 5
    ensures var widths := SameWidths(95, 43);
      && FontTexSizeAsWritten(MaxWidth(widths), 95, lineHeight).1 == 4 * lineHeight
      && Placed(widths, lineHeight).0[94] == Pos(86, 4 * lineHeight)
      && FontTexHeight(widths, lineHeight) == 5 * lineHeight
      && !TexTooTall(FontTexSizeAsWritten(MaxWidth(widths), 95, lineHeight).1)
  {
    var widths := SameWidths(95, 43);
    assert widths[0] <= MaxWidth(widths);
    assert MaxWidth(widths) == 43;
    SameWidthPlacement(95, 43, lineHeight, 94);
  }

  /** A glyph taller than the line height reaches into the row below: two
      glyphs 600 pixels wide with a 10-pixel line height go to rows 0 and 10,
      so a 20-row bitmap at row 0 covers rows 10 to 19, where the second
      glyph is drawn, and a 20-row bitmap at row 10 ends 10 rows past the
      20-row texture. */
  lemma TallGlyphOverlapsNextRow()
    ensures var widths: seq<nat> := [600, 600];
      && Placed(widths, 10).0 == [Pos(0, 0), Pos(0, 10)]
      && FontTexHeight(widths, 10) == 20
  {
    var widths: seq<nat> := [600, 600];
    assert widths[..1] == [600];
    assert Placed([600], 10).1 == Pos(600, 0);
  }

  // ---------------------------------------------------------------------------
  // Kerning table

  /** Where the kerning of "glyph j, then glyph i" is stored. */
  function KerningIndex(i: nat, j: nat, rangeSize: nat): (r: nat)
    requires i < rangeSize && j < rangeSize
    ensures r < rangeSize * rangeSize
  {
    FlatIndexInRange(i, j, rangeSize, rangeSize);
    FlatIndex(i, j, rangeSize)
  }

  /** Each pair has its own entry. */
  lemma KerningIndexInjective(i1: nat, j1: nat, i2: nat, j2: nat, rangeSize: nat)
    requires i1 < rangeSize && j1 < rangeSize && i2 < rangeSize && j2 < rangeSize
    requires KerningIndex(i1, j1, rangeSize) == KerningIndex(i2, j2, rangeSize)
    ensures i1 == i2 && j1 == j2
  {
    FlatIndexInjective(i1, j1, i2, j2, rangeSize);
  }

  /** The kerning loop for glyph `i`: entry j of row i gets the whole-pixel
      kerning of (glyph j, glyph i); nothing else changes. */
  method StoreKerningRow(kernings: array<int>, rangeSize: nat, i: nat, kerningX: seq<int>)
    requires kernings.Length == rangeSize * rangeSize && i < rangeSize && |kerningX| == rangeSize
    modifies kernings
    ensures forall j :: 0 <= j < rangeSize ==> kernings[KerningIndex(i, j, rangeSize)] == Px(kerningX[j])
    ensures forall k :: 0 <= k < kernings.Length && !(i * rangeSize <= k < i * rangeSize + rangeSize) ==>
              kernings[k] == old(kernings[k])
  {
    var j := 0;
    while j < rangeSize
      invariant 0 <= j <= rangeSize
      invariant forall j' :: 0 <= j' < j ==> kernings[KerningIndex(i, j', rangeSize)] == Px(kerningX[j'])
      invariant forall k :: 0 <= k < kernings.Length && !(i * rangeSize <= k < i * rangeSize + j) ==>
                  kernings[k] == old(kernings[k])
    {
      kernings[KerningIndex(i, j, rangeSize)] := kerningX[j] / 64;
      j := j + 1;
    }
  }

  // ---------------------------------------------------------------------------
  // Pixels

  /** Every pixel starts as transparent white. */
  method InitTexPixels(pxData: array<bv8>, pxCnt: nat)
    requires pxData.Length == pxCnt * TexChannelCnt
    modifies pxData
    ensures forall k :: 0 <= k < pxData.Length ==> pxData[k] == if k % 4 == 3 then 0 else 255
  {
    var i := 0;
    while i < pxCnt
      invariant 0 <= i <= pxCnt
      invariant forall k :: 0 <= k < i * 4 ==> pxData[k] == if k % 4 == 3 then 0 else 255
    {
      var pxDataIndex := i * TexChannelCnt;
      pxData[pxDataIndex + 0] := 255;
      pxData[pxDataIndex + 1] := 255;
      pxData[pxDataIndex + 2] := 255;
      pxData[pxDataIndex + 3] := 0;
      i := i + 1;
    }
  }

  /** Index of the alpha byte of texture pixel (x, y). */
  function AlphaIndex(texWidth: nat, x: nat, y: nat): nat
  {
    (y * texWidth + x) * TexChannelCnt + 3
  }

  /** A glyph rectangle at (x0, y0) of `w` by `h` pixels lies inside a
      `texWidth` by `texHeight` texture. */
  ghost predicate RectInside(texWidth: nat, texHeight: nat, x0: nat, y0: nat, w: nat, h: nat)
  {
    x0 + w <= texWidth && y0 + h <= texHeight
  }

  /** The value byte `k` of the texture holds after drawing a glyph bitmap
      at (x0, y0), given its value `before`: byte `k` is overwritten only
      when it is the alpha byte of a pixel inside the glyph rectangle whose
      coverage is above 0, and then it takes that coverage. */
  function DrawnByte(texWidth: nat, x0: nat, y0: nat, w: nat, h: nat, bitmap: seq<bv8>, k: nat, before: bv8): bv8
    requires texWidth > 0 && |bitmap| == w * h
  {
    var p := k / TexChannelCnt;
    var x, y := p % texWidth - x0, p / texWidth - y0;
    if k % TexChannelCnt == 3 && 0 <= x < w && 0 <= y < h then
      FlatIndexInRange(y, x, h, w);
      if bitmap[FlatIndex(y, x, w)] > 0 then bitmap[FlatIndex(y, x, w)] else before
    else before
  }

  /** The alpha byte of pixel (x0 + x, y0 + y) decodes back to (x, y). */
  lemma AlphaIndexDecodes(texWidth: nat, x0: nat, y0: nat, x: nat, y: nat)
    requires x0 + x < texWidth
    ensures var k := AlphaIndex(texWidth, x0 + x, y0 + y);
      k % TexChannelCnt == 3 && (k / TexChannelCnt) % texWidth - x0 == x && (k / TexChannelCnt) / texWidth - y0 == y
  {
    FlatIndexRoundTrip(y0 + y, x0 + x, texWidth);
  }

  /** Whether bitmap pixel (x, y) has been visited when the drawing loops
      stand at row `row`, column `col`. */
  predicate Visited(x: int, y: int, row: int, col: int)
  {
    y < row || (y == row && x < col)
  }

  /** The value of byte `k` once the loops have visited every pixel before
      (`col`, `row`). */
  function DrawnSoFar(texWidth: nat, x0: nat, y0: nat, w: nat, h: nat, bitmap: seq<bv8>, k: nat, before: bv8, row: int, col: int): bv8
    requires texWidth > 0 && |bitmap| == w * h
  {
    var p := k / TexChannelCnt;
    var x, y := p % texWidth - x0, p / texWidth - y0;
    if Visited(x, y, row, col) then DrawnByte(texWidth, x0, y0, w, h, bitmap, k, before) else before
  }

  /** The drawing loops for one glyph: only alpha bytes inside its rectangle
      change, each to its coverage where that is above 0. */
  method DrawGlyph(pxData: array<bv8>, texWidth: nat, texHeight: nat, x0: nat, y0: nat, w: nat, h: nat, bitmap: seq<bv8>)
    requires texWidth > 0 && pxData.Length == texWidth * texHeight * TexChannelCnt
    requires RectInside(texWidth, texHeight, x0, y0, w, h) && |bitmap| == w * h
    modifies pxData
    ensures forall k :: 0 <= k < pxData.Length ==>
              pxData[k] == DrawnByte(texWidth, x0, y0, w, h, bitmap, k, old(pxData[k]))
  {
    ghost var before := pxData[..];
    var y := 0;
    while y < h
      invariant 0 <= y <= h
      invariant forall k :: 0 <= k < pxData.Length ==>
                  pxData[k] == DrawnSoFar(texWidth, x0, y0, w, h, bitmap, k, before[k], y, 0)
    {
      var x := 0;
      while x < w
        invariant 0 <= x <= w
        invariant forall k :: 0 <= k < pxData.Length ==>
                    pxData[k] == DrawnSoFar(texWidth, x0, y0, w, h, bitmap, k, before[k], y, x)
      {
        DrawPixel(pxData, texWidth, texHeight, x0, y0, w, h, bitmap, before, x, y);
        x := x + 1;
      }
      forall k | 0 <= k < pxData.Length
        ensures DrawnSoFar(texWidth, x0, y0, w, h, bitmap, k, before[k], y, w)
             == DrawnSoFar(texWidth, x0, y0, w, h, bitmap, k, before[k], y + 1, 0)
      {
      }
      y := y + 1;
    }
    forall k | 0 <= k < pxData.Length
      ensures DrawnSoFar(texWidth, x0, y0, w, h, bitmap, k, before[k], h, 0)
           == DrawnByte(texWidth, x0, y0, w, h, bitmap, k, before[k])
    {
    }
  }

  /** One step of the drawing loops: pixel (x, y) of the bitmap. */
  method DrawPixel(pxData: array<bv8>, texWidth: nat, texHeight: nat, x0: nat, y0: nat, w: nat, h: nat,
                   bitmap: seq<bv8>, ghost before: seq<bv8>, x: nat, y: nat)
    requires texWidth > 0 && pxData.Length == texWidth * texHeight * TexChannelCnt == |before|
    requires RectInside(texWidth, texHeight, x0, y0, w, h) && |bitmap| == w * h
    requires x < w && y < h
    requires forall k :: 0 <= k < pxData.Length ==>
               pxData[k] == DrawnSoFar(texWidth, x0, y0, w, h, bitmap, k, before[k], y, x)
    modifies pxData
    ensures forall k :: 0 <= k < pxData.Length ==>
              pxData[k] == DrawnSoFar(texWidth, x0, y0, w, h, bitmap, k, before[k], y, x + 1)
  {
    FlatIndexInRange(y, x, h, w);
    var pxAlpha := bitmap[y * w + x];
    ghost var target := AlphaIndex(texWidth, x0 + x, y0 + y);
    AlphaIndexDecodes(texWidth, x0, y0, x, y);
    FlatIndexInRange(y0 + y, x0 + x, texHeight, texWidth);
    if pxAlpha > 0 {
      var pxX := x0 + x;
      var pxY := y0 + y;
      var pxDataIndex := (pxY * texWidth * TexChannelCnt) + (pxX * TexChannelCnt);
      assert pxDataIndex + 3 == target;
      pxData[pxDataIndex + 3] := pxAlpha;
    }
    forall k | 0 <= k < pxData.Length && k != target
      ensures DrawnSoFar(texWidth, x0, y0, w, h, bitmap, k, before[k], y, x)
           == DrawnSoFar(texWidth, x0, y0, w, h, bitmap, k, before[k], y, x + 1)
    {
      var p := k / TexChannelCnt;
      if p % texWidth - x0 == x && p / texWidth - y0 == y && k % TexChannelCnt == 3 {
        assert false;
      }
    }
  }

  // ---------------------------------------------------------------------------
  // The whole atlas

  datatype Option<T> = None | Some(value: T)

  /** A glyph as the font library renders it: bitmap size and coverage (row
      by row), 26.6 metrics, and at `kerningX[j]` the 26.6 horizontal
      kerning of glyph j followed by this glyph. */
  datatype Glyph = Glyph(
    bitmapWidth: nat, bitmapRows: nat, bitmap: seq<bv8>,
    horiBearingX: int, horiBearingY: int, horiAdvance: int,
    kerningX: seq<int>)

  datatype FontData = FontData(
    lineHeight: int,
    texWidth: nat,
    texHeight: nat,
    srcRects: seq<Rect>,
    charMetrics: seq<CharMetrics>,
    kernings: seq<int>)

  function Widths(glyphs: seq<Glyph>): (r: seq<nat>)
    ensures |r| == |glyphs| && forall i :: 0 <= i < |glyphs| ==> r[i] == glyphs[i].bitmapWidth
  {
    seq(|glyphs|, i requires 0 <= i < |glyphs| => glyphs[i].bitmapWidth)
  }

  /** Every bitmap holds width times rows coverage bytes and every kerning
      row covers the range, as FreeType's records do. Every glyph also fits a
      shelf: at most `TexSizeLimit` pixels wide and at most a line tall.
      `get_font_data_with_px` relies on this last condition without checking
      it; `TallGlyphOverlapsNextRow` shows a glyph that breaks it. */
  ghost predicate GlyphsShaped(glyphs: seq<Glyph>, lineHeight: int)
  {
    forall i :: 0 <= i < |glyphs| ==>
      && |glyphs[i].bitmap| == glyphs[i].bitmapWidth * glyphs[i].bitmapRows
      && |glyphs[i].kerningX| == |glyphs|
      && glyphs[i].bitmapWidth <= TexSizeLimit
      && glyphs[i].bitmapRows <= lineHeight
  }

  /** Whether byte `k` of a `texWidth`-wide texture belongs to a pixel of the
      rectangle at (x0, y0) of `w` by `h` pixels. */
  predicate InRect(texWidth: nat, x0: int, y0: int, w: int, h: int, k: nat)
  {
    texWidth > 0 &&
    var p := k / TexChannelCnt;
    x0 <= p % texWidth < x0 + w && y0 <= p / texWidth < y0 + h
  }

  /** Whether byte `k` belongs to the rectangle of one of the first `n`
      glyphs. */
  ghost predicate InSomeGlyph(texWidth: nat, glyphs: seq<Glyph>, lineHeight: int, n: nat, k: nat)
    requires n <= |glyphs|
  {
    exists i :: 0 <= i < n &&
      var p := Placed(Widths(glyphs), lineHeight).0[i];
      InRect(texWidth, p.x, p.y, glyphs[i].bitmapWidth, glyphs[i].bitmapRows, k)
  }

  /** Every colour byte of the atlas is still white. */
  ghost predicate ColourBytesWhite(px: seq<bv8>)
  {
    forall k :: 0 <= k < |px| && k % TexChannelCnt != 3 ==> px[k] == 255
  }

  /** Every alpha byte outside the first `n` glyph rectangles is still
      transparent. */
  ghost predicate TransparentOutsideGlyphs(px: seq<bv8>, texWidth: nat, glyphs: seq<Glyph>, lineHeight: int, n: nat)
    requires n <= |glyphs|
  {
    forall k :: 0 <= k < |px| && k % TexChannelCnt == 3 && !InSomeGlyph(texWidth, glyphs, lineHeight, n, k) ==> px[k] == 0
  }

  /** Glyph `g` drawn at `p` lies across the texture's width, and each of its
      pixels with coverage above 0 holds that coverage in the alpha byte of
      the atlas pixel it lands on. */
  ghost predicate GlyphDrawn(px: seq<bv8>, texWidth: nat, g: Glyph, p: Pos)
    requires |g.bitmap| == g.bitmapWidth * g.bitmapRows
  {
    && 0 <= p.x && p.x + g.bitmapWidth <= texWidth && 0 <= p.y
    && forall x: nat, y: nat :: x < g.bitmapWidth && y < g.bitmapRows ==>
         (FlatIndexInRange(y, x, g.bitmapRows, g.bitmapWidth);
          g.bitmap[FlatIndex(y, x, g.bitmapWidth)] > 0 ==>
            && AlphaIndex(texWidth, p.x + x, p.y + y) < |px|
            && px[AlphaIndex(texWidth, p.x + x, p.y + y)] == g.bitmap[FlatIndex(y, x, g.bitmapWidth)])
  }

  /** The first `n` glyphs are drawn at their placed positions. */
  ghost predicate GlyphsDrawn(px: seq<bv8>, texWidth: nat, glyphs: seq<Glyph>, lineHeight: int, n: nat)
    requires n <= |glyphs| && GlyphsShaped(glyphs, lineHeight)
  {
    forall i :: 0 <= i < n ==> GlyphDrawn(px, texWidth, glyphs[i], Placed(Widths(glyphs), lineHeight).0[i])
  }

  /** The atlas pixels once the first `n` glyphs are drawn. */
  ghost predicate AtlasDrawn(px: seq<bv8>, texWidth: nat, glyphs: seq<Glyph>, lineHeight: int, n: nat)
    requires n <= |glyphs| && GlyphsShaped(glyphs, lineHeight)
  {
    && ColourBytesWhite(px)
    && TransparentOutsideGlyphs(px, texWidth, glyphs, lineHeight, n)
    && GlyphsDrawn(px, texWidth, glyphs, lineHeight, n)
  }

  /** No pixel of an earlier glyph lies in a later glyph's rectangle. */
  lemma GlyphsDisjoint(glyphs: seq<Glyph>, lineHeight: int, i': nat, i: nat, x: nat, y: nat)
    requires GlyphsShaped(glyphs, lineHeight) && i' < i < |glyphs|
    requires x < glyphs[i'].bitmapWidth && y < glyphs[i'].bitmapRows
    ensures var q, p := Placed(Widths(glyphs), lineHeight).0[i'], Placed(Widths(glyphs), lineHeight).0[i];
      !(p.x <= q.x + x < p.x + glyphs[i].bitmapWidth && p.y <= q.y + y < p.y + glyphs[i].bitmapRows)
  {
    GlyphsInReadingOrder(Widths(glyphs), lineHeight, i', i);
  }

  /** Source rectangle `i` is glyph i's bitmap at its placed position, and
      that position lies inside the atlas. */
  ghost predicate RectPlaced(rect: Rect, glyphs: seq<Glyph>, lineHeight: int, texWidth: int, texHeight: int, i: nat)
    requires i < |glyphs|
  {
    var g, p := glyphs[i], Placed(Widths(glyphs), lineHeight).0[i];
    && rect.x == p.x && rect.y == p.y && rect.width == g.bitmapWidth && rect.height == g.bitmapRows
    && 0 <= p.x && p.x + g.bitmapWidth <= texWidth
    && 0 <= p.y && p.y + g.bitmapRows <= texHeight
  }

  /** The first `n` source rectangles are placed. */
  ghost predicate RectsPlaced(srcRects: seq<Rect>, glyphs: seq<Glyph>, lineHeight: int, texWidth: int, texHeight: int, n: nat)
    requires n <= |glyphs| && n <= |srcRects|
  {
    forall i :: 0 <= i < n ==> RectPlaced(srcRects[i], glyphs, lineHeight, texWidth, texHeight, i)
  }

  /** The first `n` glyph metrics are the glyphs' metrics in whole pixels. */
  ghost predicate MetricsStored(charMetrics: seq<CharMetrics>, glyphs: seq<Glyph>, ascender: int, n: nat)
    requires n <= |glyphs| && n <= |charMetrics|
  {
    forall i :: 0 <= i < n ==>
      charMetrics[i] == GlyphMetrics(ascender, glyphs[i].horiBearingX, glyphs[i].horiBearingY, glyphs[i].horiAdvance)
  }

  lemma RectsPlacedExtend(srcRects: seq<Rect>, rect: Rect, glyphs: seq<Glyph>, lineHeight: int,
                          texWidth: int, texHeight: int)
    requires |srcRects| < |glyphs|
    requires RectsPlaced(srcRects, glyphs, lineHeight, texWidth, texHeight, |srcRects|)
    requires RectPlaced(rect, glyphs, lineHeight, texWidth, texHeight, |srcRects|)
    ensures RectsPlaced(srcRects + [rect], glyphs, lineHeight, texWidth, texHeight, |srcRects| + 1)
  {
    var srcRects' := srcRects + [rect];
    forall i | 0 <= i < |srcRects'|
      ensures RectPlaced(srcRects'[i], glyphs, lineHeight, texWidth, texHeight, i)
    {
      if i < |srcRects| {
        assert srcRects'[i] == srcRects[i];
      }
    }
  }

  lemma MetricsStoredExtend(charMetrics: seq<CharMetrics>, glyphs: seq<Glyph>, ascender: int)
    requires |charMetrics| < |glyphs| && MetricsStored(charMetrics, glyphs, ascender, |charMetrics|)
    ensures var g := glyphs[|charMetrics|];
      MetricsStored(charMetrics + [GlyphMetrics(ascender, g.horiBearingX, g.horiBearingY, g.horiAdvance)],
                    glyphs, ascender, |charMetrics| + 1)
  {
  }

  /** The first `n` rows of the kerning table hold the glyphs' kernings in
      whole pixels. */
  ghost predicate KerningsStored(kernings: seq<int>, glyphs: seq<Glyph>, n: nat)
    requires n <= |glyphs| && |kernings| == |glyphs| * |glyphs|
    requires forall i :: 0 <= i < |glyphs| ==> |glyphs[i].kerningX| == |glyphs|
  {
    forall i, j :: 0 <= i < n && 0 <= j < |glyphs| ==>
      kernings[KerningIndex(i, j, |glyphs|)] == Px(glyphs[i].kerningX[j])
  }

  /** `get_font_data_with_px`, with the atlas height taken from the rows the
      placement uses. Returns the font data and its RGBA pixels, or nothing
      when the atlas would be taller than the limit. */
  method GetFontDataWithPx(heightMetric: int, ascender: int, glyphs: seq<Glyph>)
    returns (r: Option<FontData>, pxData: array?<bv8>)
    requires heightMetric >= 0 && |glyphs| > 0 && GlyphsShaped(glyphs, LineHeight(heightMetric))
    ensures r.None? <==> TexTooTall(FontTexHeight(Widths(glyphs), LineHeight(heightMetric)))
    ensures r.Some? ==>
      var fd, n := r.value, |glyphs|;
      && fd.lineHeight == LineHeight(heightMetric)
      && fd.texWidth == FontTexSizeAsWritten(MaxWidth(Widths(glyphs)), n, fd.lineHeight).0
      && fd.texHeight == FontTexHeight(Widths(glyphs), fd.lineHeight) <= TexSizeLimit
      && |fd.srcRects| == n && |fd.charMetrics| == n && |fd.kernings| == n * n
      && RectsPlaced(fd.srcRects, glyphs, fd.lineHeight, fd.texWidth, fd.texHeight, n)
      && MetricsStored(fd.charMetrics, glyphs, ascender, n)
      && KerningsStored(fd.kernings, glyphs, n)
    ensures r.Some? ==>
      && pxData != null && fresh(pxData)
      && pxData.Length == r.value.texWidth * r.value.texHeight * TexChannelCnt
      && AtlasDrawn(pxData[..], r.value.texWidth, glyphs, r.value.lineHeight, |glyphs|)
  {
    var n := |glyphs|;
    var widths := Widths(glyphs);
    var lineHeight := LineHeight(heightMetric);
    var largestWidth := CalcLargestBitmapWidth(widths);
    var texWidth := FontTexSizeAsWritten(largestWidth, n, lineHeight).0;
    var texHeight := FontTexHeight(widths, lineHeight);
    RowsInsideTexture(widths, lineHeight, 0);
    if texHeight > TexSizeLimit {
      return None, null;
    }
    var pxCnt := Product(texWidth, texHeight);
    pxData := new bv8[pxCnt * TexChannelCnt];
    InitTexPixels(pxData, pxCnt);

    var kernings := new int[Product(n, n)];
    var srcRects, charMetrics := LayOutGlyphs(glyphs, ascender, lineHeight, texWidth, texHeight, pxData, kernings);
    r := Some(FontData(lineHeight, texWidth, texHeight, srcRects, charMetrics, kernings[..]));
  }

  /** The glyph loop of `get_font_data_with_px`: each glyph is placed on the
      shelf (wrapping to a new row past the size limit), its metrics, source
      rectangle and kerning row are stored, and its bitmap is drawn into the
      atlas. */
  method LayOutGlyphs(glyphs: seq<Glyph>, ascender: int, lineHeight: int, texWidth: nat, texHeight: nat,
                      pxData: array<bv8>, kernings: array<int>)
    returns (srcRects: seq<Rect>, charMetrics: seq<CharMetrics>)
    requires lineHeight >= 0 && GlyphsShaped(glyphs, lineHeight)
    requires texWidth == FontTexSizeAsWritten(MaxWidth(Widths(glyphs)), |glyphs|, lineHeight).0
    requires texHeight == FontTexHeight(Widths(glyphs), lineHeight) <= TexSizeLimit
    requires pxData.Length == texWidth * texHeight * TexChannelCnt && kernings.Length == |glyphs| * |glyphs|
    requires pxData as object != kernings
    requires AtlasDrawn(pxData[..], texWidth, glyphs, lineHeight, 0)
    modifies pxData, kernings
    ensures |srcRects| == |glyphs| && |charMetrics| == |glyphs|
    ensures RectsPlaced(srcRects, glyphs, lineHeight, texWidth, texHeight, |glyphs|)
    ensures MetricsStored(charMetrics, glyphs, ascender, |glyphs|)
    ensures KerningsStored(kernings[..], glyphs, |glyphs|)
    ensures AtlasDrawn(pxData[..], texWidth, glyphs, lineHeight, |glyphs|)
  {
    var n := |glyphs|;
    var widths := Widths(glyphs);
    srcRects, charMetrics := [], [];
    var charDrawX, charDrawY := 0, 0;
    var i := 0;
    while i < n
      invariant 0 <= i <= n && |srcRects| == i && |charMetrics| == i
      invariant CursorBefore(widths, lineHeight, i) == Pos(charDrawX, charDrawY)
      invariant RectsPlaced(srcRects, glyphs, lineHeight, texWidth, texHeight, i)
      invariant MetricsStored(charMetrics, glyphs, ascender, i)
      invariant KerningsStored(kernings[..], glyphs, i)
      invariant AtlasDrawn(pxData[..], texWidth, glyphs, lineHeight, i)
    {
      var x0: nat, y0: nat;
      srcRects, charMetrics, x0, y0, charDrawX, charDrawY :=
        PlaceGlyph(glyphs, ascender, lineHeight, texWidth, texHeight, srcRects, charMetrics, charDrawX, charDrawY);
      ghost var pxBefore := pxData[..];
      StoreKerning(kernings, glyphs, i);
      assert pxData[..] == pxBefore;
      ghost var kerningsBefore := kernings[..];
      DrawGlyphInAtlas(pxData, texWidth, texHeight, glyphs, lineHeight, i, x0, y0);
      assert kernings[..] == kerningsBefore;
      i := i + 1;
    }
  }

  /** The shelf step of the glyph loop for glyph `i == |srcRects|`: it wraps
      to the start of the next row when it would pass the size limit from the
      cursor, its metrics and source rectangle are appended, and the cursor
      advances past it. The glyph's position `(x0, y0)` lies inside the atlas. */
  method PlaceGlyph(glyphs: seq<Glyph>, ascender: int, lineHeight: int, texWidth: nat, texHeight: nat,
                    srcRects: seq<Rect>, charMetrics: seq<CharMetrics>, charDrawX: int, charDrawY: int)
    returns (srcRects': seq<Rect>, charMetrics': seq<CharMetrics>, x0: nat, y0: nat, charDrawX': int, charDrawY': int)
    requires lineHeight >= 0 && GlyphsShaped(glyphs, lineHeight)
    requires texWidth == FontTexSizeAsWritten(MaxWidth(Widths(glyphs)), |glyphs|, lineHeight).0
    requires texHeight == FontTexHeight(Widths(glyphs), lineHeight) <= TexSizeLimit
    requires |srcRects| < |glyphs| && |charMetrics| == |srcRects|
    requires CursorBefore(Widths(glyphs), lineHeight, |srcRects|) == Pos(charDrawX, charDrawY)
    requires RectsPlaced(srcRects, glyphs, lineHeight, texWidth, texHeight, |srcRects|)
    requires MetricsStored(charMetrics, glyphs, ascender, |srcRects|)
    ensures |srcRects'| == |srcRects| + 1 && |charMetrics'| == |srcRects'|
    ensures CursorBefore(Widths(glyphs), lineHeight, |srcRects'|) == Pos(charDrawX', charDrawY')
    ensures RectsPlaced(srcRects', glyphs, lineHeight, texWidth, texHeight, |srcRects'|)
    ensures MetricsStored(charMetrics', glyphs, ascender, |srcRects'|)
    ensures Placed(Widths(glyphs), lineHeight).0[|srcRects|] == Pos(x0, y0)
    ensures RectInside(texWidth, texHeight, x0, y0, glyphs[|srcRects|].bitmapWidth, glyphs[|srcRects|].bitmapRows)
  {
    var i := |srcRects|;
    var g := glyphs[i];
    var widths := Widths(glyphs);
    PlacementStep(widths, lineHeight, i);
    var x, y := charDrawX, charDrawY;
    if x + g.bitmapWidth > TexSizeLimit {
      x := 0;
      y := y + lineHeight;
    }
    GlyphFitsAtlas(widths, lineHeight, i, texWidth, texHeight, g.bitmapRows);
    MetricsStoredExtend(charMetrics, glyphs, ascender);
    charMetrics' := charMetrics + [GlyphMetrics(ascender, g.horiBearingX, g.horiBearingY, g.horiAdvance)];
    var rect := Rect(x, y, g.bitmapWidth, g.bitmapRows);
    assert RectPlaced(rect, glyphs, lineHeight, texWidth, texHeight, i);
    RectsPlacedExtend(srcRects, rect, glyphs, lineHeight, texWidth, texHeight);
    srcRects' := srcRects + [rect];
    x0, y0 := x, y;
    charDrawX', charDrawY' := x + g.bitmapWidth, y;
  }

  function Product(a: nat, b: nat): (r: nat)
    ensures r == a * b
  {
    a * b
  }

  /** The kerning step of the glyph loop: row `i` is stored and the rows
      before it are kept. */
  method StoreKerning(kernings: array<int>, glyphs: seq<Glyph>, i: nat)
    requires i < |glyphs| && kernings.Length == |glyphs| * |glyphs|
    requires forall i :: 0 <= i < |glyphs| ==> |glyphs[i].kerningX| == |glyphs|
    requires KerningsStored(kernings[..], glyphs, i)
    modifies kernings
    ensures KerningsStored(kernings[..], glyphs, i + 1)
  {
    var n := |glyphs|;
    StoreKerningRow(kernings, n, i, glyphs[i].kerningX);
    forall i', j | 0 <= i' < i && 0 <= j < n
      ensures kernings[KerningIndex(i', j, n)] == Px(glyphs[i'].kerningX[j])
    {
      KerningRowBelow(i', j, i, n);
    }
  }

  /** Glyph `i` lies inside the atlas. */
  lemma GlyphFitsAtlas(widths: seq<nat>, lineHeight: int, i: nat, texWidth: int, texHeight: int, rows: nat)
    requires i < |widths| && lineHeight >= 0 && MaxWidth(widths) <= TexSizeLimit && rows <= lineHeight
    requires texWidth == FontTexSizeAsWritten(MaxWidth(widths), |widths|, lineHeight).0
    requires texHeight == FontTexHeight(widths, lineHeight)
    ensures var p := Placed(widths, lineHeight).0[i];
      0 <= p.x && p.x + widths[i] <= texWidth && 0 <= p.y && p.y + rows <= texHeight
  {
    GlyphsFitTexWidth(widths, lineHeight, i);
    RowsInsideTexture(widths, lineHeight, i);
  }

  /** Rows of the kerning table before row `i` end before it starts. */
  lemma KerningRowBelow(i': nat, j: nat, i: nat, n: nat)
    requires i' < i < n && j < n
    ensures KerningIndex(i', j, n) < i * n
  {
    MulMonotone(i' + 1, i, n);
  }

  /** The drawing step of the glyph loop, and what it keeps of the pixels. */
  method DrawGlyphInAtlas(pxData: array<bv8>, texWidth: nat, texHeight: nat, glyphs: seq<Glyph>, lineHeight: int,
                          i: nat, x0: nat, y0: nat)
    requires i < |glyphs| && GlyphsShaped(glyphs, lineHeight)
    requires pxData.Length == texWidth * texHeight * TexChannelCnt
    requires Placed(Widths(glyphs), lineHeight).0[i] == Pos(x0, y0)
    requires RectInside(texWidth, texHeight, x0, y0, glyphs[i].bitmapWidth, glyphs[i].bitmapRows)
    requires AtlasDrawn(pxData[..], texWidth, glyphs, lineHeight, i)
    modifies pxData
    ensures AtlasDrawn(pxData[..], texWidth, glyphs, lineHeight, i + 1)
  {
    var g := glyphs[i];
    if texWidth == 0 {
      // A zero-width atlas has no pixels and only empty glyphs.
      return;
    }
    ghost var before := pxData[..];
    DrawGlyph(pxData, texWidth, texHeight, x0, y0, g.bitmapWidth, g.bitmapRows, g.bitmap);
    forall k | 0 <= k < pxData.Length && k % TexChannelCnt != 3
      ensures pxData[k] == 255
    {
      assert before[k] == 255;
    }
    forall k | 0 <= k < pxData.Length && k % TexChannelCnt == 3 && !InSomeGlyph(texWidth, glyphs, lineHeight, i + 1, k)
      ensures pxData[k] == 0
    {
      assert !InRect(texWidth, x0, y0, g.bitmapWidth, g.bitmapRows, k);
      assert !InSomeGlyph(texWidth, glyphs, lineHeight, i, k);
      assert before[k] == 0;
    }
    forall i' | 0 <= i' < i
      ensures GlyphDrawn(pxData[..], texWidth, glyphs[i'], Placed(Widths(glyphs), lineHeight).0[i'])
    {
      EarlierGlyphKept(pxData[..], before, texWidth, texHeight, glyphs, lineHeight, i', i, x0, y0);
    }
    NewGlyphDrawn(pxData[..], before, texWidth, texHeight, glyphs, lineHeight, i, x0, y0);
  }

  /** Drawing glyph `i` keeps what an earlier glyph drew. */
  lemma EarlierGlyphKept(px: seq<bv8>, before: seq<bv8>, texWidth: nat, texHeight: nat, glyphs: seq<Glyph>,
                         lineHeight: int, i': nat, i: nat, x0: nat, y0: nat)
    requires i' < i < |glyphs| && GlyphsShaped(glyphs, lineHeight) && texWidth > 0
    requires Placed(Widths(glyphs), lineHeight).0[i] == Pos(x0, y0)
    requires |px| == |before|
    requires forall k :: 0 <= k < |px| ==>
               px[k] == DrawnByte(texWidth, x0, y0, glyphs[i].bitmapWidth, glyphs[i].bitmapRows, glyphs[i].bitmap, k, before[k])
    requires GlyphDrawn(before, texWidth, glyphs[i'], Placed(Widths(glyphs), lineHeight).0[i'])
    ensures GlyphDrawn(px, texWidth, glyphs[i'], Placed(Widths(glyphs), lineHeight).0[i'])
  {
    var g, q := glyphs[i'], Placed(Widths(glyphs), lineHeight).0[i'];
    forall x: nat, y: nat | x < g.bitmapWidth && y < g.bitmapRows
      ensures (FlatIndexInRange(y, x, g.bitmapRows, g.bitmapWidth);
               g.bitmap[FlatIndex(y, x, g.bitmapWidth)] > 0 ==>
                 && AlphaIndex(texWidth, q.x + x, q.y + y) < |px|
                 && px[AlphaIndex(texWidth, q.x + x, q.y + y)] == g.bitmap[FlatIndex(y, x, g.bitmapWidth)])
    {
      FlatIndexInRange(y, x, g.bitmapRows, g.bitmapWidth);
      if g.bitmap[FlatIndex(y, x, g.bitmapWidth)] > 0 {
        AlphaIndexDecodes(texWidth, q.x, q.y, x, y);
        GlyphsDisjoint(glyphs, lineHeight, i', i, x, y);
      }
    }
  }

  /** Drawing glyph `i` at its placed position draws it. */
  lemma NewGlyphDrawn(px: seq<bv8>, before: seq<bv8>, texWidth: nat, texHeight: nat, glyphs: seq<Glyph>,
                      lineHeight: int, i: nat, x0: nat, y0: nat)
    requires i < |glyphs| && GlyphsShaped(glyphs, lineHeight) && texWidth > 0
    requires Placed(Widths(glyphs), lineHeight).0[i] == Pos(x0, y0)
    requires RectInside(texWidth, texHeight, x0, y0, glyphs[i].bitmapWidth, glyphs[i].bitmapRows)
    requires |px| == |before| == texWidth * texHeight * TexChannelCnt
    requires forall k :: 0 <= k < |px| ==>
               px[k] == DrawnByte(texWidth, x0, y0, glyphs[i].bitmapWidth, glyphs[i].bitmapRows, glyphs[i].bitmap, k, before[k])
    ensures GlyphDrawn(px, texWidth, glyphs[i], Placed(Widths(glyphs), lineHeight).0[i])
  {
    var g := glyphs[i];
    forall x: nat, y: nat | x < g.bitmapWidth && y < g.bitmapRows
      ensures (FlatIndexInRange(y, x, g.bitmapRows, g.bitmapWidth);
               g.bitmap[FlatIndex(y, x, g.bitmapWidth)] > 0 ==>
                 && AlphaIndex(texWidth, x0 + x, y0 + y) < |px|
                 && px[AlphaIndex(texWidth, x0 + x, y0 + y)] == g.bitmap[FlatIndex(y, x, g.bitmapWidth)])
    {
      FlatIndexInRange(y, x, g.bitmapRows, g.bitmapWidth);
      FlatIndexInRange(y0 + y, x0 + x, texHeight, texWidth);
      AlphaIndexDecodes(texWidth, x0, y0, x, y);
    }
  }
}
