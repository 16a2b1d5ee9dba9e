/**
 * The layout decisions of AppearanceGeneratorHelper: padding, the bounding
 * box, the automatic font size, comb cells, the list box highlight and
 * rows, and the whole sequence of operations that makes up the generated
 * appearance of a variable-text field.
 */
module AppearanceLayout {
  import opened Cos
  import opened ContentStream
  import opened AppearanceOps

  /**
   * The font metrics the layout reads: string widths in glyph space
   * (thousandths of the font size), the font descriptor's ascent, descent
   * and cap height, the height of the font's bounding box, and the scale
   * factors of its font matrix.
   */
  datatype Font = Font(
    stringWidth: string -> real,
    ascent: real,
    descent: real,
    capHeight: real,
    bboxHeight: real,
    scaleX: real,
    scaleY: real)

  /** The kinds of variable-text field the generator tells apart. */
  datatype FieldKind =
    | TextField(multiline: bool, comb: bool, password: bool, fileSelect: bool, maxLen: int)
    | ListBox(exportValues: seq<string>, displayValues: seq<string>, values: seq<string>,
              selectedIndices: seq<int>, topIndex: int)
    | ComboBox

  /**
   * A variable-text field: its kind, quadding (Q), the font resource and
   * size of its default appearance string, and whether it has a format
   * action (AA /F).
   */
  datatype Field = Field(kind: FieldKind, q: int, fontName: string, daFontSize: real, hasFormatAction: bool) {
    predicate IsMultiline() {
      kind.TextField? && kind.multiline
    }
  }

  const QUADDING_LEFT: int := 0
  const QUADDING_CENTERED: int := 1
  const QUADDING_RIGHT: int := 2

  /** The font size Acrobat uses for an auto-sized multiline field. */
  const MULTILINE_AUTO_FONT_SIZE: real := 12.0

  /** Operations written before a failure, and the failure if there was one. */
  datatype Emitted = Emitted(ops: seq<Op>, error: Option<Error>)

  // ---------------------------------------------------------------- boxes

  /** applyPadding: every edge moves inward by the padding. */
  function ApplyPadding(box: Rect, padding: real): (r: Rect)
    ensures r.llx == box.llx + padding && r.lly == box.lly + padding
    ensures r.urx == box.urx - padding && r.ury == box.ury - padding
  {
    RectOfSize(box.llx + padding, box.lly + padding, box.Width() - 2.0 * padding, box.Height() - 2.0 * padding)
  }

  /** A non-negative padding no larger than half of each side keeps the box inside the original. */
  lemma PaddedWithin(box: Rect, padding: real)
    requires 0.0 <= padding && 2.0 * padding <= box.Width() && 2.0 * padding <= box.Height()
    ensures Within(ApplyPadding(box, padding), box)
    ensures ApplyPadding(box, padding).Width() >= 0.0 && ApplyPadding(box, padding).Height() >= 0.0
  {
  }

  /** Padding twice by p is padding once by 2p: the content rectangle lies 2p inside the box. */
  lemma PaddingAdds(box: Rect, p: real, p2: real)
    ensures ApplyPadding(ApplyPadding(box, p), p2) == ApplyPadding(box, p + p2)
  {
  }

  /**
   * resolveBoundingBox: the appearance stream's BBox, or the widget's
   * rectangle moved to the origin when the stream has none.
   */
  function ResolveBoundingBox(streamBBox: Option<Rect>, widgetRect: Rect): (r: Rect)
    ensures streamBBox.Some? ==> r == streamBBox.value
    ensures streamBBox.None? ==>
      (r.llx == 0.0 && r.lly == 0.0 && r.Width() == widgetRect.Width() && r.Height() == widgetRect.Height())
  {
    match streamBBox
    case Some(b) => b
    case None => Retranslated(widgetRect)
  }

  // ------------------------------------------------------------ font size

  /** The height the automatic size fits: cap height plus descender, or the font box when that is not positive. */
  function FitHeight(font: Font): real {
    var h := (font.capHeight - font.descent) * font.scaleY;
    if h <= 0.0 then font.bboxHeight * font.scaleY else h
  }

  /**
   * The automatic size is a finite number: the font matrix scales the
   * width, and the height it fits is not zero.
   */
  predicate AutosizeDefined(field: Field, font: Font, value: string) {
    field.daFontSize == 0.0 && !field.IsMultiline() ==> font.scaleX != 0.0 && FitHeight(font) != 0.0
  }

  /**
   * calculateFontSize: the size of the default appearance string; for size
   * 0 (auto), 12 in a multiline text field, and otherwise the largest size
   * at which the value fits the content rectangle both in width and in
   * height. A value of zero width fits any width (the division gives
   * +Infinity, which Math.min passes over), so the height decides.
   */
  function CalculateFontSize(field: Field, font: Font, value: string, contentRect: Rect): (r: real)
    requires AutosizeDefined(field, font, value)
    ensures field.daFontSize != 0.0 ==> r == field.daFontSize
    ensures field.daFontSize == 0.0 && field.IsMultiline() ==> r == MULTILINE_AUTO_FONT_SIZE
  {
    if field.daFontSize != 0.0 then field.daFontSize
    else if field.IsMultiline() then MULTILINE_AUTO_FONT_SIZE
    else
      var yScalingFactor := 1000.0 * font.scaleY;
      var xScalingFactor := 1000.0 * font.scaleX;
      var width := font.stringWidth(value) * font.scaleX;
      var heightBasedFontSize := contentRect.Height() / FitHeight(font) * yScalingFactor;
      if width == 0.0 then heightBasedFontSize
      else
        var widthBasedFontSize := contentRect.Width() / width * xScalingFactor;
        Min(heightBasedFontSize, widthBasedFontSize)
  }

  /**
   * For an auto-sized single-line field and a font with positive metrics,
   * the value set at the computed size is no wider than the content
   * rectangle, its cap height plus descender is no taller, and one of the
   * two fits exactly.
   */
  lemma AutosizeFits(field: Field, font: Font, value: string, contentRect: Rect)
    requires field.daFontSize == 0.0 && !field.IsMultiline()
    requires font.stringWidth(value) > 0.0 && font.scaleX != 0.0 && font.scaleY > 0.0
    requires font.capHeight - font.descent > 0.0
    ensures AutosizeDefined(field, font, value)
    ensures var size := CalculateFontSize(field, font, value, contentRect);
      && font.stringWidth(value) * size / 1000.0 <= contentRect.Width()
      && (font.capHeight - font.descent) * size / 1000.0 <= contentRect.Height()
      && (font.stringWidth(value) * size / 1000.0 == contentRect.Width()
          || (font.capHeight - font.descent) * size / 1000.0 == contentRect.Height())
  {
    var sw := font.stringWidth(value);
    var ch := font.capHeight - font.descent;
    var size := CalculateFontSize(field, font, value, contentRect);
    AutosizeIsMin(field, font, value, contentRect);
    var w := contentRect.Width() * 1000.0 / sw;
    var h := contentRect.Height() * 1000.0 / ch;
    ScaledBack(contentRect.Width(), sw, size);
    ScaledBack(contentRect.Height(), ch, size);
    if h <= w {
      assert size == h;
    } else {
      assert size == w;
    }
  }

  /** With positive metrics the automatic size is the smaller of the width-based and height-based sizes. */
  lemma AutosizeIsMin(field: Field, font: Font, value: string, contentRect: Rect)
    requires field.daFontSize == 0.0 && !field.IsMultiline()
    requires font.stringWidth(value) > 0.0 && font.scaleX != 0.0 && font.scaleY > 0.0
    requires font.capHeight - font.descent > 0.0
    ensures AutosizeDefined(field, font, value)
    ensures CalculateFontSize(field, font, value, contentRect)
      == Min(contentRect.Height() * 1000.0 / (font.capHeight - font.descent),
             contentRect.Width() * 1000.0 / font.stringWidth(value))
  {
    var sw := font.stringWidth(value);
    var ch := font.capHeight - font.descent;
    PositiveProduct(ch, font.scaleY);
    assert FitHeight(font) == ch * font.scaleY;
    FractionCancels(contentRect.Width(), sw, font.scaleX);
    FractionCancels(contentRect.Height(), ch, font.scaleY);
  }

  /**
   * When cap height plus descender is not positive, the height-based size
   * uses the height of the font's bounding box instead.
   */
  lemma AutosizeBoxFallback(field: Field, font: Font, value: string, contentRect: Rect)
    requires field.daFontSize == 0.0 && !field.IsMultiline()
    requires font.stringWidth(value) > 0.0 && font.scaleX != 0.0 && font.scaleY > 0.0
    requires font.capHeight - font.descent <= 0.0 && font.bboxHeight > 0.0
    ensures AutosizeDefined(field, font, value)
    ensures CalculateFontSize(field, font, value, contentRect)
      == Min(contentRect.Height() * 1000.0 / font.bboxHeight,
             contentRect.Width() * 1000.0 / font.stringWidth(value))
  {
    var sw := font.stringWidth(value);
    NonPositiveProduct(font.capHeight - font.descent, font.scaleY);
    PositiveProduct(font.bboxHeight, font.scaleY);
    assert FitHeight(font) == font.bboxHeight * font.scaleY;
    FractionCancels(contentRect.Width(), sw, font.scaleX);
    FractionCancels(contentRect.Height(), font.bboxHeight, font.scaleY);
  }

  /**
   * A value of zero width, such as the empty value of a cleared field, is
   * sized by height alone: its cap height plus descender fills the content
   * rectangle's height.
   */
  lemma AutosizeZeroWidth(field: Field, font: Font, value: string, contentRect: Rect)
    requires field.daFontSize == 0.0 && !field.IsMultiline()
    requires font.stringWidth(value) == 0.0 && font.scaleX != 0.0 && font.scaleY > 0.0
    requires font.capHeight - font.descent > 0.0
    ensures AutosizeDefined(field, font, value)
    ensures CalculateFontSize(field, font, value, contentRect)
      == contentRect.Height() * 1000.0 / (font.capHeight - font.descent)
    ensures (font.capHeight - font.descent) * CalculateFontSize(field, font, value, contentRect) / 1000.0
      == contentRect.Height()
  {
    var ch := font.capHeight - font.descent;
    PositiveProduct(ch, font.scaleY);
    assert FitHeight(font) == ch * font.scaleY;
    FractionCancels(contentRect.Height(), ch, font.scaleY);
    ScaledBack(contentRect.Height(), ch, CalculateFontSize(field, font, value, contentRect));
  }

  lemma NonPositiveProduct(a: real, b: real)
    requires a <= 0.0 && b > 0.0
    ensures a * b <= 0.0
  {
  }

  lemma PositiveProduct(a: real, b: real)
    requires a > 0.0 && b > 0.0
    ensures a * b > 0.0
  {
  }

  lemma FractionCancels(a: real, d: real, s: real)
    requires d != 0.0 && s != 0.0
    ensures a / (d * s) * (1000.0 * s) == a * 1000.0 / d
  {
    calc {
      a / (d * s) * (1000.0 * s);
      (a * 1000.0 / d) * (s / s);
      a * 1000.0 / d;
    }
  }

  /** A size no larger than c*1000/d sets a length d per 1000 within c, exactly at equality. */
  lemma ScaledBack(c: real, d: real, size: real)
    requires d > 0.0
    ensures size <= c * 1000.0 / d ==> d * size / 1000.0 <= c
    ensures size == c * 1000.0 / d ==> d * size / 1000.0 == c
  {
  }

  // ----------------------------------------------------------------- comb

  /**
   * shallComb: a comb text field that is neither multiline, password nor
   * file select.
   */
  predicate ShallComb(field: Field) {
    field.kind.TextField? && field.kind.comb && !field.kind.multiline
      && !field.kind.password && !field.kind.fileSelect
  }

  /**
   * The comb layout is chosen by the flags alone: it never depends on
   * MaxLen, and a multiline, password or file-select field never gets it.
   */
  lemma ShallCombIgnoresMaxLen(field: Field, maxLen: int)
    requires field.kind.TextField?
    ensures ShallComb(field.(kind := field.kind.(maxLen := maxLen))) == ShallComb(field)
    ensures ShallComb(field) ==> !field.IsMultiline() && !field.kind.password && !field.kind.fileSelect
  {
  }

  /** Half the width of the i-th character at the font size (currCharWidth). */
  function CombHalfWidth(font: Font, fontSize: real, value: string, i: nat): real
    requires i < |value|
  {
    font.stringWidth(value[i..i + 1]) / 1000.0 * fontSize / 2.0
  }

  /** The horizontal move before the i-th character (xOffset in the loop). */
  function CombOffset(combWidth: real, font: Font, fontSize: real, value: string, i: nat): real
    requires i < |value|
  {
    if i == 0 then combWidth / 2.0 - CombHalfWidth(font, fontSize, value, 0) / 2.0
    else combWidth + CombHalfWidth(font, fontSize, value, i - 1) / 2.0 - CombHalfWidth(font, fontSize, value, i) / 2.0
  }

  /** The two operations for the i-th comb character. */
  function CombChar(combWidth: real, baseline: real, font: Font, fontSize: real, value: string, i: nat): seq<Op>
    requires i < |value|
  {
    [NewLineAtOffset(CombOffset(combWidth, font, fontSize, value, i), if i == 0 then baseline else 0.0),
     ShowText(value[i..i + 1])]
  }

  /** The operations for the first n comb characters. */
  function CombChars(combWidth: real, baseline: real, font: Font, fontSize: real, value: string, n: nat): (ops: seq<Op>)
    requires n <= |value|
    ensures |ops| == 2 * n
    decreases n
  {
    if n == 0 then []
    else CombChars(combWidth, baseline, font, fontSize, value, n - 1) + CombChar(combWidth, baseline, font, fontSize, value, n - 1)
  }

  /** The n comb characters are shown one at a time and in order, each after a move. */
  lemma {:induction false} CombCharsShowText(combWidth: real, baseline: real, font: Font, fontSize: real, value: string,
                                             n: nat)
    requires n <= |value|
    ensures var ops := CombChars(combWidth, baseline, font, fontSize, value, n);
      forall i :: 0 <= i < n ==> ops[2 * i].NewLineAtOffset? && ops[2 * i + 1] == ShowText(value[i..i + 1])
  {
    if n > 0 {
      CombCharsShowText(combWidth, baseline, font, fontSize, value, n - 1);
      var prev := CombChars(combWidth, baseline, font, fontSize, value, n - 1);
      var ops := CombChars(combWidth, baseline, font, fontSize, value, n);
      assert ops == prev + CombChar(combWidth, baseline, font, fontSize, value, n - 1);
      forall i | 0 <= i < n
        ensures ops[2 * i].NewLineAtOffset? && ops[2 * i + 1] == ShowText(value[i..i + 1])
      {
        if i < n - 1 {
          assert ops[2 * i] == prev[2 * i] && ops[2 * i + 1] == prev[2 * i + 1];
        }
      }
    }
  }

  /** numChars: as many characters as the value has, but no more than MaxLen. */
  function CombCount(length: nat, maxLen: int): (n: nat)
    ensures n <= length
    ensures maxLen > 0 ==> n as int <= maxLen && (n == length || n as int == maxLen)
    ensures maxLen <= 0 ==> n == 0
  {
    if maxLen <= 0 then 0 else if length <= maxLen then length else maxLen
  }

  /** The width of one comb cell: the box width over MaxLen (only used when MaxLen is positive). */
  function CombWidth(bbox: Rect, maxLen: int): real {
    if maxLen > 0 then bbox.Width() / maxLen as real else 0.0
  }

  /** The baseline of the comb text: the text's ascent centred in the box, above the padding edge. */
  function CombBaseline(bbox: Rect, font: Font, fontSize: real): real {
    ApplyPadding(bbox, 1.0).lly + (bbox.Height() - font.ascent / 1000.0 * fontSize) / 2.0
  }

  /**
   * insertGeneratedCombAppearance: one text position and one character
   * per cell, for the first min(length, MaxLen) characters; the stream
   * must have a BBox.
   */
  function CombAppearance(maxLen: int, streamBBox: Option<Rect>, font: Font, fontSize: real, value: string): (e: Emitted)
    ensures streamBBox.None? ==> e == Emitted([], Some(NullPointer))
    ensures streamBBox.Some? ==> e.error.None? && |e.ops| == 2 * CombCount(|value|, maxLen)
  {
    match streamBBox
    case None => Emitted([], Some(NullPointer))
    case Some(bbox) =>
      Emitted(CombChars(CombWidth(bbox, maxLen), CombBaseline(bbox, font, fontSize), font, fontSize, value,
                        CombCount(|value|, maxLen)), None)
  }

  /** The sum of the horizontal moves of the text positioning operations. */
  function PenX(ops: seq<Op>): real {
    if ops == [] then 0.0
    else (if ops[0].NewLineAtOffset? then ops[0].tx else 0.0) + PenX(ops[1..])
  }

  /** The sum of the vertical moves of the text positioning operations. */
  function PenY(ops: seq<Op>): real {
    if ops == [] then 0.0
    else (if ops[0].NewLineAtOffset? then ops[0].ty else 0.0) + PenY(ops[1..])
  }

  lemma {:induction false} PenAppend(a: seq<Op>, b: seq<Op>)
    ensures PenX(a + b) == PenX(a) + PenX(b)
    ensures PenY(a + b) == PenY(a) + PenY(b)
  {
    if a == [] {
      assert a + b == b;
    } else {
      assert (a + b)[0] == a[0];
      assert (a + b)[1..] == a[1..] + b;
      PenAppend(a[1..], b);
    }
  }

  lemma PenOfCombChar(combWidth: real, baseline: real, font: Font, fontSize: real, value: string, i: nat)
    requires i < |value|
    ensures PenX(CombChar(combWidth, baseline, font, fontSize, value, i)) == CombOffset(combWidth, font, fontSize, value, i)
    ensures PenY(CombChar(combWidth, baseline, font, fontSize, value, i)) == if i == 0 then baseline else 0.0
  {
    var c := CombChar(combWidth, baseline, font, fontSize, value, i);
    var rest := c[1..];
    assert rest == [ShowText(value[i..i + 1])] && rest[1..] == [];
    assert PenX(rest) == 0.0 + PenX(rest[1..]) && PenY(rest) == 0.0 + PenY(rest[1..]);
    assert PenX(c) == c[0].tx + PenX(rest) && PenY(c) == c[0].ty + PenY(rest);
  }

  /**
   * Where the i-th comb character is shown: the text offsets add up to the
   * centre of cell i less a quarter of the character's width (the half
   * width is halved once more), on the baseline.
   */
  lemma {:induction false} CombPenPosition(combWidth: real, baseline: real, font: Font, fontSize: real, value: string, i: nat)
    requires i < |value|
    ensures var ops := CombChars(combWidth, baseline, font, fontSize, value, i + 1);
      && PenX(ops) == combWidth * i as real + combWidth / 2.0
                      - font.stringWidth(value[i..i + 1]) / 1000.0 * fontSize / 4.0
      && PenY(ops) == baseline
  {
    CombPenHalfWidth(combWidth, baseline, font, fontSize, value, i);
    var glyph := font.stringWidth(value[i..i + 1]) / 1000.0 * fontSize;
    assert CombHalfWidth(font, fontSize, value, i) == glyph / 2.0;
  }

  /** The same position in terms of the loop's half widths. */
  lemma {:induction false} CombPenHalfWidth(combWidth: real, baseline: real, font: Font, fontSize: real, value: string, i: nat)
    requires i < |value|
    ensures var ops := CombChars(combWidth, baseline, font, fontSize, value, i + 1);
      && PenX(ops) == combWidth * i as real + combWidth / 2.0 - CombHalfWidth(font, fontSize, value, i) / 2.0
      && PenY(ops) == baseline
  {
    var prev := CombChars(combWidth, baseline, font, fontSize, value, i);
    var c := CombChar(combWidth, baseline, font, fontSize, value, i);
    assert CombChars(combWidth, baseline, font, fontSize, value, i + 1) == prev + c;
    PenAppend(prev, c);
    PenOfCombChar(combWidth, baseline, font, fontSize, value, i);
    if i == 0 {
      assert prev == [];
    } else {
      CombPenHalfWidth(combWidth, baseline, font, fontSize, value, i - 1);
      assert combWidth * (i - 1) as real + combWidth == combWidth * i as real;
    }
  }

  // ------------------------------------------------------------- list box

  /**
   * The option to highlight: the first selected index when there is one,
   * else the position of the first value among the export values (-1 when
   * absent); 0 when there are no values or no options.
   */
  function SelectedIndex(listBox: FieldKind): (r: int)
    requires listBox.ListBox?
    ensures listBox.values == [] || listBox.exportValues == [] ==> r == 0
    ensures listBox.values != [] && listBox.exportValues != [] && listBox.selectedIndices != [] ==>
      r == listBox.selectedIndices[0]
    ensures listBox.values != [] && listBox.exportValues != [] && listBox.selectedIndices == [] ==>
      && (r == -1 <==> listBox.values[0] !in listBox.exportValues)
      && (r >= 0 ==> r < |listBox.exportValues| && listBox.exportValues[r] == listBox.values[0]
                     && listBox.values[0] !in listBox.exportValues[..r])
  {
    if listBox.values == [] || listBox.exportValues == [] then 0
    else if listBox.selectedIndices != [] then listBox.selectedIndices[0]
    else
      IndexOfBefore(listBox.exportValues, listBox.values[0]);
      IndexOf(listBox.exportValues, listBox.values[0])
  }

  /** The height of one highlight band: the font box at the font size, less 2. */
  function HighlightHeight(font: Font, fontSize: real): real {
    font.bboxHeight * fontSize / 1000.0 - 2.0
  }

  /** The band of the selected option, counted in rows down from the top of the padding edge. */
  function HighlightRect(bbox: Rect, font: Font, fontSize: real, selected: int, topIndex: int): Rect {
    var padding := ApplyPadding(bbox, 1.0);
    var h := HighlightHeight(font, fontSize);
    RectOfSize(padding.llx, padding.ury - h * (selected - topIndex + 1) as real, padding.Width(), h)
  }

  /**
   * The band of row k (k = selected - topIndex) spans the padding width and
   * runs from k band heights below the top of the padding edge down by one
   * band height, so the band of the top row touches the padding edge and
   * the bands of consecutive rows meet.
   */
  lemma HighlightBands(bbox: Rect, font: Font, fontSize: real, selected: int, topIndex: int)
    ensures var r := HighlightRect(bbox, font, fontSize, selected, topIndex);
      var h := HighlightHeight(font, fontSize);
      && r.llx == bbox.llx + 1.0 && r.urx == bbox.urx - 1.0
      && r.ury == bbox.ury - 1.0 - h * (selected - topIndex) as real
      && r.Height() == h
      && HighlightRect(bbox, font, fontSize, selected + 1, topIndex).ury == r.lly
  {
    var h := HighlightHeight(font, fontSize);
    var k := (selected - topIndex) as real;
    assert h * (k + 1.0) == h * k + h;
    assert h * (k + 1.0 + 1.0) == h * (k + 1.0) + h;
  }

  /** insertGeneratedSelectionHighlight: fills the selected option's band in the highlight colour; needs the stream's BBox. */
  function HighlightAppearance(listBox: FieldKind, streamBBox: Option<Rect>, font: Font, fontSize: real): (e: Emitted)
    requires listBox.ListBox?
    ensures streamBBox.None? ==> e == Emitted([], Some(NullPointer))
    ensures streamBBox.Some? ==>
      (var r := HighlightRect(streamBBox.value, font, fontSize, SelectedIndex(listBox), listBox.topIndex);
       && e.error.None? && |e.ops| == 4 && e.ops[2] == Fill
       && e.ops[1] == AddRect(r.llx, r.lly, r.Width(), r.Height()))
  {
    match streamBBox
    case None => Emitted([], Some(NullPointer))
    case Some(bbox) =>
      var r := HighlightRect(bbox, font, fontSize, SelectedIndex(listBox), listBox.topIndex);
      Emitted([SetNonStrokingRGB(153, 193, 215), AddRect(r.llx, r.lly, r.Width(), r.Height()), Fill,
               SetNonStrokingGray(0)], None)
  }

  /** The width of a text at a font size, in text space units (glyph widths are in thousandths). */
  function TextWidth(font: Font, text: string, fontSize: real): real {
    font.stringWidth(text) / 1000.0 * fontSize
  }

  /**
   * The horizontal offset of the list box text for the quadding: none for
   * left, the free width less 4 for right and half of that for centred;
   * an unknown quadding fails, and centred or right need the stream's
   * BBox.
   */
  function QuaddingOffset(q: int, streamBBox: Option<Rect>, font: Font, fontSize: real, value: string): (r: Result<seq<Op>>)
    ensures q == QUADDING_LEFT ==> r == Ok([])
    ensures q != QUADDING_LEFT && q != QUADDING_CENTERED && q != QUADDING_RIGHT ==>
      r == Err(Io("Error: Unknown justification value:" + IntToString(q)))
    ensures (q == QUADDING_CENTERED || q == QUADDING_RIGHT) && streamBBox.Some? ==>
      var free := streamBBox.value.Width() - TextWidth(font, value, fontSize) - 4.0;
      r == Ok([NewLineAtOffset(if q == QUADDING_RIGHT then free else free / 2.0, 0.0)])
    ensures (q == QUADDING_CENTERED || q == QUADDING_RIGHT) && streamBBox.None? ==> r == Err(NullPointer)
  {
    if q == QUADDING_LEFT then Ok([])
    else if q == QUADDING_CENTERED || q == QUADDING_RIGHT then
      match streamBBox
      case None => Err(NullPointer)
      case Some(bbox) =>
        var fieldWidth := bbox.Width();
        var stringWidth := TextWidth(font, value, fontSize);
        var adjustAmount := fieldWidth - stringWidth - 4.0;
        Ok([NewLineAtOffset(if q == QUADDING_CENTERED then adjustAmount / 2.0 else adjustAmount, 0.0)])
    else Err(Io("Error: Unknown justification value:" + IntToString(q)))
  }

  /** The baseline of the k-th row shown: the ascent below the content top, then one font box height per row. */
  function RowY(contentRect: Rect, font: Font, fontSize: real, k: nat): real {
    contentRect.ury - font.ascent / 1000.0 * fontSize - k as real * (font.bboxHeight / 1000.0 * fontSize)
  }

  /**
   * Whether the row of option i ends its text object. As written, the
   * test compares i - topIndex with the last index; the corrected test
   * ends every row but the last option's, whose text object the caller
   * closes.
   */
  function EndsTextAfter(i: int, topIndex: int, optionCount: int, asWritten: bool): bool {
    if asWritten then i - topIndex != optionCount - 1 else i != optionCount - 1
  }

  /** The operations for the row of option i. */
  function ListboxRow(options: seq<string>, topIndex: nat, i: nat, contentRect: Rect, font: Font, fontSize: real,
                      asWritten: bool): seq<Op>
    requires topIndex <= i < |options|
  {
    (if i == topIndex then [] else [BeginText])
    + [NewLineAtOffset(contentRect.llx, RowY(contentRect, font, fontSize, i - topIndex)), ShowText(options[i])]
    + (if EndsTextAfter(i, topIndex, |options|, asWritten) then [EndText] else [])
  }

  /** The rows of the first count options from topIndex on. */
  function ListboxRows(options: seq<string>, topIndex: nat, count: nat, contentRect: Rect, font: Font,
                       fontSize: real, asWritten: bool): seq<Op>
    requires topIndex + count <= |options|
    decreases count
  {
    if count == 0 then []
    else ListboxRows(options, topIndex, count - 1, contentRect, font, fontSize, asWritten)
         + ListboxRow(options, topIndex, topIndex + count - 1, contentRect, font, fontSize, asWritten)
  }

  /**
   * insertGeneratedListboxAppearance: black text, the quadding offset, and
   * a row per display option from the top index on; a negative top index
   * fails on reading the option, after the first row's text position.
   */
  function ListboxAppearance(listBox: FieldKind, q: int, streamBBox: Option<Rect>, contentRect: Rect, font: Font,
                             fontSize: real, value: string, asWritten: bool): (e: Emitted)
    requires listBox.ListBox?
    ensures |e.ops| >= 1 && e.ops[0] == SetNonStrokingGray(0)
    ensures QuaddingOffset(q, streamBBox, font, fontSize, value).Err? ==>
      e == Emitted([SetNonStrokingGray(0)], Some(QuaddingOffset(q, streamBBox, font, fontSize, value).error))
    ensures QuaddingOffset(q, streamBBox, font, fontSize, value).Ok? ==>
      (e.error.Some? <==> listBox.topIndex < 0) && (e.error.Some? ==> e.error.value == IndexOutOfBounds)
  {
    var start := [SetNonStrokingGray(0)];
    match QuaddingOffset(q, streamBBox, font, fontSize, value)
    case Err(error) => Emitted(start, Some(error))
    case Ok(quad) =>
      var rows := ListboxRowsFrom(listBox.displayValues, listBox.topIndex, contentRect, font, fontSize, asWritten);
      Emitted(start + quad + rows.ops, rows.error)
  }

  /**
   * The loop over the options from topIndex on: every row, none when
   * topIndex is past the end, and a failure on reading option topIndex when
   * it is negative, after that row's text position is written.
   */
  function ListboxRowsFrom(options: seq<string>, topIndex: int, contentRect: Rect, font: Font, fontSize: real,
                           asWritten: bool): (e: Emitted)
    ensures e.error.Some? <==> topIndex < 0
    ensures topIndex < 0 ==>
      e == Emitted([NewLineAtOffset(contentRect.llx, RowY(contentRect, font, fontSize, 0))], Some(IndexOutOfBounds))
    ensures topIndex >= |options| ==> e == Emitted([], None)
    ensures 0 <= topIndex < |options| ==>
      e == Emitted(ListboxRows(options, topIndex, |options| - topIndex, contentRect, font, fontSize, asWritten), None)
  {
    if topIndex < 0 then
      Emitted([NewLineAtOffset(contentRect.llx, RowY(contentRect, font, fontSize, 0))], Some(IndexOutOfBounds))
    else if topIndex >= |options| then Emitted([], None)
    else Emitted(ListboxRows(options, topIndex, |options| - topIndex, contentRect, font, fontSize, asWritten), None)
  }

  /**
   * With the corrected test, inside the text object the caller opened the
   * rows alternate cleanly: after the first count rows a text object is
   * open exactly when no row was written yet or the last option's row was.
   */
  lemma {:induction false} ListboxRowsTextState(options: seq<string>, topIndex: nat, count: nat, contentRect: Rect,
                                                font: Font, fontSize: real)
    requires topIndex + count <= |options|
    ensures TextState(ListboxRows(options, topIndex, count, contentRect, font, fontSize, false), true)
      == Some(count == 0 || topIndex + count == |options|)
  {
    if count > 0 {
      var prev := ListboxRows(options, topIndex, count - 1, contentRect, font, fontSize, false);
      var row := ListboxRow(options, topIndex, topIndex + count - 1, contentRect, font, fontSize, false);
      ListboxRowsTextState(options, topIndex, count - 1, contentRect, font, fontSize);
      TextStateAppend(prev, row, true);
      RowTextState(options, topIndex, topIndex + count - 1, contentRect, font, fontSize, false);
    }
  }

  /** One row: it needs the text object open exactly when it is the first, and leaves it open when it does not end it. */
  lemma RowTextState(options: seq<string>, topIndex: nat, i: nat, contentRect: Rect, font: Font, fontSize: real,
                     asWritten: bool)
    requires topIndex <= i < |options|
    ensures TextState(ListboxRow(options, topIndex, i, contentRect, font, fontSize, asWritten), i == topIndex)
      == Some(!EndsTextAfter(i, topIndex, |options|, asWritten))
  {
    var row := ListboxRow(options, topIndex, i, contentRect, font, fontSize, asWritten);
    var body := [NewLineAtOffset(contentRect.llx, RowY(contentRect, font, fontSize, i - topIndex)), ShowText(options[i])];
    var head: seq<Op> := if i == topIndex then [] else [BeginText];
    var tail: seq<Op> := if EndsTextAfter(i, topIndex, |options|, asWritten) then [EndText] else [];
    assert row == head + (body + tail);
    TextStateAppend(head, body + tail, i == topIndex);
    TextStateAppend(body, tail, true);
    assert TextState(head, i == topIndex) == Some(true) by {
      if i != topIndex {
        assert head[1..] == [];
      }
    }
    assert TextState(body, true) == Some(true) by {
      assert body[1..][1..] == [];
    }
    if tail != [] {
      assert tail[1..] == [];
    }
  }

  /**
   * As written, a list box scrolled down (0 < topIndex < number of options)
   * ends the text object after its last row as well, so the EndText that
   * insertGeneratedAppearance writes next comes outside any text object.
   */
  lemma {:induction false} ListboxAsWrittenUnbalanced(options: seq<string>, topIndex: nat, contentRect: Rect,
                                                      font: Font, fontSize: real)
    requires 0 < topIndex < |options|
    ensures TextState(ListboxRows(options, topIndex, |options| - topIndex, contentRect, font, fontSize, true) + [EndText], true)
      == None
  {
    var count := |options| - topIndex;
    var rows := ListboxRows(options, topIndex, count, contentRect, font, fontSize, true);
    AsWrittenRowsClose(options, topIndex, count, contentRect, font, fontSize);
    TextStateAppend(rows, [EndText], true);
  }

  /** As written with topIndex > 0, every row closes its text object. */
  lemma {:induction false} AsWrittenRowsClose(options: seq<string>, topIndex: nat, count: nat, contentRect: Rect,
                                              font: Font, fontSize: real)
    requires 0 < topIndex && 0 < count && topIndex + count <= |options|
    ensures TextState(ListboxRows(options, topIndex, count, contentRect, font, fontSize, true), true) == Some(false)
  {
    var prev := ListboxRows(options, topIndex, count - 1, contentRect, font, fontSize, true);
    var i := topIndex + count - 1;
    var row := ListboxRow(options, topIndex, i, contentRect, font, fontSize, true);
    TextStateAppend(prev, row, true);
    RowTextState(options, topIndex, i, contentRect, font, fontSize, true);
    if count > 1 {
      AsWrittenRowsClose(options, topIndex, count - 1, contentRect, font, fontSize);
    }
  }

  /** The two options ["a", "b"] scrolled to the second one end up with an EndText outside a text object. */
  lemma ListboxAsWrittenExample(contentRect: Rect, font: Font, fontSize: real)
    ensures TextState(ListboxRows(["a", "b"], 1, 1, contentRect, font, fontSize, true) + [EndText], true) == None
    ensures TextState(ListboxRows(["a", "b"], 1, 1, contentRect, font, fontSize, false) + [EndText], true) == Some(false)
  {
    ListboxAsWrittenUnbalanced(["a", "b"], 1, contentRect, font, fontSize);
    var rows := ListboxRows(["a", "b"], 1, 1, contentRect, font, fontSize, false);
    ListboxRowsTextState(["a", "b"], 1, 1, contentRect, font, fontSize);
    TextStateAppend(rows, [EndText], true);
  }

  /** The whole list box part keeps the caller's text object open (corrected test). */
  lemma ListboxAppearanceTextState(listBox: FieldKind, q: int, streamBBox: Option<Rect>, contentRect: Rect, font: Font,
                                   fontSize: real, value: string)
    requires listBox.ListBox?
    requires ListboxAppearance(listBox, q, streamBBox, contentRect, font, fontSize, value, false).error.None?
    ensures TextState(ListboxAppearance(listBox, q, streamBBox, contentRect, font, fontSize, value, false).ops, true)
      == Some(true)
  {
    var options := listBox.displayValues;
    var topIndex := listBox.topIndex;
    var quad := QuaddingOffset(q, streamBBox, font, fontSize, value).value;
    var start := [SetNonStrokingGray(0)] + quad;
    assert TextState(start, true) == Some(true) by {
      TextStateAppend([SetNonStrokingGray(0)], quad, true);
      assert [SetNonStrokingGray(0)][1..] == [];
      if quad != [] {
        assert quad[1..] == [];
      }
    }
    var rows := ListboxRowsFrom(options, topIndex, contentRect, font, fontSize, false);
    TextStateAppend(start, rows.ops, true);
    if topIndex < |options| {
      ListboxRowsTextState(options, topIndex, |options| - topIndex, contentRect, font, fontSize);
    } else {
      assert start + rows.ops == start;
    }
  }

  // ----------------------------------------------------- whole appearance

  /** The comb characters run inside the open text object and leave it open. */
  lemma {:induction false} CombCharsTextState(combWidth: real, baseline: real, font: Font, fontSize: real, value: string, n: nat)
    requires n <= |value|
    ensures TextState(CombChars(combWidth, baseline, font, fontSize, value, n), true) == Some(true)
  {
    if n > 0 {
      var prev := CombChars(combWidth, baseline, font, fontSize, value, n - 1);
      var c := CombChar(combWidth, baseline, font, fontSize, value, n - 1);
      TextStateAppend(prev, c, true);
      CombCharsTextState(combWidth, baseline, font, fontSize, value, n - 1);
      assert c[1..][1..] == [];
      assert TextState(c[1..], true) == Some(true);
    }
  }

  /** The boxes and size insertGeneratedAppearance works with. */
  datatype Layout = Layout(bbox: Rect, clipRect: Rect, contentRect: Rect, fontSize: real)

  /**
   * The bounding box, the clip rectangle inside it and the content
   * rectangle inside that, each max(1, border width) further in, and the
   * font size fitted to the content rectangle.
   */
  function ComputeLayout(field: Field, value: string, borderWidth: real, streamBBox: Option<Rect>, widgetRect: Rect,
                         font: Font): (l: Layout)
    requires AutosizeDefined(field, font, value)
    ensures l.bbox == ResolveBoundingBox(streamBBox, widgetRect)
    ensures l.clipRect == ApplyPadding(l.bbox, Max(1.0, borderWidth))
    ensures l.contentRect == ApplyPadding(l.bbox, 2.0 * Max(1.0, borderWidth))
  {
    var bbox := ResolveBoundingBox(streamBBox, widgetRect);
    var padding := Max(1.0, borderWidth);
    var clipRect := ApplyPadding(bbox, padding);
    var contentRect := ApplyPadding(clipRect, padding);
    Layout(bbox, clipRect, contentRect, CalculateFontSize(field, font, value, contentRect))
  }

  /** Save the graphics state and clip to the rectangle. */
  function ClipOps(clipRect: Rect): seq<Op> {
    [SaveGraphicsState, AddRect(clipRect.llx, clipRect.lly, clipRect.Width(), clipRect.Height()), Clip]
  }

  /** The highlight, for a list box only. */
  function HighlightPart(field: Field, streamBBox: Option<Rect>, font: Font, fontSize: real): Emitted {
    if field.kind.ListBox? then HighlightAppearance(field.kind, streamBBox, font, fontSize) else Emitted([], None)
  }

  /** Open the text object and select the font of the default appearance at the size. */
  function TextStart(field: Field, fontSize: real): seq<Op> {
    [BeginText, SetFont(field.fontName, fontSize)]
  }

  /**
   * The text: comb cells, list box rows, or the value formatted from the
   * content rectangle's left edge and a baseline that is the font box
   * height below the content top (multiline) or centres the cap height in
   * the box.
   */
  function BodyPart(field: Field, value: string, streamBBox: Option<Rect>, layout: Layout, font: Font): Emitted {
    var fontSize := layout.fontSize;
    var fontScaleY := font.scaleY * fontSize;
    var y := if field.IsMultiline() then layout.contentRect.ury - font.bboxHeight * fontScaleY
             else Max((layout.bbox.Height() - font.capHeight * fontScaleY) / 2.0, 0.0);
    if ShallComb(field) then CombAppearance(field.kind.maxLen, streamBBox, font, fontSize, value)
    else if field.kind.ListBox? then
      ListboxAppearance(field.kind, field.q, streamBBox, layout.contentRect, font, fontSize, value, false)
    else Emitted([FormattedText(value, layout.contentRect.Width(), font.bboxHeight * fontScaleY,
                                field.IsMultiline(), layout.contentRect.llx, y, field.q)], None)
  }

  /** The parts in order, cut short at the first failure; a complete run closes the text object and the graphics state. */
  function Assemble(clip: seq<Op>, highlight: Emitted, text: seq<Op>, body: Emitted): (e: Emitted)
    ensures e.error == (if highlight.error.Some? then highlight.error else body.error)
    ensures e.error.None? ==> e.ops == clip + highlight.ops + text + body.ops + [EndText, RestoreGraphicsState]
  {
    if highlight.error.Some? then Emitted(clip + highlight.ops, highlight.error)
    else if body.error.Some? then Emitted(clip + highlight.ops + text + body.ops, body.error)
    else Emitted(clip + highlight.ops + text + body.ops + [EndText, RestoreGraphicsState], None)
  }

  /**
   * insertGeneratedAppearance: a clipped graphics state around the text
   * object; inside it the highlight (list box), then the text object with
   * the default appearance at the computed size, holding the comb cells,
   * the list box rows or the formatted value.
   */
  function GeneratedAppearance(field: Field, value: string, borderWidth: real, streamBBox: Option<Rect>,
                               widgetRect: Rect, font: Font): (e: Emitted)
    requires AutosizeDefined(field, font, value)
    ensures e.error.Some? ==> field.kind.ListBox? || (ShallComb(field) && streamBBox.None?)
  {
    var layout := ComputeLayout(field, value, borderWidth, streamBBox, widgetRect, font);
    Assemble(ClipOps(layout.clipRect), HighlightPart(field, streamBBox, font, layout.fontSize),
             TextStart(field, layout.fontSize), BodyPart(field, value, streamBBox, layout, font))
  }

  /** The parts run from outside a text object back to outside one when each part does its share. */
  lemma AssembleTextState(clip: seq<Op>, highlight: Emitted, text: seq<Op>, body: Emitted)
    requires highlight.error.None? && body.error.None?
    requires TextState(clip, false) == Some(false) && TextState(highlight.ops, false) == Some(false)
    requires TextState(text, false) == Some(true) && TextState(body.ops, true) == Some(true)
    ensures TextState(Assemble(clip, highlight, text, body).ops, false) == Some(false)
  {
    var trailer := [EndText, RestoreGraphicsState];
    assert TextState(trailer, true) == Some(false) by {
      TextStateConstant(trailer[1..], false);
      TextStateAppend([EndText], trailer[1..], true);
      assert [EndText] + trailer[1..] == trailer;
    }
    assert Assemble(clip, highlight, text, body).ops == clip + (highlight.ops + (text + (body.ops + trailer)));
    TextStateAppend(body.ops, trailer, true);
    TextStateAppend(text, body.ops + trailer, false);
    TextStateAppend(highlight.ops, text + (body.ops + trailer), false);
    TextStateAppend(clip, highlight.ops + (text + (body.ops + trailer)), false);
  }

  lemma ClipOpsTextState(clipRect: Rect)
    ensures TextState(ClipOps(clipRect), false) == Some(false)
  {
    TextStateConstant(ClipOps(clipRect), false);
  }

  lemma HighlightPartTextState(field: Field, streamBBox: Option<Rect>, font: Font, fontSize: real)
    ensures TextState(HighlightPart(field, streamBBox, font, fontSize).ops, false) == Some(false)
  {
    TextStateConstant(HighlightPart(field, streamBBox, font, fontSize).ops, false);
  }

  lemma TextStartTextState(field: Field, fontSize: real)
    ensures TextState(TextStart(field, fontSize), false) == Some(true)
  {
    var text := TextStart(field, fontSize);
    TextStateConstant(text[1..], true);
    TextStateAppend([BeginText], text[1..], false);
    assert [BeginText] + text[1..] == text;
  }

  lemma BodyPartTextState(field: Field, value: string, streamBBox: Option<Rect>, layout: Layout, font: Font)
    requires BodyPart(field, value, streamBBox, layout, font).error.None?
    ensures TextState(BodyPart(field, value, streamBBox, layout, font).ops, true) == Some(true)
  {
    var fontSize := layout.fontSize;
    if ShallComb(field) {
      var b := streamBBox.value;
      CombCharsTextState(CombWidth(b, field.kind.maxLen), CombBaseline(b, font, fontSize), font, fontSize, value,
                         CombCount(|value|, field.kind.maxLen));
    } else if field.kind.ListBox? {
      ListboxAppearanceTextState(field.kind, field.q, streamBBox, layout.contentRect, font, fontSize, value);
    } else {
      assert BodyPart(field, value, streamBBox, layout, font).ops[1..] == [];
    }
  }

  /**
   * A generated appearance that completes obeys the text-object rules: it
   * starts and ends outside a text object, with BT and ET alternating and
   * every graphics-state, path, text-positioning and text-showing operator
   * on its own side of them.
   */
  lemma GeneratedAppearanceWellFormed(field: Field, value: string, borderWidth: real, streamBBox: Option<Rect>,
                                      widgetRect: Rect, font: Font)
    requires AutosizeDefined(field, font, value)
    requires GeneratedAppearance(field, value, borderWidth, streamBBox, widgetRect, font).error.None?
    ensures TextState(GeneratedAppearance(field, value, borderWidth, streamBBox, widgetRect, font).ops, false)
      == Some(false)
  {
    var layout := ComputeLayout(field, value, borderWidth, streamBBox, widgetRect, font);
    ClipOpsTextState(layout.clipRect);
    HighlightPartTextState(field, streamBBox, font, layout.fontSize);
    TextStartTextState(field, layout.fontSize);
    BodyPartTextState(field, value, streamBBox, layout, font);
    AssembleTextState(ClipOps(layout.clipRect), HighlightPart(field, streamBBox, font, layout.fontSize),
                      TextStart(field, layout.fontSize), BodyPart(field, value, streamBBox, layout, font));
  }
}
