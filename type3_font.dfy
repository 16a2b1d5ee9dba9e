/**
 * PDType3Font: a font whose glyphs are content streams (section 9.6.5 of
 * ISO 32000-1). The model covers how a glyph's width, the font's height,
 * its font matrix and its bounding box are found, falling back from the
 * font dictionary to the font descriptor and to the glyph procedures.
 *
 * What the font dictionary's other classes compute is an input here: the
 * /Widths list as PDFont reads it, the font descriptor's metrics, the
 * encoding's code-to-name table, and for each glyph procedure its width and
 * its glyph box as PDType3CharProc parses them from the d0/d1 operator.
 */
module Type3Font {
  import opened Cos

  const FIRST_CHAR: string := "FirstChar"
  const LAST_CHAR: string := "LastChar"
  const FONT_MATRIX: string := "FontMatrix"
  const FONT_BBOX: string := "FontBBox"
  const NOTDEF: string := ".notdef"

  /** A glyph procedure: its width, and its glyph box, each of which may fail to parse. */
  datatype Glyph = Glyph(width: Result<real>, bbox: Result<Rect>)

  /** An entry of /CharProcs: a glyph stream, or a value of another type. */
  datatype CharProcEntry = GlyphStream(glyph: Glyph) | OtherEntry

  /** PDFontDescriptor, through its getters (a missing number reads as 0). */
  datatype Descriptor = Descriptor(missingWidth: real, fontBBox: Option<Rect>, capHeight: real, ascent: real,
                                   xHeight: real, descent: real)

  /**
   * The font dictionary: its own entries (/FirstChar, /LastChar,
   * /FontMatrix, /FontBBox), the /Widths list, where a non-numeric element
   * is null, the font descriptor, the encoding's names by code, and
   * /CharProcs when it is a dictionary.
   */
  datatype FontDict = FontDict(entries: Dict, widths: seq<Option<real>>, descriptor: Option<Descriptor>,
                               encoding: map<int, string>, charProcs: Option<map<string, CharProcEntry>>)

  /** A transformation matrix [a b c d e f]. */
  datatype Matrix = Matrix(a: real, b: real, c: real, d: real, e: real, f: real)

  /** PDFont's default font matrix, [0.001 0 0 0.001 0 0]. */
  const DEFAULT_FONT_MATRIX: Matrix := Matrix(0.001, 0.0, 0.0, 0.001, 0.0, 0.0)

  /* Glyph procedures and widths */

  /** Encoding.getName: the glyph name of a code, .notdef for a code the encoding does not map. */
  function GlyphName(font: FontDict, code: int): string {
    if code in font.encoding then font.encoding[code] else NOTDEF
  }

  /**
   * getCharProc: the glyph stream named by the code's glyph name; none for
   * .notdef or a name whose entry is missing or not a stream. Looking a
   * name up in a missing /CharProcs is a NullPointerException.
   */
  function CharProc(font: FontDict, code: int): (r: Result<Option<Glyph>>)
    ensures GlyphName(font, code) == NOTDEF ==> r == Ok(None)
    ensures r.Err? <==> GlyphName(font, code) != NOTDEF && font.charProcs.None?
    ensures r.Err? ==> r.error == NullPointer
    ensures r.Ok? && r.value.Some? ==> var name := GlyphName(font, code);
              name != NOTDEF && name in font.charProcs.value && font.charProcs.value[name] == GlyphStream(r.value.value)
    ensures var name := GlyphName(font, code);
            name != NOTDEF && font.charProcs.Some? && name in font.charProcs.value && font.charProcs.value[name].GlyphStream?
            ==> r == Ok(Some(font.charProcs.value[name].glyph))
  {
    var name := GlyphName(font, code);
    if name == NOTDEF then Ok(None)
    else if font.charProcs.None? then Err(NullPointer)
    else if name in font.charProcs.value && font.charProcs.value[name].GlyphStream? then
      Ok(Some(font.charProcs.value[name].glyph))
    else Ok(None)
  }

  /** getWidthFromFont: the width of the code's glyph procedure, 0 when it has none. */
  function WidthFromFont(font: FontDict, code: int): (r: Result<real>)
    ensures CharProc(font, code) == Ok(None) ==> r == Ok(0.0)
    ensures GlyphName(font, code) == NOTDEF ==> r == Ok(0.0)
    ensures CharProc(font, code).Err? ==> r == Err(CharProc(font, code).error)
    ensures CharProc(font, code).Ok? && CharProc(font, code).value.Some? ==> r == CharProc(font, code).value.value.width
  {
    match CharProc(font, code)
    case Err(e) => Err(e)
    case Ok(None) => Ok(0.0)
    case Ok(Some(glyph)) => glyph.width
  }

  /** Whether getWidth reads the /Widths list for this code. */
  predicate InWidths(font: FontDict, code: int) {
    |font.widths| > 0 && GetInt(font.entries, FIRST_CHAR, -1) <= code <= GetInt(font.entries, LAST_CHAR, -1)
  }

  /**
   * getWidth: for a code between /FirstChar and /LastChar (each -1 when
   * missing) and a non-empty /Widths, the list's element at code −
   * FirstChar (an int subtraction), 0 for a null element; an index past the
   * list is an IndexOutOfBoundsException. Otherwise the descriptor's
   * MissingWidth, or without a descriptor the glyph procedure's width.
   */
  function Width(font: FontDict, code: int): (r: Result<real>)
    requires INT_MIN <= code <= INT_MAX
    ensures !InWidths(font, code) && font.descriptor.Some? ==> r == Ok(font.descriptor.value.missingWidth)
    ensures !InWidths(font, code) && font.descriptor.None? ==> r == WidthFromFont(font, code)
    ensures r.Err? && InWidths(font, code) ==> r.error == IndexOutOfBounds
  {
    if InWidths(font, code) then
      var i := WrapToInt(code - GetInt(font.entries, FIRST_CHAR, -1));
      if 0 <= i < |font.widths| then Ok(font.widths[i].GetOr(0.0)) else Err(IndexOutOfBounds)
    else if font.descriptor.Some? then Ok(font.descriptor.value.missingWidth)
    else WidthFromFont(font, code)
  }

  /**
   * A code inside the /FirstChar../LastChar range whose offset falls in the
   * /Widths list takes its width from the list, 0 for a null element; any
   * other offset is an IndexOutOfBoundsException.
   */
  lemma WidthInRange(font: FontDict, code: int)
    requires INT_MIN <= code <= INT_MAX && InWidths(font, code)
    ensures var first := GetInt(font.entries, FIRST_CHAR, -1);
            Width(font, code) ==
              if code - first < |font.widths| && code - first <= INT_MAX
              then Ok(if font.widths[code - first].Some? then font.widths[code - first].value else 0.0)
              else Err(IndexOutOfBounds)
  {
    var first := GetInt(font.entries, FIRST_CHAR, -1);
    var i := WrapToInt(code - first);
    if code - first > INT_MAX {
      assert i == code - first - 0x1_0000_0000;
    }
  }

  /**
   * The width of a code read from /Widths does not depend on the font
   * descriptor or on the glyph procedures: the fallbacks are not consulted.
   */
  lemma WidthsTakePrecedence(font: FontDict, other: FontDict, code: int)
    requires INT_MIN <= code <= INT_MAX && InWidths(font, code)
    requires other.entries == font.entries && other.widths == font.widths
    ensures Width(other, code) == Width(font, code)
  {
  }

  /* Height */

  /**
   * getHeight: with a descriptor, the first non-zero of half the descriptor's
   * FontBBox height, CapHeight and Ascent; failing those, XHeight less
   * Descent when XHeight is positive, else XHeight itself. Without a
   * descriptor, 0.
   */
  function Height(descriptor: Option<Descriptor>): (h: real)
    ensures descriptor.None? ==> h == 0.0
    ensures descriptor.Some? ==>
              var d := descriptor.value;
              var half := if d.fontBBox.Some? then d.fontBBox.value.Height() / 2.0 else 0.0;
              && (half != 0.0 ==> h == half)
              && (half == 0.0 && d.capHeight != 0.0 ==> h == d.capHeight)
              && (half == 0.0 && d.capHeight == 0.0 && d.ascent != 0.0 ==> h == d.ascent)
              && (half == 0.0 && d.capHeight == 0.0 && d.ascent == 0.0 ==>
                    h == if d.xHeight > 0.0 then d.xHeight - d.descent else d.xHeight)
  {
    if descriptor.None? then 0.0
    else
      var d := descriptor.value;
      var fromBox := if d.fontBBox.Some? then d.fontBBox.value.Height() / 2.0 else 0.0;
      var fromCap := if fromBox == 0.0 then d.capHeight else fromBox;
      var fromAscent := if fromCap == 0.0 then d.ascent else fromCap;
      if fromAscent == 0.0 then (if d.xHeight > 0.0 then d.xHeight - d.descent else d.xHeight)
      else fromAscent
  }

  /** The height is 0 only when every metric it may come from gives 0. */
  lemma HeightZero(d: Descriptor)
    ensures Height(Some(d)) == 0.0 <==>
              && (d.fontBBox.None? || d.fontBBox.value.Height() == 0.0)
              && d.capHeight == 0.0 && d.ascent == 0.0
              && (if d.xHeight > 0.0 then d.xHeight == d.descent else d.xHeight == 0.0)
  {
  }

  /* Font matrix */

  /** getDictionaryObject(FONT_MATRIX, COSArray.class): the /FontMatrix when it is an array. */
  function FontMatrixArray(font: FontDict): Option<seq<CosValue>> {
    match Lookup(font.entries, FONT_MATRIX)
    case Some(CosArray(items)) => Some(items)
    case _ => None
  }

  /** new Matrix(array): the first six elements as numbers. */
  function MatrixOfArray(items: seq<CosValue>): Matrix {
    Matrix(if |items| > 0 then NumberOr0(items[0]) else 0.0, if |items| > 1 then NumberOr0(items[1]) else 0.0,
           if |items| > 2 then NumberOr0(items[2]) else 0.0, if |items| > 3 then NumberOr0(items[3]) else 0.0,
           if |items| > 4 then NumberOr0(items[4]) else 0.0, if |items| > 5 then NumberOr0(items[5]) else 0.0)
  }

  /* Bounding box */

  /** getFontBBox: (COSArray) /FontBBox as a rectangle; null when missing. */
  function FontBBox(font: FontDict): (r: Result<Option<Rect>>)
    ensures r.Err? ==> r.error == ClassCast
    ensures r.Ok? && r.value.Some? ==> r.value.value.llx <= r.value.value.urx && r.value.value.lly <= r.value.value.ury
    ensures r == Ok(None) <==> Lookup(font.entries, FONT_BBOX).None?
    ensures r.Err? <==> Lookup(font.entries, FONT_BBOX).Some? && !Lookup(font.entries, FONT_BBOX).value.CosArray?
    ensures forall items :: Lookup(font.entries, FONT_BBOX) == Some(CosArray(items)) ==> r == Ok(Some(RectOfArray(items)))
  {
    match Lookup(font.entries, FONT_BBOX)
    case None => Ok(None)
    case Some(CosArray(items)) => Ok(Some(RectOfArray(items)))
    case Some(_) => Err(ClassCast)
  }

  predicate AllZero(r: Rect) {
    r.llx == 0.0 && r.lly == 0.0 && r.urx == 0.0 && r.ury == 0.0
  }

  /** The glyph boxes of the named procedures that are streams and whose box was read. */
  ghost function ReadBoxes(cp: map<string, CharProcEntry>, names: set<string>): set<Rect> {
    set name | name in names && name in cp && cp[name].GlyphStream? && cp[name].glyph.bbox.Ok? :: cp[name].glyph.bbox.value
  }

  /**
   * r is the smallest rectangle holding the origin and every box: each edge
   * is the origin's or some box's, and no box sticks out.
   */
  ghost predicate IsHull(r: Rect, boxes: set<Rect>) {
    && r.llx <= 0.0 && r.lly <= 0.0 && r.urx >= 0.0 && r.ury >= 0.0
    && (forall g :: g in boxes ==> Within(g, r))
    && (r.llx == 0.0 || exists g :: g in boxes && g.llx == r.llx)
    && (r.lly == 0.0 || exists g :: g in boxes && g.lly == r.lly)
    && (r.urx == 0.0 || exists g :: g in boxes && g.urx == r.urx)
    && (r.ury == 0.0 || exists g :: g in boxes && g.ury == r.ury)
  }

  /** The hull of a set of boxes is unique. */
  lemma HullUnique(r1: Rect, r2: Rect, boxes: set<Rect>)
    requires IsHull(r1, boxes) && IsHull(r2, boxes)
    ensures r1 == r2
  {
  }

  /** The four edges of the widened rectangle: min of the lower-left corners, max of the upper-right ones. */
  function Widen(r: Rect, g: Rect): (w: Rect)
    ensures Within(r, w) && Within(g, w)
  {
    Rect(Min(r.llx, g.llx), Min(r.lly, g.lly), Max(r.urx, g.urx), Max(r.ury, g.ury))
  }

  /** Widening the hull of some boxes by one more box gives the hull of all of them. */
  lemma WidenHull(r: Rect, boxes: set<Rect>, g: Rect)
    requires IsHull(r, boxes)
    ensures IsHull(Widen(r, g), boxes + {g})
  {
    var w := Widen(r, g);
    forall h | h in boxes + {g} ensures Within(h, w) {
      if h in boxes {
        assert Within(h, r);
      }
    }
  }

  /** Reading one more name adds its box, if it is a stream whose box was read. */
  lemma ReadBoxesStep(cp: map<string, CharProcEntry>, done: set<string>, name: string)
    requires name in cp
    ensures ReadBoxes(cp, done + {name}) ==
              ReadBoxes(cp, done) + (if cp[name].GlyphStream? && cp[name].glyph.bbox.Ok? then {cp[name].glyph.bbox.value} else {})
  {
  }

  /**
   * The result of generateBoundingBox: /FontBBox when it is not all zero;
   * when it is, the hull of the origin and every glyph box that could be
   * read. A missing /FontBBox, or a missing /CharProcs when the box is all
   * zero, is a NullPointerException; a /FontBBox that is not an array is a
   * ClassCastException.
   */
  ghost predicate GeneratedBox(font: FontDict, r: Result<Rect>) {
    match FontBBox(font)
    case Err(e) => r == Err(e)
    case Ok(None) => r == Err(NullPointer)
    case Ok(Some(b)) =>
      if !AllZero(b) then r == Ok(b)
      else if font.charProcs.None? then r == Err(NullPointer)
      else r.Ok? && IsHull(r.value, ReadBoxes(font.charProcs.value, font.charProcs.value.Keys))
  }

  /** One entry of /CharProcs widens the rectangle when it is a stream whose glyph box can be read. */
  function WidenedBy(rect: Rect, base: CharProcEntry): Rect {
    if base.GlyphStream? && base.glyph.bbox.Ok? then Widen(rect, base.glyph.bbox.value) else rect
  }

  lemma HullStep(cp: map<string, CharProcEntry>, done: set<string>, name: string, rect: Rect)
    requires name in cp && IsHull(rect, ReadBoxes(cp, done))
    ensures IsHull(WidenedBy(rect, cp[name]), ReadBoxes(cp, done + {name}))
  {
    ReadBoxesStep(cp, done, name);
    var base := cp[name];
    if base.GlyphStream? && base.glyph.bbox.Ok? {
      WidenHull(rect, ReadBoxes(cp, done), base.glyph.bbox.value);
    }
  }

  /** The body of the for loop of generateBoundingBox: a glyph stream whose box can be read widens the rectangle. */
  method WidenByEntry(rect: Rect, base: CharProcEntry) returns (next: Rect)
    ensures next == WidenedBy(rect, base)
  {
    next := rect;
    if base.GlyphStream? {
      match base.glyph.bbox {
        case Ok(glyphBBox) =>
          next := Widen(rect, glyphBBox);
        case Err(_) =>
      }
    }
  }

  /** The for loop of generateBoundingBox, over the names of /CharProcs in any order, from the all-zero box. */
  method WidenByGlyphs(cp: map<string, CharProcEntry>) returns (rect: Rect)
    ensures IsHull(rect, ReadBoxes(cp, cp.Keys))
  {
    rect := Rect(0.0, 0.0, 0.0, 0.0);
    var remaining := cp.Keys;
    while remaining != {}
      invariant remaining <= cp.Keys
      invariant IsHull(rect, ReadBoxes(cp, cp.Keys - remaining))
      decreases |remaining|
    {
      var name :| name in remaining;
      HullStep(cp, cp.Keys - remaining, name, rect);
      assert cp.Keys - (remaining - {name}) == (cp.Keys - remaining) + {name};
      rect := WidenByEntry(rect, cp[name]);
      remaining := remaining - {name};
    }
  }

  /** PDType3Font, with the three values it computes on first use. */
  class PDType3Font {
    const dict: FontDict
    var fontMatrix: Option<Matrix>
    var fontBBox: Option<Rect>
    var charProcs: Option<map<string, CharProcEntry>>

    /** A filled cache holds what the dictionary gives. */
    ghost predicate Valid()
      reads this
    {
      && (charProcs.Some? ==> charProcs == dict.charProcs)
      && (fontMatrix.Some? ==> FontMatrixArray(dict).Some? && fontMatrix.value == MatrixOfArray(FontMatrixArray(dict).value))
      && (fontBBox.Some? ==> GeneratedBox(dict, Ok(fontBBox.value)))
    }

    constructor (dict: FontDict)
      ensures this.dict == dict && fontMatrix.None? && fontBBox.None? && charProcs.None? && Valid()
    {
      this.dict := dict;
      fontMatrix := None;
      fontBBox := None;
      charProcs := None;
    }

    /** getCharProcs: /CharProcs when it is a dictionary, read once. */
    method GetCharProcs() returns (r: Option<map<string, CharProcEntry>>)
      requires Valid()
      modifies this`charProcs
      ensures Valid() && r == dict.charProcs && charProcs == dict.charProcs
    {
      if charProcs.None? {
        charProcs := dict.charProcs;
      }
      r := charProcs;
    }

    /**
     * getFontMatrix: /FontMatrix when it is an array, kept once read;
     * otherwise the default matrix, which is not kept.
     */
    method GetFontMatrix() returns (m: Matrix)
      requires Valid()
      modifies this`fontMatrix
      ensures Valid()
      ensures m == if FontMatrixArray(dict).Some? then MatrixOfArray(FontMatrixArray(dict).value) else DEFAULT_FONT_MATRIX
      ensures fontMatrix == if FontMatrixArray(dict).Some? then Some(m) else None
    {
      if fontMatrix.None? {
        var entry := FontMatrixArray(dict);
        if entry.Some? {
          fontMatrix := Some(MatrixOfArray(entry.value));
        } else {
          return DEFAULT_FONT_MATRIX;
        }
      }
      m := fontMatrix.value;
    }

    /** generateBoundingBox */
    method GenerateBoundingBox() returns (r: Result<Rect>)
      requires Valid()
      modifies this`charProcs
      ensures Valid() && GeneratedBox(dict, r)
    {
      var bbox := FontBBox(dict);
      if bbox.Err? {
        return Err(bbox.error);
      }
      if bbox.value.None? {
        return Err(NullPointer);
      }
      var rect := bbox.value.value;
      if AllZero(rect) {
        var cp := GetCharProcs();
        if cp.None? {
          return Err(NullPointer);
        }
        rect := WidenByGlyphs(cp.value);
      }
      r := Ok(rect);
    }

    /** getBoundingBox: the generated box, kept once it has been generated. */
    method GetBoundingBox() returns (r: Result<Rect>)
      requires Valid()
      modifies this`fontBBox, this`charProcs
      ensures Valid() && GeneratedBox(dict, r)
      ensures r.Ok? ==> fontBBox == Some(r.value)
    {
      if fontBBox.None? {
        var generated := GenerateBoundingBox();
        if generated.Err? {
          return generated;
        }
        fontBBox := Some(generated.value);
      }
      r := Ok(fontBBox.value);
    }
  }
}
