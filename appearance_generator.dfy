/**
 * AppearanceGeneratorHelper at work: the widgets of a field, their
 * appearance streams, and the methods that write the generated appearance
 * into each widget's normal appearance stream.
 */
module AppearanceGenerator {
  import opened Cos
  import opened ContentStream
  import opened AppearanceOps
  import opened AppearanceLayout

  /** The matrix an identity AffineTransform is stored as. */
  const IDENTITY_MATRIX: seq<real> := [1.0, 0.0, 0.0, 1.0, 0.0, 0.0]

  /** A form XObject used as an appearance stream: its BBox, content tokens, Matrix and FormType. */
  class AppearanceStream {
    var bbox: Option<Rect>
    var content: seq<Token>
    var matrix: Option<seq<real>>
    var formType: Option<int>

    /** new PDAppearanceStream(document) followed by setBBox. */
    constructor (bbox: Option<Rect>)
      ensures this.bbox == bbox && content == [] && matrix == None && formType == None
    {
      this.bbox := bbox;
      content := [];
      matrix := None;
      formType := None;
    }
  }

  /** The /N entry of an appearance dictionary: a stream, or a subdictionary of states. */
  datatype NormalAppearance = StreamEntry(stream: AppearanceStream) | SubDictionary

  /** An appearance dictionary, reduced to its normal appearance (absent when /N is missing). */
  datatype AppearanceDict = AppearanceDict(normal: Option<NormalAppearance>)

  /** new PDAppearanceDictionary(): /N starts as an empty subdictionary. */
  const NEW_APPEARANCE_DICT: AppearanceDict := AppearanceDict(Some(SubDictionary))

  /** A widget annotation: its rectangle, its border width (0 without a border style) and its /AP. */
  class Widget {
    const rect: Rect
    const borderWidth: real
    var appearance: Option<AppearanceDict>

    constructor (rect: Rect, borderWidth: real, appearance: Option<AppearanceDict>)
      ensures this.rect == rect && this.borderWidth == borderWidth && this.appearance == appearance
    {
      this.rect := rect;
      this.borderWidth := borderWidth;
      this.appearance := appearance;
    }
  }

  /** The normal appearance stream of an appearance entry, if it is one. */
  function NormalStream(ap: Option<AppearanceDict>): Option<AppearanceStream> {
    if ap.Some? && ap.value.normal.Some? && ap.value.normal.value.StreamEntry? then Some(ap.value.normal.value.stream)
    else None
  }

  function StreamSet(ap: Option<AppearanceDict>): set<AppearanceStream> {
    if NormalStream(ap).Some? then {NormalStream(ap).value} else {}
  }

  /**
   * A widget is regenerated unless the field has a format action and the
   * widget has no /AP yet (Acrobat formats it when the file is opened).
   */
  predicate Eligible(field: Field, ap: Option<AppearanceDict>) {
    !field.hasFormatAction || ap.Some?
  }

  /**
   * The content setAppearanceContent leaves: the head of the old content,
   * the generated tokens, and its tail; when generation fails, the writer
   * is closed after what was generated so far and the tail is missing.
   */
  function Written(tokens: seq<Token>, e: Emitted): (r: seq<Token>)
    ensures e.error.None? ==> r == Spliced(tokens, Serialize(e.ops))
    ensures e.error.Some? ==> r == Head(tokens) + Serialize(e.ops)
  {
    Head(tokens) + Serialize(e.ops) + (if e.error.None? then Tail(tokens) else [])
  }

  /**
   * Regenerating is idempotent: writing a second complete appearance over
   * the first leaves what writing the second alone would, whenever the
   * original content has no EMC or its first BMC precedes its first EMC.
   */
  lemma RegenerationStable(tokens: seq<Token>, e1: Emitted, e2: Emitted)
    requires EMC !in tokens || 0 <= IndexOf(tokens, BMC) < IndexOf(tokens, EMC)
    requires e1.error.None? && e2.error.None?
    ensures Written(Written(tokens, e1), e2) == Written(tokens, e2)
  {
    SerializeMarkerFree(e1.ops);
    RespliceIsSplice(tokens, Serialize(e1.ops), Serialize(e2.ops));
  }

  /**
   * A stream created for the widget ends up as `/Tx BMC`, the generated
   * operations and EMC, a region that a later regeneration replaces.
   */
  lemma NewStreamContent(e: Emitted)
    requires e.error.None?
    ensures Written([], e) == [TX, BMC] + Serialize(e.ops) + [EMC]
    ensures RegionWellPlaced(Written([], e))
  {
    assert Head([]) == [TX, BMC];
    assert Tail([]) == [EMC];
    SerializeMarkerFree(e.ops);
    SplicedWellPlaced([], Serialize(e.ops));
  }

  /** The BBox of the normal appearance stream, if there is one. */
  function NormalBBox(ap: Option<AppearanceDict>): Option<Rect>
    reads StreamSet(ap)
  {
    if NormalStream(ap).Some? then NormalStream(ap).value.bbox else None
  }

  /** The content of the normal appearance stream, empty if there is none. */
  function NormalContent(ap: Option<AppearanceDict>): seq<Token>
    reads StreamSet(ap)
  {
    if NormalStream(ap).Some? then NormalStream(ap).value.content else []
  }

  /**
   * What updating one widget did, given its /AP and its normal stream's
   * BBox and content before, and the error it ended with: nothing for a
   * widget left to the format action, a failure on a missing /N, the
   * existing stream rewritten, or a new stream with the widget's
   * rectangle moved to the origin as BBox.
   */
  predicate UpdatedFrom(widget: Widget, ap: Option<AppearanceDict>, bbox: Option<Rect>, content: seq<Token>,
                        field: Field, value: string, font: Font, error: Option<Error>)
    requires AutosizeDefined(field, font, value)
    reads widget, StreamSet(widget.appearance)
  {
    if !Eligible(field, ap) then
      error.None? && widget.appearance == ap
    else if ap.Some? && ap.value.normal.None? then
      error == Some(NullPointer) && widget.appearance == ap
    else if ap.Some? && ap.value.normal.value.StreamEntry? then
      var s := ap.value.normal.value.stream;
      var e := GeneratedAppearance(field, value, widget.borderWidth, bbox, widget.rect, font);
      && widget.appearance == ap
      && error == e.error
      && s.content == Written(content, e)
      && s.bbox == bbox && s.matrix == Some(IDENTITY_MATRIX) && s.formType == Some(1)
    else
      var newBBox := Retranslated(widget.rect);
      var e := GeneratedAppearance(field, value, widget.borderWidth, Some(newBBox), widget.rect, font);
      && NormalStream(widget.appearance).Some?
      && widget.appearance == Some(AppearanceDict(Some(StreamEntry(NormalStream(widget.appearance).value))))
      && var s := NormalStream(widget.appearance).value;
      && error == e.error
      && s.content == Written([], e)
      && s.bbox == Some(newBBox) && s.matrix == Some(IDENTITY_MATRIX) && s.formType == Some(1)
  }

  /** UpdatedFrom the widget's state in the earlier of the two states. */
  twostate predicate UpdatedBefore(widget: Widget, field: Field, value: string, font: Font, new error: Option<Error>)
    requires AutosizeDefined(field, font, value)
    reads widget, StreamSet(widget.appearance)
  {
    UpdatedFrom(widget, old(widget.appearance), old(NormalBBox(widget.appearance)),
                old(NormalContent(widget.appearance)), field, value, font, error)
  }

  /** The widget's normal stream is the one it had or a new object. */
  twostate predicate StreamsKeptOrNew(widget: Widget)
    reads widget
  {
    forall s :: s in StreamSet(widget.appearance) ==> s in StreamSet(old(widget.appearance)) || fresh(s)
  }

  /**
   * What updating one widget did, from the state before to the state
   * after; a normal stream it did not have before is a new object.
   */
  twostate predicate Updated(widget: Widget, field: Field, value: string, font: Font, new error: Option<Error>)
    requires AutosizeDefined(field, font, value)
    reads widget, StreamSet(widget.appearance)
  {
    UpdatedBefore(widget, field, value, font, error) && StreamsKeptOrNew(widget)
  }

  /** insertGeneratedCombAppearance, writing through the content stream. */
  method InsertGeneratedCombAppearance(writer: ContentWriter, maxLen: int, streamBBox: Option<Rect>, font: Font,
                                       fontSize: real, value: string) returns (error: Option<Error>)
    modifies writer
    ensures var e := CombAppearance(maxLen, streamBBox, font, fontSize, value);
      error == e.error && writer.written == old(writer.written) + Serialize(e.ops)
  {
    var numChars := if |value| <= maxLen then |value| else maxLen;
    if streamBBox.None? {
      assert Serialize([]) == [];
      return Some(NullPointer);
    }
    var bbox := streamBBox.value;
    var paddingEdge := ApplyPadding(bbox, 1.0);
    var combWidth := CombWidth(bbox, maxLen);
    var ascentAtFontSize := font.ascent / 1000.0 * fontSize;
    var baseline := paddingEdge.lly + (bbox.Height() - ascentAtFontSize) / 2.0;
    WriteCombChars(writer, combWidth, baseline, font, fontSize, value, numChars, CombCount(|value|, maxLen));
    CombAll(maxLen, bbox, font, fontSize, value, baseline);
    return None;
  }

  /**
   * The loop of insertGeneratedCombAppearance: numChars times, a move to
   * the next cell and one character, the first move also carrying the
   * baseline.
   */
  method WriteCombChars(writer: ContentWriter, combWidth: real, baseline: real, font: Font, fontSize: real,
                        value: string, numChars: int, ghost n: nat)
    requires n <= |value|
    requires numChars <= 0 ==> n == 0
    requires numChars > 0 ==> n == numChars
    modifies writer
    ensures writer.written == old(writer.written) + Serialize(CombChars(combWidth, baseline, font, fontSize, value, n))
  {
    var baselineOffset := baseline;
    var prevCharWidth := 0.0;
    var xOffset := combWidth / 2.0;
    ghost var start := writer.written;
    var i := 0;
    while i < numChars
      invariant 0 <= i <= n
      invariant i < numChars ==> i < n
      invariant writer.written == start + Serialize(CombChars(combWidth, baseline, font, fontSize, value, i))
      invariant i == 0 ==> prevCharWidth == 0.0 && xOffset == combWidth / 2.0 && baselineOffset == baseline
      invariant i > 0 ==> prevCharWidth == CombHalfWidth(font, fontSize, value, i - 1) && xOffset == combWidth
                          && baselineOffset == 0.0
    {
      var currCharWidth := CombHalfWidth(font, fontSize, value, i);
      CombNextOffset(combWidth, font, fontSize, value, i, prevCharWidth, xOffset);
      xOffset := xOffset + prevCharWidth / 2.0 - currCharWidth / 2.0;
      EmitCombChar(writer, combWidth, baseline, font, fontSize, value, i, xOffset, baselineOffset, start);
      baselineOffset := 0.0;
      prevCharWidth := currCharWidth;
      xOffset := combWidth;
      i := i + 1;
    }
  }

  /** The two operations the comb loop writes for character i: its position and the character. */
  method EmitCombChar(writer: ContentWriter, combWidth: real, baseline: real, font: Font, fontSize: real,
                      value: string, i: nat, xOffset: real, baselineOffset: real, ghost start: seq<Token>)
    requires i < |value|
    requires xOffset == CombOffset(combWidth, font, fontSize, value, i)
    requires baselineOffset == if i == 0 then baseline else 0.0
    requires writer.written == start + Serialize(CombChars(combWidth, baseline, font, fontSize, value, i))
    modifies writer
    ensures writer.written == start + Serialize(CombChars(combWidth, baseline, font, fontSize, value, i + 1))
  {
    ghost var written := writer.written;
    Emit(writer, NewLineAtOffset(xOffset, baselineOffset));
    ghost var middle := writer.written;
    Emit(writer, ShowText(value[i..i + 1]));
    CombEmitted(combWidth, baseline, font, fontSize, value, i, start, written, middle, writer.written);
  }

  /** The move the comb loop computes before character i is CombOffset. */
  lemma CombNextOffset(combWidth: real, font: Font, fontSize: real, value: string, i: nat, prev: real, x: real)
    requires i < |value|
    requires i == 0 ==> prev == 0.0 && x == combWidth / 2.0
    requires i > 0 ==> prev == CombHalfWidth(font, fontSize, value, i - 1) && x == combWidth
    ensures x + prev / 2.0 - CombHalfWidth(font, fontSize, value, i) / 2.0 == CombOffset(combWidth, font, fontSize, value, i)
  {
  }

  /** The comb loop's baseline is CombBaseline, so its n characters are CombAppearance's operations. */
  lemma CombAll(maxLen: int, bbox: Rect, font: Font, fontSize: real, value: string, baseline: real)
    requires baseline == ApplyPadding(bbox, 1.0).lly + (bbox.Height() - font.ascent / 1000.0 * fontSize) / 2.0
    ensures CombAppearance(maxLen, Some(bbox), font, fontSize, value).ops
      == CombChars(CombWidth(bbox, maxLen), baseline, font, fontSize, value, CombCount(|value|, maxLen))
  {
    assert CombBaseline(bbox, font, fontSize) == baseline;
  }

  /** The tokens of one more comb character. */
  lemma CombStep(combWidth: real, baseline: real, font: Font, fontSize: real, value: string, i: nat)
    requires i < |value|
    ensures Serialize(CombChars(combWidth, baseline, font, fontSize, value, i + 1))
      == Serialize(CombChars(combWidth, baseline, font, fontSize, value, i))
         + OpTokens(NewLineAtOffset(CombOffset(combWidth, font, fontSize, value, i), if i == 0 then baseline else 0.0))
         + OpTokens(ShowText(value[i..i + 1]))
  {
    var c := CombChar(combWidth, baseline, font, fontSize, value, i);
    SerializePair(CombChars(combWidth, baseline, font, fontSize, value, i), c[0], c[1]);
    assert c == [c[0], c[1]];
  }

  /** Writing the two operations of character i after i characters writes i + 1 characters. */
  lemma CombEmitted(combWidth: real, baseline: real, font: Font, fontSize: real, value: string, i: nat,
                    start: seq<Token>, before: seq<Token>, middle: seq<Token>, after: seq<Token>)
    requires i < |value|
    requires before == start + Serialize(CombChars(combWidth, baseline, font, fontSize, value, i))
    requires middle == before + OpTokens(NewLineAtOffset(CombOffset(combWidth, font, fontSize, value, i),
                                                          if i == 0 then baseline else 0.0))
    requires after == middle + OpTokens(ShowText(value[i..i + 1]))
    ensures after == start + Serialize(CombChars(combWidth, baseline, font, fontSize, value, i + 1))
  {
    CombStep(combWidth, baseline, font, fontSize, value, i);
  }

  /** Appending two operations appends their tokens. */
  lemma SerializePair(ops: seq<Op>, a: Op, b: Op)
    ensures Serialize(ops + [a, b]) == Serialize(ops) + OpTokens(a) + OpTokens(b)
  {
    assert ops + [a, b] == (ops + [a]) + [b];
    SerializeAppend(ops + [a], [b]);
    SerializeAppend(ops, [a]);
    SerializeOne(a);
    SerializeOne(b);
  }

  /** insertGeneratedSelectionHighlight, writing through the content stream. */
  method InsertGeneratedSelectionHighlight(writer: ContentWriter, listBox: FieldKind, streamBBox: Option<Rect>,
                                           font: Font, fontSize: real) returns (error: Option<Error>)
    requires listBox.ListBox?
    modifies writer
    ensures var e := HighlightAppearance(listBox, streamBBox, font, fontSize);
      error == e.error && writer.written == old(writer.written) + Serialize(e.ops)
  {
    var selectedIndex := SelectedIndex(listBox);
    var topIndex := listBox.topIndex;
    var highlightBoxHeight := font.bboxHeight * fontSize / 1000.0 - 2.0;
    if streamBBox.None? {
      assert Serialize([]) == [];
      return Some(NullPointer);
    }
    var paddingEdge := ApplyPadding(streamBBox.value, 1.0);
    var ops := [SetNonStrokingRGB(153, 193, 215),
                AddRect(paddingEdge.llx, paddingEdge.ury - highlightBoxHeight * (selectedIndex - topIndex + 1) as real,
                        paddingEdge.Width(), highlightBoxHeight),
                Fill,
                SetNonStrokingGray(0)];
    ghost var r := HighlightRect(streamBBox.value, font, fontSize, selectedIndex, topIndex);
    assert highlightBoxHeight == HighlightHeight(font, fontSize);
    assert r.llx == paddingEdge.llx && r.Width() == paddingEdge.Width() && r.Height() == highlightBoxHeight;
    assert r.lly == paddingEdge.ury - highlightBoxHeight * (selectedIndex - topIndex + 1) as real;
    assert ops == HighlightAppearance(listBox, streamBBox, font, fontSize).ops;
    EmitAll(writer, ops);
    return None;
  }

  /**
   * insertGeneratedListboxAppearance, writing through the content stream,
   * with the corrected test for ending a row's text object.
   */
  method InsertGeneratedListboxAppearance(writer: ContentWriter, listBox: FieldKind, q: int, streamBBox: Option<Rect>,
                                          contentRect: Rect, font: Font, fontSize: real, value: string)
    returns (error: Option<Error>)
    requires listBox.ListBox?
    modifies writer
    ensures var e := ListboxAppearance(listBox, q, streamBBox, contentRect, font, fontSize, value, false);
      error == e.error && writer.written == old(writer.written) + Serialize(e.ops)
  {
    ghost var start := [SetNonStrokingGray(0)];
    Emit(writer, SetNonStrokingGray(0));
    SerializeOne(SetNonStrokingGray(0));
    error := WriteQuaddingOffset(writer, q, streamBBox, font, fontSize, value);
    if error.Some? {
      return;
    }
    ghost var quad := QuaddingOffset(q, streamBBox, font, fontSize, value).value;
    SerializeAppend(start, quad);
    ghost var afterQuad := writer.written;
    assert afterQuad == old(writer.written) + Serialize(start + quad);
    error := WriteListboxRows(writer, listBox.displayValues, listBox.topIndex, contentRect, font, fontSize);
    ghost var rows := ListboxRowsFrom(listBox.displayValues, listBox.topIndex, contentRect, font, fontSize, false);
    ghost var before := Serialize(start + quad);
    ghost var after := Serialize(rows.ops);
    assert writer.written == (old(writer.written) + before) + after;
    SerializeAppend(start + quad, rows.ops);
    ConcatAssoc(old(writer.written), before, after);
    assert QuaddingOffset(q, streamBBox, font, fontSize, value) == Ok(quad);
    assert ListboxAppearance(listBox, q, streamBBox, contentRect, font, fontSize, value, false)
      == Emitted(start + quad + rows.ops, rows.error);
  }

  /** The quadding part of insertGeneratedListboxAppearance. */
  method WriteQuaddingOffset(writer: ContentWriter, q: int, streamBBox: Option<Rect>, font: Font, fontSize: real,
                             value: string) returns (error: Option<Error>)
    modifies writer
    ensures var r := QuaddingOffset(q, streamBBox, font, fontSize, value);
      && (r.Err? ==> error == Some(r.error) && writer.written == old(writer.written))
      && (r.Ok? ==> error.None? && writer.written == old(writer.written) + Serialize(r.value))
  {
    if q == QUADDING_LEFT {
      assert Serialize([]) == [];
    } else if q == QUADDING_CENTERED || q == QUADDING_RIGHT {
      if streamBBox.None? {
        return Some(NullPointer);
      }
      var fieldWidth := streamBBox.value.Width();
      var stringWidth := TextWidth(font, value, fontSize);
      var adjustAmount := fieldWidth - stringWidth - 4.0;
      if q == QUADDING_CENTERED {
        adjustAmount := adjustAmount / 2.0;
      }
      Emit(writer, NewLineAtOffset(adjustAmount, 0.0));
      SerializeOne(NewLineAtOffset(adjustAmount, 0.0));
    } else {
      return Some(Io("Error: Unknown justification value:" + IntToString(q)));
    }
    return None;
  }

  /** The loop of insertGeneratedListboxAppearance: a row per option from topIndex on. */
  method WriteListboxRows(writer: ContentWriter, options: seq<string>, topIndex: int, contentRect: Rect, font: Font,
                          fontSize: real) returns (error: Option<Error>)
    modifies writer
    ensures var e := ListboxRowsFrom(options, topIndex, contentRect, font, fontSize, false);
      error == e.error && writer.written == old(writer.written) + Serialize(e.ops)
  {
    var yTextPos := contentRect.ury;
    var i := topIndex;
    while i < |options|
      invariant topIndex < 0 ==> i == topIndex
      invariant i == topIndex ==> writer.written == old(writer.written)
      invariant topIndex >= 0 ==> topIndex <= i && (i <= |options| || i == topIndex)
      invariant topIndex >= 0 && i <= |options| ==>
        writer.written == old(writer.written)
          + Serialize(ListboxRows(options, topIndex, i - topIndex, contentRect, font, fontSize, false))
      invariant yTextPos == if i == topIndex then contentRect.ury else RowY(contentRect, font, fontSize, i - topIndex - 1)
    {
      ghost var written := writer.written;
      if i == topIndex {
        yTextPos := yTextPos - font.ascent / 1000.0 * fontSize;
      } else {
        yTextPos := yTextPos - font.bboxHeight / 1000.0 * fontSize;
        RowYStep(contentRect, font, fontSize, i - topIndex);
      }
      error := WriteListboxRow(writer, options, topIndex, i, contentRect, font, fontSize, yTextPos);
      if error.Some? {
        SerializeOne(NewLineAtOffset(contentRect.llx, RowY(contentRect, font, fontSize, 0)));
        return;
      }
      RowsStep(options, topIndex, i - topIndex, contentRect, font, fontSize, old(writer.written), written, writer.written);
      i := i + 1;
    }
    if !(0 <= topIndex < |options|) {
      assert Serialize([]) == [];
    }
    return None;
  }

  /** Writing the row of option topIndex + k after k rows writes k + 1 rows. */
  lemma RowsStep(options: seq<string>, topIndex: nat, k: nat, contentRect: Rect, font: Font, fontSize: real,
                 start: seq<Token>, before: seq<Token>, after: seq<Token>)
    requires topIndex + k < |options|
    requires before == start + Serialize(ListboxRows(options, topIndex, k, contentRect, font, fontSize, false))
    requires after == before + Serialize(ListboxRow(options, topIndex, topIndex + k, contentRect, font, fontSize, false))
    ensures after == start + Serialize(ListboxRows(options, topIndex, k + 1, contentRect, font, fontSize, false))
  {
    var rows := ListboxRows(options, topIndex, k, contentRect, font, fontSize, false);
    var row := ListboxRow(options, topIndex, topIndex + k, contentRect, font, fontSize, false);
    SerializeAppend(rows, row);
    ConcatAssoc(start, Serialize(rows), Serialize(row));
  }

  /** Each row below the first sits one bounding-box height lower. */
  lemma RowYStep(contentRect: Rect, font: Font, fontSize: real, k: nat)
    requires k > 0
    ensures RowY(contentRect, font, fontSize, k - 1) - font.bboxHeight / 1000.0 * fontSize
      == RowY(contentRect, font, fontSize, k)
  {
    var h := font.bboxHeight / 1000.0 * fontSize;
    assert (k - 1) as real * h + h == k as real * h;
  }

  /**
   * One pass of the list box loop, after the text position is computed:
   * reading option i fails for a negative index once the position is
   * written.
   */
  method WriteListboxRow(writer: ContentWriter, options: seq<string>, topIndex: int, i: int, contentRect: Rect,
                         ghost font: Font, ghost fontSize: real, yTextPos: real) returns (error: Option<Error>)
    requires topIndex <= i < |options|
    requires i == topIndex || topIndex >= 0
    requires yTextPos == RowY(contentRect, font, fontSize, i - topIndex)
    modifies writer
    ensures i < 0 ==>
      error == Some(IndexOutOfBounds)
      && writer.written == old(writer.written) + OpTokens(NewLineAtOffset(contentRect.llx, yTextPos))
    ensures i >= 0 ==> error.None?
    ensures i >= 0 ==>
      writer.written == old(writer.written) + Serialize(ListboxRow(options, topIndex, i, contentRect, font, fontSize, false))
  {
    ghost var written := writer.written;
    ghost var rowOps: seq<Op> := [];
    if i != topIndex {
      rowOps := EmitAfter(writer, written, rowOps, BeginText);
    }
    rowOps := EmitAfter(writer, written, rowOps, NewLineAtOffset(contentRect.llx, yTextPos));
    if i < 0 {
      SerializeOne(NewLineAtOffset(contentRect.llx, yTextPos));
      return Some(IndexOutOfBounds);
    }
    rowOps := EmitAfter(writer, written, rowOps, ShowText(options[i]));
    if i != |options| - 1 {
      rowOps := EmitAfter(writer, written, rowOps, EndText);
    }
    assert rowOps == ListboxRow(options, topIndex, i, contentRect, font, fontSize, false);
    return None;
  }

  /**
   * insertGeneratedAppearance: stamps the stream's Matrix and FormType and
   * writes the generated operations through the content stream.
   */
  method InsertGeneratedAppearance(writer: ContentWriter, stream: AppearanceStream, field: Field, value: string,
                                   borderWidth: real, widgetRect: Rect, font: Font) returns (error: Option<Error>)
    requires AutosizeDefined(field, font, value)
    modifies writer, stream
    ensures stream.bbox == old(stream.bbox) && stream.content == old(stream.content)
    ensures stream.matrix == Some(IDENTITY_MATRIX) && stream.formType == Some(1)
    ensures var e := GeneratedAppearance(field, value, borderWidth, old(stream.bbox), widgetRect, font);
      error == e.error && writer.written == old(writer.written) + Serialize(e.ops)
  {
    ghost var base := writer.written;
    stream.matrix := Some(IDENTITY_MATRIX);
    stream.formType := Some(1);
    var bbox := stream.bbox;
    var layout := ComputeLayout(field, value, borderWidth, bbox, widgetRect, font);
    var clip := ClipOps(layout.clipRect);
    var highlight := HighlightPart(field, bbox, font, layout.fontSize);
    var text := TextStart(field, layout.fontSize);
    var body := BodyPart(field, value, bbox, layout, font);
    assert GeneratedAppearance(field, value, borderWidth, bbox, widgetRect, font) == Assemble(clip, highlight, text, body);
    EmitAll(writer, clip);
    ghost var done := clip;
    assert writer.written == base + Serialize(done);
    ghost var before := writer.written;
    if field.kind.ListBox? {
      error := InsertGeneratedSelectionHighlight(writer, field.kind, bbox, font, layout.fontSize);
    } else {
      assert Serialize([]) == [];
      error := None;
    }
    WrittenExtends(base, done, highlight.ops, before, writer.written);
    done := done + highlight.ops;
    if error.Some? {
      return;
    }
    before := writer.written;
    EmitAll(writer, text);
    WrittenExtends(base, done, text, before, writer.written);
    done := done + text;
    before := writer.written;
    if ShallComb(field) {
      error := InsertGeneratedCombAppearance(writer, field.kind.maxLen, bbox, font, layout.fontSize, value);
    } else if field.kind.ListBox? {
      error := InsertGeneratedListboxAppearance(writer, field.kind, field.q, bbox, layout.contentRect, font,
                                                layout.fontSize, value);
    } else {
      EmitAll(writer, body.ops);
      error := None;
    }
    WrittenExtends(base, done, body.ops, before, writer.written);
    done := done + body.ops;
    if error.Some? {
      return;
    }
    before := writer.written;
    EmitAll(writer, [EndText, RestoreGraphicsState]);
    WrittenExtends(base, done, [EndText, RestoreGraphicsState], before, writer.written);
  }

  /**
   * setAppearanceContent: tokenizes the stream, writes the part before the
   * marked region, the generated appearance and the part after it, and
   * stores what the writer received as the stream's content.
   */
  method SetAppearanceContent(widget: Widget, stream: AppearanceStream, field: Field, value: string, font: Font)
    returns (error: Option<Error>)
    requires AutosizeDefined(field, font, value)
    modifies stream
    ensures stream.bbox == old(stream.bbox)
    ensures stream.matrix == Some(IDENTITY_MATRIX) && stream.formType == Some(1)
    ensures var e := GeneratedAppearance(field, value, widget.borderWidth, old(stream.bbox), widget.rect, font);
      error == e.error && stream.content == Written(old(stream.content), e)
  {
    var tokens := stream.content;
    var writer := new ContentWriter();
    var bmcIndex := IndexOf(tokens, BMC);
    if bmcIndex == -1 {
      writer.WriteTokens(tokens);
      writer.WriteTokens([TX, BMC]);
    } else {
      writer.WriteTokens(tokens[..bmcIndex + 1]);
    }
    assert writer.written == Head(tokens);
    error := InsertGeneratedAppearance(writer, stream, field, value, widget.borderWidth, widget.rect, font);
    if error.None? {
      var emcIndex := IndexOf(tokens, EMC);
      if emcIndex == -1 {
        writer.WriteTokens([EMC]);
      } else {
        writer.WriteTokens(tokens[emcIndex..]);
      }
    }
    stream.content := writer.written;
  }

  /**
   * The loop body of setAppearanceValue for one widget: finds or creates
   * its appearance dictionary and normal appearance stream and sets the
   * stream's content.
   */
  method UpdateWidget(widget: Widget, field: Field, value: string, font: Font) returns (error: Option<Error>)
    requires AutosizeDefined(field, font, value)
    modifies widget, StreamSet(widget.appearance)
    ensures Updated(widget, field, value, font, error)
  {
    if !Eligible(field, widget.appearance) {
      return None;
    }
    var appearanceDict: AppearanceDict;
    if widget.appearance.None? {
      appearanceDict := NEW_APPEARANCE_DICT;
      widget.appearance := Some(appearanceDict);
    } else {
      appearanceDict := widget.appearance.value;
    }
    if appearanceDict.normal.None? {
      // appearance.isStream() on a missing /N
      return Some(NullPointer);
    }
    var appearanceStream: AppearanceStream;
    if appearanceDict.normal.value.StreamEntry? {
      appearanceStream := appearanceDict.normal.value.stream;
    } else {
      appearanceStream := new AppearanceStream(Some(Retranslated(widget.rect)));
      widget.appearance := Some(AppearanceDict(Some(StreamEntry(appearanceStream))));
    }
    error := SetAppearanceContent(widget, appearanceStream, field, value, font);
  }

  /** The streams reachable from the widgets' appearance dictionaries. */
  function Streams(widgets: seq<Widget>): set<AppearanceStream>
    reads set w | w in widgets
  {
    set w, s | w in widgets && s in StreamSet(w.appearance) :: s
  }

  /** No two widgets are the same object or share a normal appearance stream. */
  predicate Separate(widgets: seq<Widget>)
    reads set w | w in widgets
  {
    forall i, j :: 0 <= i < j < |widgets| ==>
      widgets[i] != widgets[j] && StreamSet(widgets[i].appearance) !! StreamSet(widgets[j].appearance)
  }

  /** The widgets' appearance entries, in order. */
  function Appearances(widgets: seq<Widget>): (r: seq<Option<AppearanceDict>>)
    reads set w | w in widgets
    ensures |r| == |widgets| && forall j :: 0 <= j < |widgets| ==> r[j] == widgets[j].appearance
  {
    if widgets == [] then [] else [widgets[0].appearance] + Appearances(widgets[1..])
  }

  /** The BBoxes of the widgets' normal appearance streams, in order. */
  function NormalBBoxes(widgets: seq<Widget>): (r: seq<Option<Rect>>)
    reads (set w | w in widgets), Streams(widgets)
    ensures |r| == |widgets| && forall j :: 0 <= j < |widgets| ==> r[j] == NormalBBox(widgets[j].appearance)
  {
    if widgets == [] then [] else [NormalBBox(widgets[0].appearance)] + NormalBBoxes(widgets[1..])
  }

  /** The contents of the widgets' normal appearance streams, in order. */
  function NormalContents(widgets: seq<Widget>): (r: seq<seq<Token>>)
    reads (set w | w in widgets), Streams(widgets)
    ensures |r| == |widgets| && forall j :: 0 <= j < |widgets| ==> r[j] == NormalContent(widgets[j].appearance)
  {
    if widgets == [] then [] else [NormalContent(widgets[0].appearance)] + NormalContents(widgets[1..])
  }

  /**
   * One pass of the loop of setAppearanceValue: updates widget i and keeps
   * what the earlier passes did to the widgets before it, given the
   * appearance entries and streams on entry to the loop (original holds
   * those streams).
   */
  method UpdateAt(widgets: seq<Widget>, i: nat, field: Field, value: string, font: Font,
                  ghost aps: seq<Option<AppearanceDict>>, ghost bboxes: seq<Option<Rect>>, ghost contents: seq<seq<Token>>,
                  ghost original: set<AppearanceStream>)
    returns (error: Option<Error>)
    requires AutosizeDefined(field, font, value)
    requires i < |widgets| == |aps| == |bboxes| == |contents|
    requires forall j :: 0 <= j < |widgets| && j != i ==>
      widgets[j] != widgets[i] && StreamSet(aps[j]) !! StreamSet(aps[i])
    requires StreamSet(aps[i]) <= original
    requires forall j :: i <= j < |widgets| ==>
      widgets[j].appearance == aps[j] && NormalBBox(aps[j]) == bboxes[j] && NormalContent(aps[j]) == contents[j]
    requires forall j :: 0 <= j < i ==> UpdatedFrom(widgets[j], aps[j], bboxes[j], contents[j], field, value, font, None)
    requires forall j, s :: 0 <= j < i && s in StreamSet(widgets[j].appearance) ==> s in StreamSet(aps[j]) || s !in original
    modifies widgets[i], StreamSet(widgets[i].appearance)
    ensures forall j :: 0 <= j < i ==> UpdatedFrom(widgets[j], aps[j], bboxes[j], contents[j], field, value, font, None)
    ensures UpdatedFrom(widgets[i], aps[i], bboxes[i], contents[i], field, value, font, error)
    ensures forall j, s :: 0 <= j <= i && s in StreamSet(widgets[j].appearance) ==> s in StreamSet(aps[j]) || s !in original
    ensures forall j :: i < j < |widgets| ==>
      widgets[j].appearance == aps[j] && NormalBBox(aps[j]) == bboxes[j] && NormalContent(aps[j]) == contents[j]
  {
    forall j | 0 <= j < i
      ensures StreamSet(widgets[j].appearance) !! StreamSet(widgets[i].appearance)
    {
      forall s | s in StreamSet(widgets[j].appearance)
        ensures s !in StreamSet(aps[i])
      {
      }
    }
    error := UpdateWidget(widgets[i], field, value, font);
    forall j | 0 <= j < i
      ensures UpdatedFrom(widgets[j], aps[j], bboxes[j], contents[j], field, value, font, None)
    {
      assert unchanged(widgets[j]) && unchanged(StreamSet(widgets[j].appearance));
    }
  }

  /**
   * setAppearanceValue: updates the widgets in order and stops at the
   * first failure, at stoppedAt; the widgets after it are left as they
   * were.
   */
  method SetAppearanceValue(widgets: seq<Widget>, field: Field, value: string, font: Font)
    returns (error: Option<Error>, ghost stoppedAt: nat)
    requires AutosizeDefined(field, font, value)
    requires Separate(widgets)
    modifies (set w | w in widgets), Streams(widgets)
    ensures stoppedAt <= |widgets| && (error.None? <==> stoppedAt == |widgets|)
    ensures forall i :: 0 <= i < stoppedAt ==> UpdatedBefore(widgets[i], field, value, font, None)
    ensures stoppedAt < |widgets| ==> UpdatedBefore(widgets[stoppedAt], field, value, font, error)
    ensures forall i :: stoppedAt < i < |widgets| ==> widgets[i].appearance == old(widgets[i].appearance)
    ensures forall i :: stoppedAt < i < |widgets| ==>
      NormalBBox(widgets[i].appearance) == old(NormalBBox(widgets[i].appearance))
      && NormalContent(widgets[i].appearance) == old(NormalContent(widgets[i].appearance))
  {
    ghost var aps := Appearances(widgets);
    ghost var bboxes := NormalBBoxes(widgets);
    ghost var contents := NormalContents(widgets);
    ghost var original := Streams(widgets);
    var i := 0;
    while i < |widgets|
      invariant 0 <= i <= |widgets|
      invariant forall j :: 0 <= j < i ==> UpdatedFrom(widgets[j], aps[j], bboxes[j], contents[j], field, value, font, None)
      invariant forall j, s :: 0 <= j < i && s in StreamSet(widgets[j].appearance) ==> s in StreamSet(aps[j]) || s !in original
      invariant forall j :: i <= j < |widgets| ==>
        widgets[j].appearance == aps[j] && NormalBBox(aps[j]) == bboxes[j] && NormalContent(aps[j]) == contents[j]
    {
      error := UpdateAt(widgets, i, field, value, font, aps, bboxes, contents, original);
      if error.Some? {
        return error, i;
      }
      i := i + 1;
    }
    return None, |widgets|;
  }

}
