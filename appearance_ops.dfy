/**
 * The drawing operations the appearance generator issues through
 * PDPageContentStream, the tokens each one writes, and the text-object
 * rules of section 8.2 of ISO 32000-1 (figure 9) that the operations must
 * respect.
 */
module AppearanceOps {
  import opened Cos
  import opened ContentStream

  /** One call on the page content stream. */
  datatype Op =
    | SaveGraphicsState                        // q
    | RestoreGraphicsState                     // Q
    | AddRect(x: real, y: real, w: real, h: real)   // re
    | Clip                                     // W n
    | Fill                                     // f
    | BeginText                                // BT
    | EndText                                  // ET
    | SetFont(fontName: string, fontSize: real)     // the /DA string at the chosen size
    | SetNonStrokingRGB(r: int, g: int, b: int)     // rg, components 0..255
    | SetNonStrokingGray(gray: int)            // g, 0..255
    | NewLineAtOffset(tx: real, ty: real)      // Td
    | ShowText(text: string)                   // Tj
      /** The output of PlainTextFormatter for the field value. */
    | FormattedText(text: string, width: real, leading: real, wrap: bool, x: real, y: real, q: int)

  /** The tokens one operation appends to the content stream. */
  function OpTokens(op: Op): seq<Token> {
    match op
    case SaveGraphicsState => [Operator("q")]
    case RestoreGraphicsState => [Operator("Q")]
    case AddRect(x, y, w, h) => [Number(x), Number(y), Number(w), Number(h), Operator("re")]
    case Clip => [Operator("W"), Operator("n")]
    case Fill => [Operator("f")]
    case BeginText => [Operator("BT")]
    case EndText => [Operator("ET")]
    case SetFont(name, size) => [Name(name), Number(size), Operator("Tf")]
    case SetNonStrokingRGB(r, g, b) =>
      [Number(r as real / 255.0), Number(g as real / 255.0), Number(b as real / 255.0), Operator("rg")]
    case SetNonStrokingGray(gray) => [Number(gray as real / 255.0), Operator("g")]
    case NewLineAtOffset(tx, ty) => [Number(tx), Number(ty), Operator("Td")]
    case ShowText(text) => [Text(text), Operator("Tj")]
    case FormattedText(text, _, _, _, x, y, _) => [Number(x), Number(y), Operator("Td"), Text(text), Operator("Tj")]
  }

  /** The tokens a sequence of operations writes, in order. */
  function Serialize(ops: seq<Op>): seq<Token> {
    if ops == [] then [] else OpTokens(ops[0]) + Serialize(ops[1..])
  }

  lemma {:induction false} SerializeAppend(a: seq<Op>, b: seq<Op>)
    ensures Serialize(a + b) == Serialize(a) + Serialize(b)
  {
    if a == [] {
      assert a + b == b;
    } else {
      assert (a + b)[1..] == a[1..] + b;
      SerializeAppend(a[1..], b);
    }
  }

  lemma SerializeOne(op: Op)
    ensures Serialize([op]) == OpTokens(op)
  {
    assert [op][1..] == [];
  }

  /** No operation writes a marked-content operator. */
  lemma OpTokensMarkerFree(op: Op)
    ensures BMC !in OpTokens(op) && EMC !in OpTokens(op)
  {
  }

  /**
   * Generated content never holds BMC or EMC, so splicing it into a stream
   * keeps the stream's own markers the only ones.
   */
  lemma {:induction false} SerializeMarkerFree(ops: seq<Op>)
    ensures BMC !in Serialize(ops) && EMC !in Serialize(ops)
  {
    if ops != [] {
      OpTokensMarkerFree(ops[0]);
      SerializeMarkerFree(ops[1..]);
    }
  }

  /**
   * The effect of one operation on whether a text object is open: None
   * when the operation is not allowed there (BT inside a text object, ET or
   * a text-positioning or text-showing operator outside one, a graphics
   * state or path operator inside one).
   */
  function TextStep(op: Op, inText: bool): (r: Option<bool>)
    ensures op.BeginText? ==> (r.Some? <==> !inText) && (r.Some? ==> r.value)
    ensures op.EndText? ==> (r.Some? <==> inText) && (r.Some? ==> !r.value)
    ensures !op.BeginText? && !op.EndText? && r.Some? ==> r.value == inText
  {
    match op
    case BeginText => if inText then None else Some(true)
    case EndText => if inText then Some(false) else None
    case NewLineAtOffset(_, _) => if inText then Some(true) else None
    case ShowText(_) => if inText then Some(true) else None
    case FormattedText(_, _, _, _, _, _, _) => if inText then Some(true) else None
    case SaveGraphicsState => if inText then None else Some(false)
    case RestoreGraphicsState => if inText then None else Some(false)
    case AddRect(_, _, _, _) => if inText then None else Some(false)
    case Clip => if inText then None else Some(false)
    case Fill => if inText then None else Some(false)
    case SetFont(_, _) => Some(inText)
    case SetNonStrokingRGB(_, _, _) => Some(inText)
    case SetNonStrokingGray(_) => Some(inText)
  }

  /**
   * Whether a text object is open after the operations, starting from
   * inText; None when some operation is not allowed where it occurs.
   */
  function TextState(ops: seq<Op>, inText: bool): Option<bool> {
    if ops == [] then Some(inText)
    else match TextStep(ops[0], inText)
      case None => None
      case Some(s) => TextState(ops[1..], s)
  }

  /** Running two sequences is running the first, then the second from where the first left off. */
  lemma {:induction false} TextStateAppend(a: seq<Op>, b: seq<Op>, inText: bool)
    ensures TextState(a + b, inText) ==
      match TextState(a, inText)
      case None => None
      case Some(s) => TextState(b, s)
  {
    if a == [] {
      assert a + b == b;
    } else {
      assert (a + b)[0] == a[0];
      assert (a + b)[1..] == a[1..] + b;
      match TextStep(a[0], inText)
      case None =>
      case Some(s) => TextStateAppend(a[1..], b, s);
    }
  }

  /** Operations that each keep the text-object state leave it as it was. */
  lemma {:induction false} TextStateConstant(ops: seq<Op>, inText: bool)
    requires forall i :: 0 <= i < |ops| ==> TextStep(ops[i], inText) == Some(inText)
    ensures TextState(ops, inText) == Some(inText)
  {
    if ops != [] {
      assert TextStep(ops[0], inText) == Some(inText);
      assert forall i :: 0 <= i < |ops[1..]| ==> ops[1..][i] == ops[i + 1];
      TextStateConstant(ops[1..], inText);
    }
  }

  /**
   * PDPageContentStream over the writer of an appearance stream: every
   * operation appends its tokens.
   */
  method Emit(writer: ContentWriter, op: Op)
    modifies writer
    ensures writer.written == old(writer.written) + OpTokens(op)
  {
    writer.WriteTokens(OpTokens(op));
  }

  /**
   * Emit, keeping track of the operations written since the writer held
   * base.
   */
  method EmitAfter(writer: ContentWriter, ghost base: seq<Token>, ghost ops: seq<Op>, op: Op) returns (ghost extended: seq<Op>)
    requires writer.written == base + Serialize(ops)
    modifies writer
    ensures extended == ops + [op]
    ensures writer.written == base + Serialize(extended)
  {
    Emit(writer, op);
    extended := ops + [op];
    SerializeAppend(ops, [op]);
    SerializeOne(op);
    ConcatAssoc(base, Serialize(ops), OpTokens(op));
  }

  /** Writing more operations after done extends the record to done + more. */
  lemma WrittenExtends(base: seq<Token>, done: seq<Op>, more: seq<Op>, before: seq<Token>, after: seq<Token>)
    requires before == base + Serialize(done)
    requires after == before + Serialize(more)
    ensures after == base + Serialize(done + more)
  {
    SerializeAppend(done, more);
    ConcatAssoc(base, Serialize(done), Serialize(more));
  }

  /** Emitting operations one after the other writes their serialization. */
  method EmitAll(writer: ContentWriter, ops: seq<Op>)
    modifies writer
    ensures writer.written == old(writer.written) + Serialize(ops)
  {
    var i := 0;
    while i < |ops|
      invariant 0 <= i <= |ops|
      invariant writer.written == old(writer.written) + Serialize(ops[..i])
    {
      SerializePrefix(ops, i);
      ConcatAssoc(old(writer.written), Serialize(ops[..i]), OpTokens(ops[i]));
      Emit(writer, ops[i]);
      i := i + 1;
    }
    assert ops[..i] == ops;
  }

  /** The serialization of one more operation of ops is one more operation's tokens. */
  lemma SerializePrefix(ops: seq<Op>, i: nat)
    requires i < |ops|
    ensures Serialize(ops[..i + 1]) == Serialize(ops[..i]) + OpTokens(ops[i])
  {
    assert ops[..i + 1] == ops[..i] + [ops[i]];
    SerializeAppend(ops[..i], [ops[i]]);
    SerializeOne(ops[i]);
  }
}
