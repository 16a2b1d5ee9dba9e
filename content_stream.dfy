/**
 * Content-stream tokens and the splice that replaces the marked-content
 * region `/Tx BMC ... EMC` of an existing appearance stream with newly
 * generated tokens (marked content: section 14.6 of ISO 32000-1).
 */
module ContentStream {
  import opened Cos

  /** One token of a content stream as the tokenizer yields it; equality is by value. */
  datatype Token =
    | Operator(op: string)
    | Name(name: string)
    | Number(value: real)
    | Text(s: string)
    | InlineImage(data: seq<int>)

  const BMC: Token := Operator("BMC")
  const EMC: Token := Operator("EMC")
  /** COSName.TX, the marked-content tag of a field's variable text. */
  const TX: Token := Name("Tx")

  /**
   * The tokens setAppearanceContent writes: the head, then the generated
   * tokens, then the tail.
   */
  function Spliced(tokens: seq<Token>, generated: seq<Token>): seq<Token> {
    Head(tokens) + generated + Tail(tokens)
  }

  /** What precedes the first BMC, BMC included; or every token and a new `/Tx BMC` when there is no BMC. */
  function Head(tokens: seq<Token>): seq<Token> {
    var b := IndexOf(tokens, BMC);
    if b == -1 then tokens + [TX, BMC] else tokens[..b + 1]
  }

  /** Everything from the first EMC on, or a new EMC when there is none. */
  function Tail(tokens: seq<Token>): seq<Token> {
    var e := IndexOf(tokens, EMC);
    if e == -1 then [EMC] else tokens[e..]
  }

  /**
   * The ContentStreamWriter over the appearance stream's unfiltered
   * content: what has been written so far.
   */
  class ContentWriter {
    var written: seq<Token>

    constructor ()
      ensures written == []
    {
      written := [];
    }

    method WriteTokens(tokens: seq<Token>)
      modifies this
      ensures written == old(written) + tokens
    {
      written := written + tokens;
    }
  }

  /**
   * With a BMC at index b and an EMC after it at index e (both first
   * occurrences), the region strictly between them is replaced by the
   * generated tokens and every token outside it is kept in place.
   */
  lemma SpliceReplacesRegion(tokens: seq<Token>, generated: seq<Token>, b: nat, e: nat)
    requires b < e < |tokens|
    requires tokens[b] == BMC && BMC !in tokens[..b]
    requires tokens[e] == EMC && EMC !in tokens[..e]
    ensures Spliced(tokens, generated) == tokens[..b + 1] + generated + tokens[e..]
  {
    IndexOfAt(tokens, BMC, b);
    IndexOfAt(tokens, EMC, e);
  }

  /**
   * Without any BMC the original tokens are all kept, a `/Tx BMC` pair and
   * the generated tokens follow, and then either a closing EMC or, when
   * the original holds an EMC, everything from that EMC on a second time.
   */
  lemma SpliceWithoutBegin(tokens: seq<Token>, generated: seq<Token>)
    requires BMC !in tokens
    ensures Spliced(tokens, generated)
         == tokens + [TX, BMC] + generated + (if EMC in tokens then tokens[IndexOf(tokens, EMC)..] else [EMC])
  {
    assert IndexOf(tokens, BMC) == -1;
  }

  /** Slicing a four-part concatenation at the part boundaries gives back the parts. */
  lemma ConcatParts<T>(a: seq<T>, b: seq<T>, c: seq<T>, d: seq<T>)
    ensures var s := a + b + c + d;
      && s[..|a|] == a
      && s[|a|..|a| + |b|] == b
      && s[|a| + |b|..|a| + |b| + |c|] == c
      && s[|a| + |b| + |c|..] == d
  {
  }

  /** A region is well placed when both markers are absent, or the first BMC precedes the first EMC. */
  predicate RegionWellPlaced(tokens: seq<Token>) {
    var b := IndexOf(tokens, BMC);
    var e := IndexOf(tokens, EMC);
    (b == -1 && e == -1) || (0 <= b < e)
  }

  /** The head ends with its only BMC, and holds an EMC exactly when the original has one before its first BMC or has no BMC. */
  lemma HeadMarkers(tokens: seq<Token>)
    ensures IndexOf(Head(tokens), BMC) == |Head(tokens)| - 1
    ensures var b := IndexOf(tokens, BMC);
      EMC !in Head(tokens) <==> EMC !in tokens || 0 <= b < IndexOf(tokens, EMC)
  {
    var b := IndexOf(tokens, BMC);
    var e := IndexOf(tokens, EMC);
    var h := Head(tokens);
    IndexOfBefore(tokens, BMC);
    IndexOfBefore(tokens, EMC);
    if b == -1 {
      IndexOfAppend(tokens, [TX, BMC], BMC);
      assert EMC in h <==> EMC in tokens;
    } else {
      assert h == tokens[..b + 1];
      if e != -1 && e < b {
        assert h[e] == EMC;
      } else if e == -1 {
        assert EMC !in h;
      } else {
        assert e != b;
        assert h == tokens[..e][..b + 1];
      }
    }
  }

  /** The tail starts with EMC. */
  lemma TailMarker(tokens: seq<Token>)
    ensures IndexOf(Tail(tokens), EMC) == 0
  {
    assert Tail(tokens)[0] == EMC;
  }

  /**
   * Where the markers of a spliced stream are: its first BMC ends the
   * head and, when the head holds no EMC, its first EMC starts the tail.
   */
  lemma SplicedMarkers(tokens: seq<Token>, generated: seq<Token>)
    requires EMC !in generated
    ensures IndexOf(Spliced(tokens, generated), BMC) == |Head(tokens)| - 1
    ensures EMC !in Head(tokens) ==>
      IndexOf(Spliced(tokens, generated), EMC) == |Head(tokens)| + |generated|
    ensures EMC in Head(tokens) ==>
      IndexOf(Spliced(tokens, generated), EMC) == IndexOf(Head(tokens), EMC)
  {
    var h := Head(tokens);
    var t := Tail(tokens);
    assert Spliced(tokens, generated) == h + (generated + t);
    HeadMarkers(tokens);
    IndexOfAppend(h, generated + t, BMC);
    IndexOfAppend(h, generated + t, EMC);
    if EMC !in h {
      TailMarker(tokens);
      IndexOfAppend(generated, t, EMC);
    }
  }

  /**
   * The splice leaves a well-placed region behind exactly when the original
   * has no EMC or its first BMC precedes its first EMC, as long as the
   * generated tokens hold no EMC of their own.
   */
  lemma SplicedWellPlaced(tokens: seq<Token>, generated: seq<Token>)
    requires EMC !in generated
    ensures RegionWellPlaced(Spliced(tokens, generated))
      <==> (EMC !in tokens || 0 <= IndexOf(tokens, BMC) < IndexOf(tokens, EMC))
  {
    SplicedMarkers(tokens, generated);
    HeadMarkers(tokens);
    var h := Head(tokens);
    if EMC in h {
      var e := IndexOf(h, EMC);
      assert e != |h| - 1 by {
        assert h[|h| - 1] == BMC;
      }
    }
  }

  /**
   * Regeneration is stable: splicing in g1 and then g2 gives the same
   * stream as splicing in g2 once, when the original has no EMC or a BMC
   * before its first EMC, and g1 holds no EMC.
   */
  lemma RespliceIsSplice(tokens: seq<Token>, g1: seq<Token>, g2: seq<Token>)
    requires EMC !in tokens || 0 <= IndexOf(tokens, BMC) < IndexOf(tokens, EMC)
    requires EMC !in g1
    ensures Spliced(Spliced(tokens, g1), g2) == Spliced(tokens, g2)
  {
    var h := Head(tokens);
    var t := Tail(tokens);
    var out := Spliced(tokens, g1);
    HeadMarkers(tokens);
    SplicedMarkers(tokens, g1);
    ConcatParts(h, [], g1, t);
    assert h + [] == h;
    assert Head(out) == h;
    assert Tail(out) == t;
  }

  /**
   * An EMC that precedes every BMC makes the trailer appear twice: for the
   * stream `EMC` alone, the splice writes it, then `/Tx BMC`, the generated
   * tokens, and the EMC again.
   */
  lemma TrailerWrittenTwice(generated: seq<Token>)
    ensures Spliced([EMC], generated) == [EMC, TX, BMC] + generated + [EMC]
  {
    assert IndexOf([EMC], BMC) == -1;
    assert IndexOf([EMC], EMC) == 0;
  }
}
