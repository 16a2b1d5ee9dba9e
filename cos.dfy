/**
 * Shared value types of the document object model: optional and failing
 * results, rectangles (PDRectangle), and the COS values stored in
 * dictionaries.
 */
module Cos {

  datatype Option<+T> = None | Some(value: T) {
    function GetOr(default: T): T {
      match this
      case Some(v) => v
      case None => default
    }
  }

  /** The exceptions the modelled code raises. */
  datatype Error =
    | NullPointer            // a dereference of a missing entry
    | ClassCast              // an entry of an unexpected COS type
    | IndexOutOfBounds       // a list accessed past its end
    | PageNotFound           // PageNotFoundException
    | IllegalArgument        // IllegalArgumentException
    | Io(message: string)    // IOException

  datatype Result<+T> = Ok(value: T) | Err(error: Error)

  /**
   * A rectangle given by its lower-left and upper-right corners, as
   * PDRectangle stores it. Coordinates are reals: float rounding is not
   * modelled.
   */
  datatype Rect = Rect(llx: real, lly: real, urx: real, ury: real) {
    function Width(): real { urx - llx }
    function Height(): real { ury - lly }
  }

  /** PDRectangle.createRetranslatedRectangle(): the same size, moved to the origin. */
  function Retranslated(r: Rect): (t: Rect)
    ensures t.llx == 0.0 && t.lly == 0.0
    ensures t.Width() == r.Width() && t.Height() == r.Height()
  {
    Rect(0.0, 0.0, r.Width(), r.Height())
  }

  /** new PDRectangle(x, y, width, height) */
  function RectOfSize(x: real, y: real, width: real, height: real): (r: Rect)
    ensures r.llx == x && r.lly == y && r.Width() == width && r.Height() == height
  {
    Rect(x, y, x + width, y + height)
  }

  /** b lies inside a, edges included. */
  predicate Within(b: Rect, a: Rect) {
    a.llx <= b.llx && a.lly <= b.lly && b.urx <= a.urx && b.ury <= a.ury
  }

  /** A COS value as found in a dictionary entry or an array element. */
  datatype CosValue =
    | CosInt(i: int)
    | CosReal(r: real)
    | CosName(name: string)
    | CosString(s: string)
    | CosArray(items: seq<CosValue>)
    | CosStream(size: nat)
    | CosDictionary
    | CosNull

  /** instanceof COSDictionary: a dictionary, or a stream, since COSStream extends COSDictionary. */
  predicate IsDictionary(v: CosValue) {
    v.CosDictionary? || v.CosStream?
  }

  type Dict = map<string, CosValue>

  const INT_MIN: int := -0x8000_0000
  const INT_MAX: int := 0x7fff_ffff

  /** Java's (int) cast of a long: keeps the low 32 bits, two's complement. */
  function WrapToInt(v: int): (r: int)
    ensures INT_MIN <= r <= INT_MAX
    ensures (r - v) % 0x1_0000_0000 == 0
    ensures INT_MIN <= v <= INT_MAX ==> r == v
  {
    var m := v % 0x1_0000_0000;
    if m <= INT_MAX then m else m - 0x1_0000_0000
  }

  /** Java's (int) cast of a float: truncates toward zero and saturates. */
  function TruncateToInt(x: real): (r: int)
    ensures INT_MIN <= r <= INT_MAX
    ensures INT_MIN as real <= x <= INT_MAX as real ==> -1.0 < x - r as real < 1.0 && (x >= 0.0 ==> r >= 0) && (x <= 0.0 ==> r <= 0)
  {
    var t := if x >= 0.0 then x.Floor else -((-x).Floor);
    if t < INT_MIN then INT_MIN else if t > INT_MAX then INT_MAX else t
  }

  /** Java's % on int: the remainder takes the sign of the dividend. */
  function JavaRem(a: int, b: int): (r: int)
    requires b > 0
    ensures -b < r < b
    ensures a >= 0 ==> r >= 0
    ensures a <= 0 ==> r <= 0
  {
    if a >= 0 then a % b else -((-a) % b)
  }

  /** COSNumber.intValue() of a number value. */
  function IntValue(v: CosValue): int
    requires v.CosInt? || v.CosReal?
  {
    if v.CosInt? then WrapToInt(v.i) else TruncateToInt(v.r)
  }

  /** COSNumber.floatValue() of an array element, 0 for a non-number. */
  function NumberOr0(v: CosValue): real {
    match v
    case CosInt(i) => i as real
    case CosReal(r) => r
    case _ => 0.0
  }

  /**
   * new PDRectangle(COSArray): the first four numbers (missing or
   * non-numeric entries read as 0) give two corners, which are normalised so
   * that the lower-left corner holds the minima.
   */
  function RectOfArray(items: seq<CosValue>): (r: Rect)
    ensures r.llx <= r.urx && r.lly <= r.ury
  {
    var x1 := if |items| > 0 then NumberOr0(items[0]) else 0.0;
    var y1 := if |items| > 1 then NumberOr0(items[1]) else 0.0;
    var x2 := if |items| > 2 then NumberOr0(items[2]) else 0.0;
    var y2 := if |items| > 3 then NumberOr0(items[3]) else 0.0;
    Rect(Min(x1, x2), Min(y1, y2), Max(x1, x2), Max(y1, y2))
  }

  /** getDictionaryObject(key): the entry, where a missing entry and COSNull both read as null. */
  function Lookup(d: Dict, key: string): (r: Option<CosValue>)
    ensures r.Some? <==> key in d && d[key] != CosNull
    ensures r.Some? ==> r.value == d[key]
  {
    if key in d && d[key] != CosNull then Some(d[key]) else None
  }

  /** COSDictionary.getInt(key, default): the entry's int value when it is a number, else the default. */
  function GetInt(d: Dict, key: string, default: int): (r: int)
    ensures key !in d ==> r == default
    ensures key in d && d[key].CosInt? && INT_MIN <= d[key].i <= INT_MAX ==> r == d[key].i
  {
    if key in d && (d[key].CosInt? || d[key].CosReal?) then IntValue(d[key]) else default
  }

  /** PDRectangle.getCOSObject(): the array [llx lly urx ury]. */
  function ArrayOfRect(r: Rect): CosValue {
    CosArray([CosReal(r.llx), CosReal(r.lly), CosReal(r.urx), CosReal(r.ury)])
  }

  /** Integer.toString: the decimal digits, with a leading '-' for a negative number. */
  function IntToString(i: int): string {
    if i < 0 then "-" + NatToString(-i) else NatToString(i)
  }

  function NatToString(n: nat): string
    decreases n
  {
    var digit := ["0123456789"[n % 10]];
    if n < 10 then digit else NatToString(n / 10) + digit
  }

  function Min(a: real, b: real): real { if a <= b then a else b }
  function Max(a: real, b: real): real { if a >= b then a else b }

  /** Storing a normalised rectangle as an array and reading it back is the identity. */
  lemma RectArrayRoundTrip(r: Rect)
    requires r.llx <= r.urx && r.lly <= r.ury
    ensures RectOfArray(ArrayOfRect(r).items) == r
  {
  }

  /**
   * List.indexOf: the position of the first element equal to x, or -1.
   */
  function IndexOf<T(==)>(s: seq<T>, x: T): (r: int)
    ensures -1 <= r < |s|
    ensures r == -1 <==> x !in s
    ensures r >= 0 ==> s[r] == x
  {
    if s == [] then -1
    else if s[0] == x then 0
    else
      var k := IndexOf(s[1..], x);
      if k == -1 then -1 else k + 1
  }

  /** No occurrence precedes the first. */
  lemma {:induction false} IndexOfBefore<T>(s: seq<T>, x: T)
    ensures IndexOf(s, x) >= 0 ==> x !in s[..IndexOf(s, x)]
  {
    if s != [] && s[0] != x {
      var k := IndexOf(s[1..], x);
      IndexOfBefore(s[1..], x);
      if k >= 0 {
        assert s[..k + 1] == [s[0]] + s[1..][..k];
      }
    }
  }

  /** An occurrence with none before it is the first. */
  lemma IndexOfAt<T>(s: seq<T>, x: T, k: nat)
    requires k < |s| && s[k] == x && x !in s[..k]
    ensures IndexOf(s, x) == k
  {
    IndexOfFirst(s, x, k);
    forall j | 0 <= j < k ensures s[j] != x {
      assert s[..k][j] == s[j];
    }
  }

  /** The first occurrence in a + b lies in a when a holds x, else it is shifted past a. */
  lemma {:induction false} IndexOfAppend<T>(a: seq<T>, b: seq<T>, x: T)
    ensures IndexOf(a + b, x) == if x in a then IndexOf(a, x)
                                 else if x in b then |a| + IndexOf(b, x) else -1
  {
    if a == [] {
      assert a + b == b;
    } else if a[0] == x {
      assert (a + b)[0] == x;
    } else {
      assert (a + b)[0] == a[0];
      assert (a + b)[1..] == a[1..] + b;
      assert x in a <==> x in a[1..] by {
        assert a == [a[0]] + a[1..];
      }
      IndexOfAppend(a[1..], b, x);
    }
  }

  /** The first occurrence is the same in any prefix that contains it. */
  lemma IndexOfPrefix<T>(s: seq<T>, x: T, n: nat)
    requires n <= |s| && x in s[..n]
    ensures IndexOf(s, x) == IndexOf(s[..n], x)
  {
    assert s == s[..n] + s[n..];
    IndexOfAppend(s[..n], s[n..], x);
  }

  /** An occurrence at k bounds the first occurrence from above. */
  lemma {:induction false} IndexOfFirst<T>(s: seq<T>, x: T, k: nat)
    requires k < |s| && s[k] == x
    ensures 0 <= IndexOf(s, x) <= k
  {
    if s[0] != x {
      IndexOfFirst(s[1..], x, k - 1);
    }
  }

  lemma ConcatAssoc<T>(w: seq<T>, a: seq<T>, b: seq<T>)
    ensures (w + a) + b == w + (a + b)
  {
  }
}
