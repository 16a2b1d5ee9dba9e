/**
 * PDXObject: an external object (section 8.8 of ISO 32000-1), a stream
 * whose /Subtype says whether it is an image, a form or a PostScript
 * XObject. createXObject classifies a stream by its /Subtype; the
 * constructors stamp /Type /XObject and the /Subtype on the stream's
 * dictionary.
 */
module XObject {
  import opened Cos

  const TYPE: string := "Type"
  const SUBTYPE: string := "Subtype"
  const XOBJECT: string := "XObject"
  const IMAGE: string := "Image"
  const FORM: string := "Form"
  const PS: string := "PS"

  /** The three kinds of XObject: PDImageXObject, PDFormXObject and PDPostScriptXObject. */
  datatype Kind = Image | Form | PostScript

  /** The /Subtype name of each kind. */
  function SubtypeName(k: Kind): string {
    match k
    case Image => IMAGE
    case Form => FORM
    case PostScript => PS
  }

  /** A COS stream, through its dictionary, which the XObject constructors update. */
  class StreamObject {
    var dict: Dict

    constructor (dict: Dict)
      ensures this.dict == dict
    {
      this.dict := dict;
    }
  }

  /** The argument of createXObject: a stream, or an object of another COS class, named by that class. */
  datatype Base = StreamBase(stream: StreamObject) | OtherBase(className: string)

  /**
   * getNameAsString(SUBTYPE): a name's text, or a string's; null for a
   * missing entry or one of another type.
   */
  function NameAsString(d: Dict, key: string): (r: Option<string>)
    ensures r.Some? ==> key in d && (d[key] == CosName(r.value) || d[key] == CosString(r.value))
    ensures key in d && d[key].CosName? ==> r == Some(d[key].name)
    ensures key in d && d[key].CosString? ==> r == Some(d[key].s)
  {
    match Lookup(d, key)
    case Some(CosName(n)) => Some(n)
    case Some(CosString(s)) => Some(s)
    case _ => None
  }

  /** The text Java's string concatenation gives a possibly-null string. */
  function ShowNullable(s: Option<string>): string {
    if s.Some? then s.value else "null"
  }

  /**
   * The dispatch of createXObject on a stream's dictionary: /Subtype Image,
   * Form or PS picks the kind; anything else, a missing /Subtype included,
   * is an IOException naming the subtype.
   */
  function KindOf(d: Dict): (r: Result<Kind>)
    ensures forall k :: r == Ok(k) <==> NameAsString(d, SUBTYPE) == Some(SubtypeName(k))
    ensures r.Err? <==> NameAsString(d, SUBTYPE) !in {Some(IMAGE), Some(FORM), Some(PS)}
    ensures r.Err? ==> r.error == Io("Invalid XObject Subtype: " + ShowNullable(NameAsString(d, SUBTYPE)))
  {
    var subtype := NameAsString(d, SUBTYPE);
    if subtype == Some(IMAGE) then Ok(Image)
    else if subtype == Some(FORM) then Ok(Form)
    else if subtype == Some(PS) then Ok(PostScript)
    else Err(Io("Invalid XObject Subtype: " + ShowNullable(subtype)))
  }

  /** What the constructors write: /Type /XObject and the kind's /Subtype, over the stream's other entries. */
  function Stamped(d: Dict, k: Kind): (r: Dict)
    ensures TYPE in r && r[TYPE] == CosName(XOBJECT) && SUBTYPE in r && r[SUBTYPE] == CosName(SubtypeName(k))
    ensures forall key :: key != TYPE && key != SUBTYPE ==> (key in r <==> key in d) && (key in d ==> r[key] == d[key])
  {
    d[TYPE := CosName(XOBJECT)][SUBTYPE := CosName(SubtypeName(k))]
  }

  /** A stamped stream is classified as the kind it was stamped with: the constructors and the dispatch agree. */
  lemma StampedKind(d: Dict, k: Kind)
    ensures KindOf(Stamped(d, k)) == Ok(k)
  {
    assert NameAsString(Stamped(d, k), SUBTYPE) == Some(SubtypeName(k));
  }

  /** Stamping again with the kind a stream already has changes nothing. */
  lemma StampIdempotent(d: Dict, k: Kind)
    ensures Stamped(Stamped(d, k), k) == Stamped(d, k)
  {
  }

  /** An XObject: its stream and its kind. */
  class PDXObject {
    const stream: StreamObject
    const kind: Kind

    /** new PDXObject(stream, subtype): wraps the stream and stamps /Type and /Subtype on it. */
    constructor (stream: StreamObject, kind: Kind)
      modifies stream
      ensures this.stream == stream && this.kind == kind
      ensures stream.dict == Stamped(old(stream.dict), kind)
    {
      this.stream := stream;
      this.kind := kind;
      new;
      stream.dict := stream.dict[TYPE := CosName(XOBJECT)];
      stream.dict := stream.dict[SUBTYPE := CosName(SubtypeName(kind))];
    }

    /** new PDXObject(document, subtype): a fresh, empty stream of the document, stamped. */
    constructor ForWriting(kind: Kind)
      ensures fresh(stream) && this.kind == kind
      ensures stream.dict == Stamped(map[], kind)
    {
      var s := new StreamObject(map[]);
      stream := s;
      this.kind := kind;
      new;
      s.dict := s.dict[TYPE := CosName(XOBJECT)];
      s.dict := s.dict[SUBTYPE := CosName(SubtypeName(kind))];
    }
  }

  /**
   * createXObject: null for a null argument; an IOException naming the
   * class for an object that is not a stream; otherwise the XObject of the
   * stream's kind, whose constructor stamps the stream, or an IOException
   * for another subtype, which leaves the stream as it was.
   */
  method CreateXObject(base: Option<Base>) returns (r: Result<Option<PDXObject>>)
    modifies if base.Some? && base.value.StreamBase? then {base.value.stream} else {}
    ensures base.None? ==> r == Ok(None)
    ensures base.Some? && base.value.OtherBase? ==> r == Err(Io("Unexpected object type: " + base.value.className))
    ensures base.Some? && base.value.StreamBase? ==>
              var s := base.value.stream;
              match KindOf(old(s.dict))
              case Err(e) => r == Err(e) && s.dict == old(s.dict)
              case Ok(k) => && r.Ok? && r.value.Some? && r.value.value.stream == s && r.value.value.kind == k
                            && s.dict == Stamped(old(s.dict), k)
  {
    if base.None? {
      return Ok(None);
    }
    if base.value.OtherBase? {
      return Err(Io("Unexpected object type: " + base.value.className));
    }
    var stream := base.value.stream;
    var kind := KindOf(stream.dict);
    if kind.Err? {
      return Err(kind.error);
    }
    var x := new PDXObject(stream, kind.value);
    r := Ok(Some(x));
  }
}
