/**
 * PDPage: a page dictionary of the document, read through its page
 * boundaries (section 14.11.2 of ISO 32000-1), its rotation and its
 * contents. The dictionary lives in the document's Store; the wrapper keeps
 * two fields of its own: the cached MediaBox, which getMediaBox fills on
 * first use and setMediaBox overwrites, and the cached resources, which
 * getResources fills on first use.
 */
module Page {
  import opened Cos
  import opened PageTreeSpec
  import opened PageTreeEdits
  import opened PageTree

  const MEDIA_BOX: string := "MediaBox"
  const CROP_BOX: string := "CropBox"
  const BLEED_BOX: string := "BleedBox"
  const TRIM_BOX: string := "TrimBox"
  const ART_BOX: string := "ArtBox"
  const ROTATE: string := "Rotate"
  const CONTENTS: string := "Contents"
  const RESOURCES: string := "Resources"

  /** PDRectangle.LETTER: 8.5 by 11 inches at 72 points per inch, at the origin. */
  const LETTER: Rect := Rect(0.0, 0.0, 612.0, 792.0)

  /* Reading entries */

  /** (COSArray) getInheritableAttribute(page, key): the inherited value, which must be an array. */
  function InheritedArray(nodes: map<NodeId, Node>, parent: map<NodeId, NodeId>, ghost rank: map<NodeId, nat>,
                          n: NodeId, key: string): (r: Result<Option<seq<CosValue>>>)
    requires ParentsRanked(nodes.Keys, parent, rank) && n in nodes
    ensures r.Err? ==> r.error == ClassCast
  {
    match GetInheritableAttribute(nodes, parent, rank, n, key)
    case None => Ok(None)
    case Some(CosArray(items)) => Ok(Some(items))
    case Some(_) => Err(ClassCast)
  }

  /** getDictionaryObject(key, COSArray.class): the page's own entry when it is an array; anything else reads as null. */
  function OwnArray(node: Node, key: string): Option<seq<CosValue>> {
    if Holds(node, key) && node.attrs[key].CosArray? then Some(node.attrs[key].items) else None
  }

  /** (COSArray) getDictionaryObject(key): the page's own entry, which must be an array. */
  function OwnArrayCast(node: Node, key: string): Result<Option<seq<CosValue>>> {
    if !Holds(node, key) then Ok(None)
    else if node.attrs[key].CosArray? then Ok(Some(node.attrs[key].items))
    else Err(ClassCast)
  }

  /** The rectangle a setter stores: its array, or nothing when the argument is null. */
  function BoxEntry(box: Option<Rect>): Option<CosValue> {
    match box
    case None => None
    case Some(b) => Some(ArrayOfRect(b))
  }

  /** COSDictionary.setItem / removeItem on a dictionary: null removes the key. */
  function SetEntry(node: Node, key: string, v: Option<CosValue>): (r: Node)
    ensures r.typ == node.typ && r.kids == node.kids
    ensures v.None? ==> key !in r.attrs
    ensures v.Some? ==> key in r.attrs && r.attrs[key] == v.value
    ensures forall k :: k != key ==> (k in r.attrs <==> k in node.attrs) && (k in r.attrs ==> r.attrs[k] == node.attrs[k])
  {
    match v
    case None => node.(attrs := node.attrs - {key})
    case Some(x) => node.(attrs := node.attrs[key := x])
  }

  /* The page boundaries, as functions of the document and of the cached MediaBox */

  /**
   * getMediaBox: the cached box if there is one; otherwise the inherited
   * /MediaBox array as a rectangle, or U.S. Letter when no dictionary of the
   * /Parent chain has one.
   */
  function MediaBoxOf(nodes: map<NodeId, Node>, parent: map<NodeId, NodeId>, ghost rank: map<NodeId, nat>,
                      n: NodeId, cache: Option<Rect>): (r: Result<Rect>)
    requires ParentsRanked(nodes.Keys, parent, rank) && n in nodes
    ensures cache.Some? ==> r == Ok(cache.value)
    ensures r.Err? ==> r.error == ClassCast && cache.None?
    ensures cache.None? && r.Ok? ==> r.value.llx <= r.value.urx && r.value.lly <= r.value.ury
    ensures cache.None? && GetInheritableAttribute(nodes, parent, rank, n, MEDIA_BOX).None? ==> r == Ok(LETTER)
  {
    if cache.Some? then Ok(cache.value)
    else
      match InheritedArray(nodes, parent, rank, n, MEDIA_BOX)
      case Err(e) => Err(e)
      case Ok(None) => Ok(LETTER)
      case Ok(Some(items)) => Ok(RectOfArray(items))
  }

  /** The cache after getMediaBox has run: filled when it was empty and the read succeeded. */
  function Cached(nodes: map<NodeId, Node>, parent: map<NodeId, NodeId>, ghost rank: map<NodeId, nat>,
                  n: NodeId, cache: Option<Rect>): (c: Option<Rect>)
    requires ParentsRanked(nodes.Keys, parent, rank) && n in nodes
    ensures MediaBoxOf(nodes, parent, rank, n, c) == MediaBoxOf(nodes, parent, rank, n, cache)
    ensures c.Some? <==> MediaBoxOf(nodes, parent, rank, n, cache).Ok?
  {
    match MediaBoxOf(nodes, parent, rank, n, cache)
    case Ok(m) => Some(m)
    case Err(_) => cache
  }

  /** inMediaBoxBounds: the box's corners lie within the media box's, edge by edge. */
  function InBounds(box: Rect, mediaBox: Rect): (b: bool)
    ensures b <==> Within(box, mediaBox)
    ensures b && box.llx <= box.urx && box.lly <= box.ury ==>
              box.Width() <= mediaBox.Width() && box.Height() <= mediaBox.Height()
  {
    && mediaBox.llx <= box.llx
    && mediaBox.lly <= box.lly
    && mediaBox.urx >= box.urx
    && mediaBox.ury >= box.ury
  }

  /**
   * getCropBox: the inherited /CropBox when it lies within the media box,
   * otherwise the media box; a /CropBox that is not an array is a
   * ClassCastException.
   */
  function CropBoxOf(nodes: map<NodeId, Node>, parent: map<NodeId, NodeId>, ghost rank: map<NodeId, nat>,
                     n: NodeId, cache: Option<Rect>): (r: Result<Rect>)
    requires ParentsRanked(nodes.Keys, parent, rank) && n in nodes
    ensures r.Err? ==> r.error == ClassCast
    ensures r.Ok? ==> MediaBoxOf(nodes, parent, rank, n, cache).Ok?
                      && Within(r.value, MediaBoxOf(nodes, parent, rank, n, cache).value)
    ensures GetInheritableAttribute(nodes, parent, rank, n, CROP_BOX).None? ==> r == MediaBoxOf(nodes, parent, rank, n, cache)
  {
    match InheritedArray(nodes, parent, rank, n, CROP_BOX)
    case Err(e) => Err(e)
    case Ok(None) => MediaBoxOf(nodes, parent, rank, n, cache)
    case Ok(Some(items)) =>
      match MediaBoxOf(nodes, parent, rank, n, cache)
      case Err(e) => Err(e)
      case Ok(m) => if InBounds(RectOfArray(items), m) then Ok(RectOfArray(items)) else Ok(m)
  }

  /** The boxes that default to the CropBox and are not inherited. */
  predicate OwnBoxKey(key: string) {
    key == BLEED_BOX || key == TRIM_BOX || key == ART_BOX
  }

  /**
   * getBleedBox, getTrimBox, getArtBox: the page's own box when it lies
   * within the media box, otherwise the CropBox. A /BleedBox or /ArtBox that
   * is not an array is ignored; a /TrimBox that is not an array is a
   * ClassCastException.
   */
  function OwnBoxOf(nodes: map<NodeId, Node>, parent: map<NodeId, NodeId>, ghost rank: map<NodeId, nat>,
                    n: NodeId, key: string, cache: Option<Rect>): (r: Result<Rect>)
    requires ParentsRanked(nodes.Keys, parent, rank) && n in nodes && OwnBoxKey(key)
    ensures r.Err? ==> r.error == ClassCast
    ensures r.Ok? ==> MediaBoxOf(nodes, parent, rank, n, cache).Ok?
                      && Within(r.value, MediaBoxOf(nodes, parent, rank, n, cache).value)
    ensures !Holds(nodes[n], key) ==> r == CropBoxOf(nodes, parent, rank, n, cache)
  {
    var own := if key == TRIM_BOX then OwnArrayCast(nodes[n], key) else Ok(OwnArray(nodes[n], key));
    match own
    case Err(e) => Err(e)
    case Ok(None) => CropBoxOf(nodes, parent, rank, n, cache)
    case Ok(Some(items)) =>
      match MediaBoxOf(nodes, parent, rank, n, cache)
      case Err(e) => Err(e)
      case Ok(m) =>
        if InBounds(RectOfArray(items), m) then Ok(RectOfArray(items))
        else CropBoxOf(nodes, parent, rank, n, Some(m))
  }

  /** Whether a getter leaves the cache filled: it read the media box at least once. */
  function ReadsMediaBox(nodes: map<NodeId, Node>, parent: map<NodeId, NodeId>, ghost rank: map<NodeId, nat>,
                         n: NodeId, own: Result<Option<seq<CosValue>>>): bool
    requires ParentsRanked(nodes.Keys, parent, rank) && n in nodes
  {
    own.Ok? && (own.value.Some? || InheritedArray(nodes, parent, rank, n, CROP_BOX).Ok?)
  }

  /* Rotation and contents */

  /** For a negative dividend, Java's remainder is the negated remainder of its magnitude. */
  lemma NegRem90(b: int)
    requires b > 0
    ensures (-b) % 90 == 0 <==> b % 90 == 0
  {
    var q, s := b / 90, b % 90;
    assert b == 90 * q + s;
    if s != 0 {
      assert -b == 90 * (-q - 1) + (90 - s);
    }
  }

  lemma NegRem360(b: int)
    requires b > 0
    ensures (360 - b % 360) % 360 == (-b) % 360
  {
    var q, s := b / 360, b % 360;
    assert b == 360 * q + s;
    if s == 0 {
      assert -b == 360 * (-q);
    } else {
      assert -b == 360 * (-q - 1) + (360 - s);
    }
  }

  /** Java's remainders by 90 and 360 against Dafny's Euclidean ones. */
  lemma JavaRotation(a: int)
    ensures JavaRem(a, 90) == 0 <==> a % 90 == 0
    ensures (JavaRem(a, 360) + 360) % 360 == a % 360
  {
    if a < 0 {
      NegRem90(-a);
      NegRem360(-a);
    }
  }

  lemma QuarterTurns(a: int)
    requires a % 90 == 0
    ensures a % 360 == 0 || a % 360 == 90 || a % 360 == 180 || a % 360 == 270
  {
    var k := a / 90;
    assert a == 90 * k;
    var j := k % 4;
    assert k == 4 * (k / 4) + j;
    assert a == 360 * (k / 4) + 90 * j;
  }

  /**
   * getRotation: the inherited /Rotate as an int; a multiple of 90 is
   * brought into 0..359, anything else, a non-number or no entry gives 0.
   */
  function Rotation(nodes: map<NodeId, Node>, parent: map<NodeId, NodeId>, ghost rank: map<NodeId, nat>, n: NodeId): (r: int)
    requires ParentsRanked(nodes.Keys, parent, rank) && n in nodes
    ensures r == 0 || r == 90 || r == 180 || r == 270
  {
    match GetInheritableAttribute(nodes, parent, rank, n, ROTATE)
    case Some(v) =>
      if (v.CosInt? || v.CosReal?) && JavaRem(IntValue(v), 90) == 0 then
        JavaRotation(IntValue(v));
        QuarterTurns(IntValue(v));
        (JavaRem(IntValue(v), 360) + 360) % 360
      else 0
    case None => 0
  }

  /**
   * The rotation is the inherited angle reduced modulo 360 (towards a
   * non-negative result) when it is a multiple of 90, and 0 otherwise.
   */
  lemma RotationNormalises(nodes: map<NodeId, Node>, parent: map<NodeId, NodeId>, rank: map<NodeId, nat>, n: NodeId)
    requires ParentsRanked(nodes.Keys, parent, rank) && n in nodes
    ensures var v := GetInheritableAttribute(nodes, parent, rank, n, ROTATE);
            Rotation(nodes, parent, rank, n) ==
              if v.Some? && (v.value.CosInt? || v.value.CosReal?) && IntValue(v.value) % 90 == 0
              then IntValue(v.value) % 360 else 0
  {
    var v := GetInheritableAttribute(nodes, parent, rank, n, ROTATE);
    if v.Some? && (v.value.CosInt? || v.value.CosReal?) {
      JavaRotation(IntValue(v.value));
    }
  }

  /** hasContents: /Contents is a stream with data or an array with elements. */
  function HasContents(node: Node): (b: bool)
    ensures b <==> Holds(node, CONTENTS) && match node.attrs[CONTENTS]
                                             case CosStream(size) => size > 0
                                             case CosArray(items) => |items| > 0
                                             case _ => false
  {
    if CONTENTS !in node.attrs then false
    else
      match node.attrs[CONTENTS]
      case CosStream(size) => size > 0
      case CosArray(items) => items != []
      case _ => false
  }

  /* Frames: an entry other than the key does not change what the key inherits */

  /** Every dictionary holds the same value, or none, for the key in both maps. */
  predicate SameEntry(n1: map<NodeId, Node>, n2: map<NodeId, Node>, key: string) {
    && n1.Keys == n2.Keys
    && forall m :: m in n1 ==> Holds(n1[m], key) == Holds(n2[m], key)
                               && (Holds(n1[m], key) ==> n1[m].attrs[key] == n2[m].attrs[key])
  }

  lemma {:induction false} InheritFrame(n1: map<NodeId, Node>, n2: map<NodeId, Node>, parent: map<NodeId, NodeId>,
                                        rank: map<NodeId, nat>, n: NodeId, key: string)
    requires ParentsRanked(n1.Keys, parent, rank) && n in n1 && SameEntry(n1, n2, key)
    ensures GetInheritableAttribute(n2, parent, rank, n, key) == GetInheritableAttribute(n1, parent, rank, n, key)
    decreases Above(n1.Keys, rank, n)
  {
    if !Holds(n1[n], key) {
      match Parent(n1.Keys, parent, n)
      case None =>
      case Some(p) =>
        AboveShrinks(n1.Keys, parent, rank, n, p);
        InheritFrame(n1, n2, parent, rank, p, key);
    }
  }

  /** Setting one entry of a page leaves every other key's entries, and so their inheritance, alone. */
  lemma SetEntryFrame(nodes: map<NodeId, Node>, parent: map<NodeId, NodeId>, rank: map<NodeId, nat>,
                      n: NodeId, key: string, v: Option<CosValue>, other: string)
    requires ParentsRanked(nodes.Keys, parent, rank) && n in nodes && other != key
    ensures var after := nodes[n := SetEntry(nodes[n], key, v)];
            GetInheritableAttribute(after, parent, rank, n, other) == GetInheritableAttribute(nodes, parent, rank, n, other)
  {
    InheritFrame(nodes, nodes[n := SetEntry(nodes[n], key, v)], parent, rank, n, other);
  }

  /* Round trips: what a setter stores is what the getter then returns */

  /** setRotation then getRotation: the angle, normalised, or 0 when it is not a multiple of 90. */
  lemma SetRotationReadsBack(nodes: map<NodeId, Node>, parent: map<NodeId, NodeId>, rank: map<NodeId, nat>,
                             n: NodeId, angle: int)
    requires ParentsRanked(nodes.Keys, parent, rank) && n in nodes && INT_MIN <= angle <= INT_MAX
    ensures var after := nodes[n := SetEntry(nodes[n], ROTATE, Some(CosInt(angle)))];
            Rotation(after, parent, rank, n) == if angle % 90 == 0 then angle % 360 else 0
  {
    var after := nodes[n := SetEntry(nodes[n], ROTATE, Some(CosInt(angle)))];
    assert GetInheritableAttribute(after, parent, rank, n, ROTATE) == Some(CosInt(angle));
    RotationNormalises(after, parent, rank, n);
  }

  /**
   * setMediaBox(box) then getMediaBox on a fresh wrapper of the page: box
   * itself when it is normalised; after setMediaBox(null), the box inherited
   * from the parent, or U.S. Letter for a page without one.
   */
  lemma SetMediaBoxReadsBack(nodes: map<NodeId, Node>, parent: map<NodeId, NodeId>, rank: map<NodeId, nat>,
                             n: NodeId, box: Option<Rect>)
    requires ParentsRanked(nodes.Keys, parent, rank) && n in nodes
    requires box.Some? ==> box.value.llx <= box.value.urx && box.value.lly <= box.value.ury
    ensures var after := nodes[n := SetEntry(nodes[n], MEDIA_BOX, BoxEntry(box))];
            MediaBoxOf(after, parent, rank, n, None) ==
              match box
              case Some(b) => Ok(b)
              case None =>
                match Parent(nodes.Keys, parent, n)
                case None => Ok(LETTER)
                case Some(p) => MediaBoxOf(nodes, parent, rank, p, None)
  {
    var after := nodes[n := SetEntry(nodes[n], MEDIA_BOX, BoxEntry(box))];
    match box
    case Some(b) =>
      RectArrayRoundTrip(b);
    case None =>
      assert !Holds(after[n], MEDIA_BOX);
      match Parent(nodes.Keys, parent, n)
      case None =>
      case Some(p) =>
        assert Parent(after.Keys, parent, n) == Some(p);
        // p ranks above n, so it is not the page that changed
        assert after[p] == nodes[p];
        var mid := nodes[n := after[n].(attrs := nodes[n].attrs)];
        assert mid == nodes;
        PageEntryFrame(nodes, after, parent, rank, p, n, MEDIA_BOX);
  }

  /** Changing one dictionary does not change what a dictionary above it inherits. */
  lemma {:induction false} PageEntryFrame(nodes: map<NodeId, Node>, after: map<NodeId, Node>, parent: map<NodeId, NodeId>,
                                          rank: map<NodeId, nat>, p: NodeId, n: NodeId, key: string)
    requires ParentsRanked(nodes.Keys, parent, rank) && p in nodes && n in nodes && rank[n] < rank[p]
    requires after.Keys == nodes.Keys && forall m :: m in nodes && m != n ==> after[m] == nodes[m]
    ensures GetInheritableAttribute(after, parent, rank, p, key) == GetInheritableAttribute(nodes, parent, rank, p, key)
    decreases Above(nodes.Keys, rank, p)
  {
    if !Holds(nodes[p], key) {
      match Parent(nodes.Keys, parent, p)
      case None =>
      case Some(q) =>
        AboveShrinks(nodes.Keys, parent, rank, p, q);
        PageEntryFrame(nodes, after, parent, rank, q, n, key);
    }
  }

  /** A page's own entry is what it inherits for that key. */
  lemma OwnEntryInherited(nodes: map<NodeId, Node>, parent: map<NodeId, NodeId>, rank: map<NodeId, nat>,
                          n: NodeId, key: string, v: CosValue)
    requires ParentsRanked(nodes.Keys, parent, rank) && n in nodes && v != CosNull
    ensures var after := nodes[n := SetEntry(nodes[n], key, Some(v))];
            ParentsRanked(after.Keys, parent, rank) && GetInheritableAttribute(after, parent, rank, n, key) == Some(v)
  {
    var after := nodes[n := SetEntry(nodes[n], key, Some(v))];
    assert after.Keys == nodes.Keys;
    assert Holds(after[n], key);
  }

  /**
   * getResources before anything is cached, as the page dictionaries it
   * leaves: the inherited /Resources dictionary (or stream, which is a
   * dictionary too) is used as it is; with no inherited /Resources the page
   * gets a new empty dictionary of its own, since a page without resources
   * is not allowed; a /Resources of any other type fails the cast.
   */
  function ResourcesOf(nodes: map<NodeId, Node>, parent: map<NodeId, NodeId>, ghost rank: map<NodeId, nat>,
                       n: NodeId): (r: Result<map<NodeId, Node>>)
    requires ParentsRanked(nodes.Keys, parent, rank) && n in nodes
    ensures var a := GetInheritableAttribute(nodes, parent, rank, n, RESOURCES);
            r.Err? <==> a.Some? && !IsDictionary(a.value)
    ensures r.Err? ==> r.error == ClassCast
    ensures r.Ok? ==> && r.value.Keys == nodes.Keys && ParentsRanked(r.value.Keys, parent, rank)
                      && (forall m :: m in nodes && m != n ==> r.value[m] == nodes[m])
    ensures r.Ok? ==> var b := GetInheritableAttribute(r.value, parent, rank, n, RESOURCES);
                      b.Some? && IsDictionary(b.value)
    ensures r.Ok? && GetInheritableAttribute(nodes, parent, rank, n, RESOURCES).Some? ==> r.value == nodes
    ensures r.Ok? && GetInheritableAttribute(nodes, parent, rank, n, RESOURCES).None? ==>
              GetInheritableAttribute(r.value, parent, rank, n, RESOURCES) == Some(CosDictionary)
  {
    match GetInheritableAttribute(nodes, parent, rank, n, RESOURCES)
    case Some(v) => if IsDictionary(v) then Ok(nodes) else Err(ClassCast)
    case None =>
      OwnEntryInherited(nodes, parent, rank, n, RESOURCES, CosDictionary);
      Ok(nodes[n := SetEntry(nodes[n], RESOURCES, Some(CosDictionary))])
  }

  /** The repair is done once: a page getResources has repaired reads its resources without further change. */
  lemma ResourcesRepairStable(nodes: map<NodeId, Node>, parent: map<NodeId, NodeId>, rank: map<NodeId, nat>, n: NodeId)
    requires ParentsRanked(nodes.Keys, parent, rank) && n in nodes && ResourcesOf(nodes, parent, rank, n).Ok?
    ensures var after := ResourcesOf(nodes, parent, rank, n).value;
            ResourcesOf(after, parent, rank, n) == Ok(after)
  {
  }

  /** Repairing the resources leaves every other entry the page inherits as it was. */
  lemma ResourcesRepairFrame(nodes: map<NodeId, Node>, parent: map<NodeId, NodeId>, rank: map<NodeId, nat>,
                             n: NodeId, key: string)
    requires ParentsRanked(nodes.Keys, parent, rank) && n in nodes && ResourcesOf(nodes, parent, rank, n).Ok?
    requires key != RESOURCES
    ensures GetInheritableAttribute(ResourcesOf(nodes, parent, rank, n).value, parent, rank, n, key)
         == GetInheritableAttribute(nodes, parent, rank, n, key)
  {
    if GetInheritableAttribute(nodes, parent, rank, n, RESOURCES).None? {
      SetEntryFrame(nodes, parent, rank, n, RESOURCES, Some(CosDictionary), key);
    }
  }

  /**
   * setCropBox(box) then getCropBox: box itself when it is normalised and
   * lies within the media box, which the setter leaves as it was.
   */
  lemma SetCropBoxReadsBack(nodes: map<NodeId, Node>, parent: map<NodeId, NodeId>, rank: map<NodeId, nat>,
                            n: NodeId, b: Rect, cache: Option<Rect>)
    requires ParentsRanked(nodes.Keys, parent, rank) && n in nodes
    requires b.llx <= b.urx && b.lly <= b.ury
    requires MediaBoxOf(nodes, parent, rank, n, cache).Ok? && Within(b, MediaBoxOf(nodes, parent, rank, n, cache).value)
    ensures var after := nodes[n := SetEntry(nodes[n], CROP_BOX, Some(ArrayOfRect(b)))];
            MediaBoxOf(after, parent, rank, n, cache) == MediaBoxOf(nodes, parent, rank, n, cache)
            && CropBoxOf(after, parent, rank, n, cache) == Ok(b)
  {
    var after := nodes[n := SetEntry(nodes[n], CROP_BOX, Some(ArrayOfRect(b)))];
    assert after.Keys == nodes.Keys;
    SetEntryFrame(nodes, parent, rank, n, CROP_BOX, Some(ArrayOfRect(b)), MEDIA_BOX);
    RectArrayRoundTrip(b);
    OwnEntryInherited(nodes, parent, rank, n, CROP_BOX, ArrayOfRect(b));
  }

  /**
   * setBleedBox, setTrimBox or setArtBox then the getter: the stored box when
   * it is normalised and within the media box; after a null, the CropBox,
   * which the setter leaves as it was.
   */
  lemma SetOwnBoxReadsBack(nodes: map<NodeId, Node>, parent: map<NodeId, NodeId>, rank: map<NodeId, nat>,
                           n: NodeId, key: string, box: Option<Rect>, cache: Option<Rect>)
    requires ParentsRanked(nodes.Keys, parent, rank) && n in nodes && OwnBoxKey(key)
    requires box.Some? ==> box.value.llx <= box.value.urx && box.value.lly <= box.value.ury
    requires box.Some? ==> MediaBoxOf(nodes, parent, rank, n, cache).Ok?
                           && Within(box.value, MediaBoxOf(nodes, parent, rank, n, cache).value)
    ensures var after := nodes[n := SetEntry(nodes[n], key, BoxEntry(box))];
            && MediaBoxOf(after, parent, rank, n, cache) == MediaBoxOf(nodes, parent, rank, n, cache)
            && CropBoxOf(after, parent, rank, n, cache) == CropBoxOf(nodes, parent, rank, n, cache)
            && OwnBoxOf(after, parent, rank, n, key, cache) ==
                 if box.Some? then Ok(box.value) else CropBoxOf(nodes, parent, rank, n, cache)
  {
    var after := nodes[n := SetEntry(nodes[n], key, BoxEntry(box))];
    SetEntryKeepsBoxes(nodes, parent, rank, n, key, BoxEntry(box), cache);
    if box.Some? {
      OwnBoxStored(nodes, parent, rank, n, key, box.value, cache, MediaBoxOf(nodes, parent, rank, n, cache).value);
    } else {
      assert !Holds(after[n], key);
    }
  }

  lemma OwnBoxStored(nodes: map<NodeId, Node>, parent: map<NodeId, NodeId>, rank: map<NodeId, nat>,
                     n: NodeId, key: string, b: Rect, cache: Option<Rect>, m: Rect)
    requires ParentsRanked(nodes.Keys, parent, rank) && n in nodes && OwnBoxKey(key)
    requires b.llx <= b.urx && b.lly <= b.ury && Within(b, m)
    requires var after := nodes[n := SetEntry(nodes[n], key, Some(ArrayOfRect(b)))];
             ParentsRanked(after.Keys, parent, rank) && MediaBoxOf(after, parent, rank, n, cache) == Ok(m)
    ensures OwnBoxOf(nodes[n := SetEntry(nodes[n], key, Some(ArrayOfRect(b)))], parent, rank, n, key, cache) == Ok(b)
  {
    RectArrayRoundTrip(b);
    var after := nodes[n := SetEntry(nodes[n], key, Some(ArrayOfRect(b)))];
    assert after[n].attrs[key] == ArrayOfRect(b);
    assert InBounds(RectOfArray(ArrayOfRect(b).items), m);
  }

  /** Setting an entry other than /MediaBox and /CropBox changes neither box. */
  lemma SetEntryKeepsBoxes(nodes: map<NodeId, Node>, parent: map<NodeId, NodeId>, rank: map<NodeId, nat>,
                           n: NodeId, key: string, v: Option<CosValue>, cache: Option<Rect>)
    requires ParentsRanked(nodes.Keys, parent, rank) && n in nodes && key != MEDIA_BOX && key != CROP_BOX
    ensures var after := nodes[n := SetEntry(nodes[n], key, v)];
            && ParentsRanked(after.Keys, parent, rank)
            && MediaBoxOf(after, parent, rank, n, cache) == MediaBoxOf(nodes, parent, rank, n, cache)
            && CropBoxOf(after, parent, rank, n, cache) == CropBoxOf(nodes, parent, rank, n, cache)
  {
    var after := nodes[n := SetEntry(nodes[n], key, v)];
    assert after.Keys == nodes.Keys;
    SetEntryFrame(nodes, parent, rank, n, key, v, MEDIA_BOX);
    SetEntryFrame(nodes, parent, rank, n, key, v, CROP_BOX);
  }

  /* The page object */

  /** new PDPage(pageDictionary): a page of the document, with its cached MediaBox. */
  class PDPage {
    const store: Store
    const id: NodeId
    var mediaBox: Option<Rect>
    var resources: Option<CosValue>

    ghost predicate Valid()
      reads this, store
    {
      store.Valid() && id in store.nodes
    }

    constructor (store: Store, id: NodeId)
      requires store.Valid() && id in store.nodes
      ensures this.store == store && this.id == id && mediaBox == None && resources == None && Valid()
    {
      this.store := store;
      this.id := id;
      mediaBox := None;
      resources := None;
    }

    /** getMediaBox: the box, read once and then kept in the cache. */
    method GetMediaBox() returns (r: Result<Rect>)
      requires Valid()
      modifies this`mediaBox
      ensures r == MediaBoxOf(store.nodes, store.parent, store.rank, id, old(mediaBox))
      ensures mediaBox == Cached(store.nodes, store.parent, store.rank, id, old(mediaBox))
    {
      if mediaBox.None? {
        var entry := InheritedArray(store.nodes, store.parent, store.rank, id, MEDIA_BOX);
        if entry.Err? {
          return Err(entry.error);
        }
        if entry.value.Some? {
          mediaBox := Some(RectOfArray(entry.value.value));
        }
      }
      if mediaBox.None? {
        mediaBox := Some(LETTER);
      }
      r := Ok(mediaBox.value);
    }

    /** getResources: the resources, looked up (and repaired) once and then kept in the cache. */
    method GetResources() returns (r: Result<CosValue>)
      requires Valid()
      modifies this`resources, store
      ensures Valid() && store.parent == old(store.parent) && store.count == old(store.count) && store.rank == old(store.rank)
      ensures old(resources).Some? ==> r == Ok(old(resources).value) && resources == old(resources) && store.nodes == old(store.nodes)
      ensures old(resources).None? ==>
                match ResourcesOf(old(store.nodes), store.parent, store.rank, id)
                case Err(e) => r == Err(e) && resources == None && store.nodes == old(store.nodes)
                case Ok(after) => && r.Ok? && resources == Some(r.value) && store.nodes == after
                                  && GetInheritableAttribute(after, store.parent, store.rank, id, RESOURCES) == Some(r.value)
    {
      if resources.Some? {
        return Ok(resources.value);
      }
      var inherited := GetInheritableAttribute(store.nodes, store.parent, store.rank, id, RESOURCES);
      var value := CosDictionary;
      if inherited.Some? {
        if !IsDictionary(inherited.value) {
          return Err(ClassCast);
        }
        value := inherited.value;
      } else {
        PutEntry(RESOURCES, Some(CosDictionary));
      }
      resources := Some(value);
      r := Ok(value);
    }

    /** inMediaBoxBounds: whether the box lies within the media box, which this reads. */
    method InMediaBoxBounds(box: Rect) returns (r: Result<bool>)
      requires Valid()
      modifies this`mediaBox
      ensures var m := MediaBoxOf(store.nodes, store.parent, store.rank, id, old(mediaBox));
              r == if m.Ok? then Ok(Within(box, m.value)) else Err(m.error)
      ensures mediaBox == Cached(store.nodes, store.parent, store.rank, id, old(mediaBox))
    {
      var m := GetMediaBox();
      if m.Err? {
        return Err(m.error);
      }
      r := Ok(InBounds(box, m.value));
    }

    /** getCropBox */
    method GetCropBox() returns (r: Result<Rect>)
      requires Valid()
      modifies this`mediaBox
      ensures r == CropBoxOf(store.nodes, store.parent, store.rank, id, old(mediaBox))
      ensures mediaBox == if InheritedArray(store.nodes, store.parent, store.rank, id, CROP_BOX).Err? then old(mediaBox)
                          else Cached(store.nodes, store.parent, store.rank, id, old(mediaBox))
    {
      var entry := InheritedArray(store.nodes, store.parent, store.rank, id, CROP_BOX);
      if entry.Err? {
        return Err(entry.error);
      }
      if entry.value.Some? {
        var inside := InMediaBoxBounds(RectOfArray(entry.value.value));
        if inside.Err? {
          return Err(inside.error);
        }
        if inside.value {
          return Ok(RectOfArray(entry.value.value));
        }
      }
      r := GetMediaBox();
    }

    /** The shared body of getBleedBox, getTrimBox and getArtBox, given the page's own entry as read. */
    method OwnBoxOrCropBox(key: string, own: Result<Option<seq<CosValue>>>) returns (r: Result<Rect>)
      requires Valid() && OwnBoxKey(key)
      requires own == if key == TRIM_BOX then OwnArrayCast(store.nodes[id], key) else Ok(OwnArray(store.nodes[id], key))
      modifies this`mediaBox
      ensures r == OwnBoxOf(store.nodes, store.parent, store.rank, id, key, old(mediaBox))
      ensures mediaBox == if ReadsMediaBox(store.nodes, store.parent, store.rank, id, own)
                          then Cached(store.nodes, store.parent, store.rank, id, old(mediaBox)) else old(mediaBox)
    {
      if own.Err? {
        return Err(own.error);
      }
      if own.value.Some? {
        var inside := InMediaBoxBounds(RectOfArray(own.value.value));
        if inside.Err? {
          return Err(inside.error);
        }
        if inside.value {
          return Ok(RectOfArray(own.value.value));
        }
      }
      r := GetCropBox();
    }

    /** getBleedBox: a /BleedBox that is not an array reads as none. */
    method GetBleedBox() returns (r: Result<Rect>)
      requires Valid()
      modifies this`mediaBox
      ensures r == OwnBoxOf(store.nodes, store.parent, store.rank, id, BLEED_BOX, old(mediaBox))
    {
      r := OwnBoxOrCropBox(BLEED_BOX, Ok(OwnArray(store.nodes[id], BLEED_BOX)));
    }

    /** getTrimBox: a /TrimBox that is not an array is a ClassCastException. */
    method GetTrimBox() returns (r: Result<Rect>)
      requires Valid()
      modifies this`mediaBox
      ensures r == OwnBoxOf(store.nodes, store.parent, store.rank, id, TRIM_BOX, old(mediaBox))
    {
      r := OwnBoxOrCropBox(TRIM_BOX, OwnArrayCast(store.nodes[id], TRIM_BOX));
    }

    /** getArtBox: an /ArtBox that is not an array reads as none. */
    method GetArtBox() returns (r: Result<Rect>)
      requires Valid()
      modifies this`mediaBox
      ensures r == OwnBoxOf(store.nodes, store.parent, store.rank, id, ART_BOX, old(mediaBox))
    {
      r := OwnBoxOrCropBox(ART_BOX, Ok(OwnArray(store.nodes[id], ART_BOX)));
    }

    /** setItem / removeItem on the page dictionary; no other dictionary and no other key changes. */
    method PutEntry(key: string, v: Option<CosValue>)
      requires Valid()
      modifies store
      ensures Valid()
      ensures store.nodes == old(store.nodes)[id := SetEntry(old(store.nodes)[id], key, v)]
      ensures store.parent == old(store.parent) && store.count == old(store.count) && store.rank == old(store.rank)
    {
      ghost var n0 := store.nodes;
      store.nodes := store.nodes[id := SetEntry(store.nodes[id], key, v)];
      assert SameShape(n0, store.nodes);
      ShapeKeepsRanked(n0, store.nodes, store.parent, store.rank);
    }

    /** setMediaBox: the cache takes the new box, and the dictionary stores it (or drops it for null). */
    method SetMediaBox(box: Option<Rect>)
      requires Valid()
      modifies this, store
      ensures Valid() && mediaBox == box && resources == old(resources)
      ensures store.nodes == old(store.nodes)[id := SetEntry(old(store.nodes)[id], MEDIA_BOX, BoxEntry(box))]
      ensures store.parent == old(store.parent) && store.count == old(store.count) && store.rank == old(store.rank)
    {
      mediaBox := box;
      PutEntry(MEDIA_BOX, BoxEntry(box));
    }

    /** setCropBox, setBleedBox, setTrimBox, setArtBox: the box is stored, or removed for null; the cache stays. */
    method SetBox(key: string, box: Option<Rect>)
      requires Valid() && (key == CROP_BOX || OwnBoxKey(key))
      modifies store
      ensures Valid()
      ensures store.nodes == old(store.nodes)[id := SetEntry(old(store.nodes)[id], key, BoxEntry(box))]
      ensures store.parent == old(store.parent) && store.count == old(store.count) && store.rank == old(store.rank)
    {
      PutEntry(key, BoxEntry(box));
    }

    /** setRotation: /Rotate takes the angle as given. */
    method SetRotation(angle: int)
      requires Valid() && INT_MIN <= angle <= INT_MAX
      modifies store
      ensures Valid()
      ensures store.nodes == old(store.nodes)[id := SetEntry(old(store.nodes)[id], ROTATE, Some(CosInt(angle)))]
      ensures store.parent == old(store.parent) && store.count == old(store.count) && store.rank == old(store.rank)
    {
      PutEntry(ROTATE, Some(CosInt(angle)));
    }
  }
}
