/**
 * The searches of PDPageTree as pure functions, with the methods that
 * compute them: the private get, which finds a page by its number trusting
 * the /Count entries, and the scan of insertBefore and insertAfter for a
 * page among the entries of a /Kids array.
 */
module PageTreeSearch {
  import opened Cos
  import opened PageTreeSpec

  /**
   * The counts below node are right and numbering its pages from
   * encountered + 1 stays within the range of a Java int.
   */
  ghost predicate Fits(nodes: map<NodeId, Node>, count: map<NodeId, int>, rank: map<NodeId, nat>, node: NodeId, encountered: int) {
    CountsAgree(nodes, count, rank, node) && 0 <= encountered && encountered + |Leaves(nodes, rank, node)| <= INT_MAX
  }

  /** The counts of every intermediate node below kids are right. */
  ghost predicate CountsAgreeBelow(nodes: map<NodeId, Node>, count: map<NodeId, int>, rank: map<NodeId, nat>,
                                   kids: seq<NodeId>, bound: nat) {
    forall m :: m in NodesOfKids(nodes, rank, kids, bound) && m in nodes && IsPageTreeNode(nodes[m]) ==>
      m in count && count[m] == |Leaves(nodes, rank, m)|
  }

  /**
   * The private get as a function: the result of the search for the page
   * numbered pageNum, counting from 1, below node, when encountered pages
   * come before node. The search trusts the /Count entries and adds them up
   * with Java int arithmetic; every failure is a PageNotFoundException.
   */
  ghost function Located(nodes: map<NodeId, Node>, count: map<NodeId, int>, rank: map<NodeId, nat>,
                         pageNum: int, node: NodeId, encountered: int): Result<NodeId>
    decreases RankOf(rank, node), 1
  {
    if pageNum < 0 || node !in nodes then Err(PageNotFound)
    else if !IsPageTreeNode(nodes[node]) then
      (if encountered == pageNum then Ok(node) else Err(PageNotFound))
    else if pageNum > WrapToInt(encountered + CountOf(count, node)) then Err(PageNotFound)
    else LocatedInKids(nodes, count, rank, pageNum, GetKids(nodes, node), 0, RankOf(rank, node), encountered)
  }

  /** What one turn of the loop of the private get does with a kid: search below it, or pass it. */
  datatype Step = Descend(enc: int) | Pass(enc: int)

  /**
   * One turn of the loop, after enc pages: an intermediate kid whose /Count
   * reaches pageNum is searched, as is a page that is the pageNum-th; any
   * other kid is passed, adding its pages to enc.
   */
  ghost function KidStep(nodes: map<NodeId, Node>, count: map<NodeId, int>, rank: map<NodeId, nat>,
                         pageNum: int, kid: NodeId, bound: nat, enc: int): (s: Step)
    ensures s.Descend? ==> kid in nodes && RankOf(rank, kid) < bound
  {
    if RankOf(rank, kid) >= bound || kid !in nodes then Pass(enc)
    else if IsPageTreeNode(nodes[kid]) then
      var next := WrapToInt(enc + CountOf(count, kid));
      if pageNum <= next then Descend(enc) else Pass(next)
    else
      var next := WrapToInt(enc + 1);
      if pageNum == next then Descend(next) else Pass(next)
  }

  /** The loop of the private get over kids from the i-th on, after enc pages. */
  ghost function LocatedInKids(nodes: map<NodeId, Node>, count: map<NodeId, int>, rank: map<NodeId, nat>,
                               pageNum: int, kids: seq<NodeId>, i: nat, bound: nat, enc: int): Result<NodeId>
    decreases bound, 0, |kids| - i
  {
    if i >= |kids| then Err(PageNotFound)
    else
      var s := KidStep(nodes, count, rank, pageNum, kids[i], bound, enc);
      if s.Descend? then Located(nodes, count, rank, pageNum, kids[i], s.enc)
      else LocatedInKids(nodes, count, rank, pageNum, kids, i + 1, bound, s.enc)
  }

  /** The pages and nodes below the kids from the i-th on: those below the i-th, then those below the rest. */
  lemma KidsFrom(nodes: map<NodeId, Node>, rank: map<NodeId, nat>, kids: seq<NodeId>, i: nat, bound: nat)
    requires i < |kids|
    ensures LeavesOfKids(nodes, rank, kids[i..], bound)
         == (if RankOf(rank, kids[i]) < bound then Leaves(nodes, rank, kids[i]) else []) + LeavesOfKids(nodes, rank, kids[i + 1..], bound)
    ensures NodesOfKids(nodes, rank, kids[i..], bound)
         == (if RankOf(rank, kids[i]) < bound then Nodes(nodes, rank, kids[i]) else []) + NodesOfKids(nodes, rank, kids[i + 1..], bound)
  {
    assert kids[i..][0] == kids[i] && kids[i..][1..] == kids[i + 1..];
  }

  /** Whatever the counts say, the private get finds only pages below node, and fails only with PageNotFound. */
  lemma {:induction false} LocatedFound(nodes: map<NodeId, Node>, count: map<NodeId, int>, rank: map<NodeId, nat>,
                                        pageNum: int, node: NodeId, encountered: int)
    ensures var r := Located(nodes, count, rank, pageNum, node, encountered);
            && (r.Ok? ==> r.value in Leaves(nodes, rank, node) && 0 <= pageNum)
            && (r.Err? ==> r.error == PageNotFound)
    decreases RankOf(rank, node), 1
  {
    if pageNum >= 0 && node in nodes && IsPageTreeNode(nodes[node])
       && pageNum <= WrapToInt(encountered + CountOf(count, node)) {
      var kids := GetKids(nodes, node);
      assert kids[0..] == kids;
      LocatedInKidsFound(nodes, count, rank, pageNum, kids, 0, RankOf(rank, node), encountered);
    }
  }

  lemma {:induction false} LocatedInKidsFound(nodes: map<NodeId, Node>, count: map<NodeId, int>, rank: map<NodeId, nat>,
                                              pageNum: int, kids: seq<NodeId>, i: nat, bound: nat, enc: int)
    requires i <= |kids|
    ensures var r := LocatedInKids(nodes, count, rank, pageNum, kids, i, bound, enc);
            && (r.Ok? ==> r.value in LeavesOfKids(nodes, rank, kids[i..], bound) && 0 <= pageNum)
            && (r.Err? ==> r.error == PageNotFound)
    decreases bound, 0, |kids| - i
  {
    if i == |kids| {
      return;
    }
    var kid := kids[i];
    var r := LocatedInKids(nodes, count, rank, pageNum, kids, i, bound, enc);
    var here := if RankOf(rank, kid) < bound then Leaves(nodes, rank, kid) else [];
    var rest := LeavesOfKids(nodes, rank, kids[i + 1..], bound);
    assert LeavesOfKids(nodes, rank, kids[i..], bound) == here + rest by {
      KidsFrom(nodes, rank, kids, i, bound);
    }
    var s := KidStep(nodes, count, rank, pageNum, kid, bound, enc);
    if s.Descend? {
      LocatedFound(nodes, count, rank, pageNum, kid, s.enc);
      FoundInRun(r, here, here, rest);
    } else {
      LocatedInKidsFound(nodes, count, rank, pageNum, kids, i + 1, bound, s.enc);
      FoundInRun(r, rest, here, rest);
    }
  }

  /** A result found in run, one of the two runs of here + rest, is found in here + rest. */
  lemma FoundInRun(r: Result<NodeId>, run: seq<NodeId>, here: seq<NodeId>, rest: seq<NodeId>)
    requires run == here || run == rest
    requires r.Ok? ==> r.value in run
    ensures r.Ok? ==> r.value in here + rest
  {
  }

  /**
   * When the counts below node are right and its page numbers fit in an
   * int, the private get finds the page numbered pageNum exactly when there
   * is one, and it is the (pageNum - encountered)-th page below node.
   */
  lemma {:induction false} LocatedCorrect(nodes: map<NodeId, Node>, count: map<NodeId, int>, rank: map<NodeId, nat>,
                                          pageNum: int, node: NodeId, encountered: int)
    requires node in nodes && IsPageTreeNode(nodes[node]) && Fits(nodes, count, rank, node, encountered)
    ensures var r, l := Located(nodes, count, rank, pageNum, node, encountered), Leaves(nodes, rank, node);
            && (r.Ok? <==> encountered < pageNum <= encountered + |l|)
            && (r.Ok? ==> r.value == l[pageNum - encountered - 1])
    decreases RankOf(rank, node), 1
  {
    var kids, b := GetKids(nodes, node), RankOf(rank, node);
    assert kids[0..] == kids;
    assert node in Nodes(nodes, rank, node);
    assert CountsAgreeBelow(nodes, count, rank, kids, b) by {
      forall m | m in NodesOfKids(nodes, rank, kids, b) ensures m in Nodes(nodes, rank, node) { }
    }
    LocatedInKidsCorrect(nodes, count, rank, pageNum, kids, 0, b, encountered);
  }

  /**
   * The loop of the private get over kids whose counts are right finds the
   * page numbered pageNum exactly when it is among the pages below them.
   */
  lemma {:induction false} LocatedInKidsCorrect(nodes: map<NodeId, Node>, count: map<NodeId, int>, rank: map<NodeId, nat>,
                                                pageNum: int, kids: seq<NodeId>, i: nat, bound: nat, enc: int)
    requires i <= |kids| && CountsAgreeBelow(nodes, count, rank, kids[i..], bound)
    requires 0 <= enc && enc + |LeavesOfKids(nodes, rank, kids[i..], bound)| <= INT_MAX
    ensures var r, l := LocatedInKids(nodes, count, rank, pageNum, kids, i, bound, enc), LeavesOfKids(nodes, rank, kids[i..], bound);
            && (r.Ok? <==> enc < pageNum <= enc + |l|)
            && (r.Ok? ==> r.value == l[pageNum - enc - 1])
    decreases bound, 0, |kids| - i, 1
  {
    if i == |kids| {
    } else if RankOf(rank, kids[i]) >= bound || kids[i] !in nodes {
      LocatedInSkippedKid(nodes, count, rank, pageNum, kids, i, bound, enc);
    } else if IsPageTreeNode(nodes[kids[i]]) {
      LocatedInNodeKid(nodes, count, rank, pageNum, kids, i, bound, enc);
    } else {
      LocatedInPageKid(nodes, count, rank, pageNum, kids, i, bound, enc);
    }
  }

  /** LocatedInKidsCorrect when the i-th kid is outside the tree below the bound, and so is passed over. */
  lemma {:induction false} LocatedInSkippedKid(nodes: map<NodeId, Node>, count: map<NodeId, int>, rank: map<NodeId, nat>,
                                               pageNum: int, kids: seq<NodeId>, i: nat, bound: nat, enc: int)
    requires i < |kids| && (RankOf(rank, kids[i]) >= bound || kids[i] !in nodes)
    requires CountsAgreeBelow(nodes, count, rank, kids[i..], bound)
    requires 0 <= enc && enc + |LeavesOfKids(nodes, rank, kids[i..], bound)| <= INT_MAX
    ensures var r, l := LocatedInKids(nodes, count, rank, pageNum, kids, i, bound, enc), LeavesOfKids(nodes, rank, kids[i..], bound);
            && (r.Ok? <==> enc < pageNum <= enc + |l|)
            && (r.Ok? ==> r.value == l[pageNum - enc - 1])
    decreases bound, 0, |kids| - i, 0
  {
    CountsAgreeFrom(nodes, count, rank, kids, i, bound);
    LocatedInKidsCorrect(nodes, count, rank, pageNum, kids, i + 1, bound, enc);
  }

  /** LocatedInKidsCorrect when the i-th kid is an intermediate node. */
  lemma {:induction false} LocatedInNodeKid(nodes: map<NodeId, Node>, count: map<NodeId, int>, rank: map<NodeId, nat>,
                                            pageNum: int, kids: seq<NodeId>, i: nat, bound: nat, enc: int)
    requires i < |kids| && kids[i] in nodes && IsPageTreeNode(nodes[kids[i]]) && RankOf(rank, kids[i]) < bound
    requires CountsAgreeBelow(nodes, count, rank, kids[i..], bound)
    requires 0 <= enc && enc + |LeavesOfKids(nodes, rank, kids[i..], bound)| <= INT_MAX
    ensures var r, l := LocatedInKids(nodes, count, rank, pageNum, kids, i, bound, enc), LeavesOfKids(nodes, rank, kids[i..], bound);
            && (r.Ok? <==> enc < pageNum <= enc + |l|)
            && (r.Ok? ==> r.value == l[pageNum - enc - 1])
    decreases bound, 0, |kids| - i, 0
  {
    var kid := kids[i];
    var lk, lr := Leaves(nodes, rank, kid), LeavesOfKids(nodes, rank, kids[i + 1..], bound);
    CountsAgreeFrom(nodes, count, rank, kids, i, bound);
    var r := LocatedInKids(nodes, count, rank, pageNum, kids, i, bound, enc);
    var s := KidStep(nodes, count, rank, pageNum, kid, bound, enc);
    var l := LeavesOfKids(nodes, rank, kids[i..], bound);
    var next := WrapToInt(enc + CountOf(count, kid));
    assert next == enc + |lk|;
    if pageNum <= next {
      assert (r.Ok? <==> enc < pageNum <= enc + |l|) && (r.Ok? ==> r.value == l[pageNum - enc - 1]) by {
        assert s == Descend(enc);
        LocatedCorrect(nodes, count, rank, pageNum, kid, enc);
        SearchHere(lk, lr, l, enc, pageNum, r);
      }
    } else {
      assert (r.Ok? <==> enc < pageNum <= enc + |l|) && (r.Ok? ==> r.value == l[pageNum - enc - 1]) by {
        assert s == Pass(next);
        LocatedInKidsCorrect(nodes, count, rank, pageNum, kids, i + 1, bound, next);
        SearchAfter(lk, lr, l, enc, pageNum, r);
      }
    }
  }

  /** LocatedInKidsCorrect when the i-th kid is a page. */
  lemma {:induction false} LocatedInPageKid(nodes: map<NodeId, Node>, count: map<NodeId, int>, rank: map<NodeId, nat>,
                                            pageNum: int, kids: seq<NodeId>, i: nat, bound: nat, enc: int)
    requires i < |kids| && kids[i] in nodes && !IsPageTreeNode(nodes[kids[i]]) && RankOf(rank, kids[i]) < bound
    requires CountsAgreeBelow(nodes, count, rank, kids[i..], bound)
    requires 0 <= enc && enc + |LeavesOfKids(nodes, rank, kids[i..], bound)| <= INT_MAX
    ensures var r, l := LocatedInKids(nodes, count, rank, pageNum, kids, i, bound, enc), LeavesOfKids(nodes, rank, kids[i..], bound);
            && (r.Ok? <==> enc < pageNum <= enc + |l|)
            && (r.Ok? ==> r.value == l[pageNum - enc - 1])
    decreases bound, 0, |kids| - i, 0
  {
    var kid := kids[i];
    var lk, lr := [kid], LeavesOfKids(nodes, rank, kids[i + 1..], bound);
    CountsAgreeFrom(nodes, count, rank, kids, i, bound);
    var r := LocatedInKids(nodes, count, rank, pageNum, kids, i, bound, enc);
    var next := WrapToInt(enc + 1);
    assert next == enc + 1;
    if pageNum == next {
      assert r == Located(nodes, count, rank, pageNum, kid, next) == Ok(kid);
      SearchHere(lk, lr, LeavesOfKids(nodes, rank, kids[i..], bound), enc, pageNum, r);
    } else {
      LocatedInKidsCorrect(nodes, count, rank, pageNum, kids, i + 1, bound, next);
      SearchAfter(lk, lr, LeavesOfKids(nodes, rank, kids[i..], bound), enc, pageNum, r);
    }
  }

  /** The counts below the kids from the i-th on are right: so are those below the i-th and those below the rest. */
  lemma CountsAgreeFrom(nodes: map<NodeId, Node>, count: map<NodeId, int>, rank: map<NodeId, nat>,
                        kids: seq<NodeId>, i: nat, bound: nat)
    requires i < |kids| && CountsAgreeBelow(nodes, count, rank, kids[i..], bound)
    ensures CountsAgreeBelow(nodes, count, rank, kids[i + 1..], bound)
    ensures LeavesOfKids(nodes, rank, kids[i..], bound)
         == (if RankOf(rank, kids[i]) < bound then Leaves(nodes, rank, kids[i]) else []) + LeavesOfKids(nodes, rank, kids[i + 1..], bound)
    ensures RankOf(rank, kids[i]) < bound && kids[i] in nodes && IsPageTreeNode(nodes[kids[i]]) ==>
              && CountsAgree(nodes, count, rank, kids[i])
              && CountOf(count, kids[i]) == |Leaves(nodes, rank, kids[i])|
  {
    var kid := kids[i];
    KidsFrom(nodes, rank, kids, i, bound);
    if RankOf(rank, kid) < bound && kid in nodes {
      assert kid in Nodes(nodes, rank, kid);
    }
  }

  /** A search that ends inside the first run lk of lk + lr. */
  lemma SearchHere(lk: seq<NodeId>, lr: seq<NodeId>, l: seq<NodeId>, enc: int, pageNum: int, r: Result<NodeId>)
    requires l == lk + lr && pageNum <= enc + |lk|
    requires (r.Ok? <==> enc < pageNum) && (r.Ok? ==> r.value == lk[pageNum - enc - 1])
    ensures r.Ok? <==> enc < pageNum <= enc + |l|
    ensures r.Ok? ==> r.value == l[pageNum - enc - 1]
  {
  }

  /** A search that goes past the first run lk of lk + lr. */
  lemma SearchAfter(lk: seq<NodeId>, lr: seq<NodeId>, l: seq<NodeId>, enc: int, pageNum: int, r: Result<NodeId>)
    requires l == lk + lr && !(enc < pageNum <= enc + |lk|)
    requires (r.Ok? <==> enc + |lk| < pageNum <= enc + |lk| + |lr|) && (r.Ok? ==> r.value == lr[pageNum - enc - |lk| - 1])
    ensures r.Ok? <==> enc < pageNum <= enc + |l|
    ensures r.Ok? ==> r.value == l[pageNum - enc - 1]
  {
  }

  /** Every kid in kids is a dictionary of the store ranked below bound. */
  ghost predicate KidsBelow(nodes: map<NodeId, Node>, rank: map<NodeId, nat>, kids: seq<NodeId>, bound: nat) {
    forall j :: 0 <= j < |kids| ==> kids[j] in nodes && RankOf(rank, kids[j]) < bound
  }

  lemma KidsOfRanked(nodes: map<NodeId, Node>, rank: map<NodeId, nat>, node: NodeId)
    requires KidsRanked(nodes, rank) && node in nodes
    ensures KidsBelow(nodes, rank, GetKids(nodes, node), RankOf(rank, node))
  {
    var kids := GetKids(nodes, node);
    forall j | 0 <= j < |kids|
      ensures kids[j] in nodes && RankOf(rank, kids[j]) < RankOf(rank, node)
    {
      assert kids[j] in kids;
    }
  }

  /**
   * The private get, searching below node after encountered pages; it only
   * reads the dictionaries, and computes Located.
   */
  method Locate(nodes: map<NodeId, Node>, counts: map<NodeId, int>, ghost rank: map<NodeId, nat>,
                pageNum: int, node: NodeId, encountered: int) returns (r: Result<NodeId>)
    requires KidsRanked(nodes, rank) && node in nodes
    requires INT_MIN <= pageNum <= INT_MAX && INT_MIN <= encountered <= INT_MAX
    ensures r == Located(nodes, counts, rank, pageNum, node, encountered)
    decreases RankOf(rank, node), 1
  {
    if pageNum < 0 {
      return Err(PageNotFound);
    }
    if !IsPageTreeNode(nodes[node]) {
      if encountered == pageNum {
        return Ok(node);
      }
      return Err(PageNotFound);
    }
    var count := CountOf(counts, node);
    if pageNum > WrapToInt(encountered + count) {
      return Err(PageNotFound);
    }
    KidsOfRanked(nodes, rank, node);
    r := LocateInKids(nodes, counts, rank, pageNum, GetKids(nodes, node), RankOf(rank, node), encountered);
  }

  /** The loop of the private get over the kids of an intermediate node; it computes LocatedInKids. */
  method LocateInKids(nodes: map<NodeId, Node>, counts: map<NodeId, int>, ghost rank: map<NodeId, nat>,
                      pageNum: int, kids: seq<NodeId>, ghost b: nat, encountered: int) returns (r: Result<NodeId>)
    requires KidsRanked(nodes, rank) && KidsBelow(nodes, rank, kids, b)
    requires INT_MIN <= pageNum <= INT_MAX && INT_MIN <= encountered <= INT_MAX
    ensures r == LocatedInKids(nodes, counts, rank, pageNum, kids, 0, b, encountered)
    decreases b, 0
  {
    var enc := encountered;
    var i := 0;
    while i < |kids|
      invariant 0 <= i <= |kids| && INT_MIN <= enc <= INT_MAX
      invariant LocatedInKids(nodes, counts, rank, pageNum, kids, 0, b, encountered)
             == LocatedInKids(nodes, counts, rank, pageNum, kids, i, b, enc)
    {
      var kid := kids[i];
      ghost var s := KidStep(nodes, counts, rank, pageNum, kid, b, enc);
      if IsPageTreeNode(nodes[kid]) {
        var next := WrapToInt(enc + CountOf(counts, kid));
        if pageNum <= next {
          assert s == Descend(enc);
          r := Locate(nodes, counts, rank, pageNum, kid, enc);
          return;
        }
        assert s == Pass(next);
        enc := next;
      } else {
        enc := WrapToInt(enc + 1);
        if pageNum == enc {
          assert s == Descend(enc);
          r := Locate(nodes, counts, rank, pageNum, kid, enc);
          return;
        }
        assert s == Pass(enc);
      }
      i := i + 1;
    }
    return Err(PageNotFound);
  }

  /* The scan of insertBefore and insertAfter */

  /**
   * The loop of insertBefore and insertAfter over the entries of a /Kids
   * array from the i-th on, looking for page: each entry is cast to a
   * dictionary and compared with page. A reference to a missing object or a
   * null reads as null and fails the comparison with a NullPointerException;
   * a direct dictionary or stream is passed over; a value of any other type
   * fails the cast with a ClassCastException. The
   * result is the index of the first reference to page, or nothing.
   */
  function ScanKids(keys: set<NodeId>, items: seq<Entry>, page: NodeId, i: nat): (r: Result<Option<nat>>)
    ensures r.Err? ==> r.error == NullPointer || r.error == ClassCast
    ensures r.Ok? && r.value.Some? ==> i <= r.value.value < |items| && items[r.value.value] == Ref(page)
    decreases |items| - i
  {
    if i >= |items| then Ok(None)
    else match items[i]
      case Ref(id) =>
        if id !in keys then Err(NullPointer)
        else if id == page then Ok(Some(i))
        else ScanKids(keys, items, page, i + 1)
      case Direct(v) =>
        if v == CosNull then Err(NullPointer)
        else if IsDictionary(v) then ScanKids(keys, items, page, i + 1)
        else Err(ClassCast)
  }

  /** An entry the scan reads as a dictionary: a reference to one, or a direct dictionary or stream. */
  predicate ReadsAsDictionary(keys: set<NodeId>, e: Entry) {
    (e.Ref? && e.id in keys) || (e.Direct? && IsDictionary(e.value))
  }

  /**
   * From the i-th entry on, the scan stops at the first reference to page
   * when every entry before it reads as a dictionary, reports no page when
   * every entry reads as one and none refers to page, and otherwise fails,
   * with a NullPointerException or a ClassCastException, at an entry before
   * any reference to page that does not read as a dictionary.
   */
  lemma {:induction false} ScanKidsFrom(keys: set<NodeId>, items: seq<Entry>, page: NodeId, i: nat)
    requires i <= |items| && page in keys
    ensures var r := ScanKids(keys, items, page, i);
            && (r.Ok? && r.value.Some? ==>
                  && i <= r.value.value < |items| && items[r.value.value] == Ref(page)
                  && forall k :: i <= k < r.value.value ==> items[k] != Ref(page) && ReadsAsDictionary(keys, items[k]))
            && (r == Ok(None) ==> forall k :: i <= k < |items| ==> items[k] != Ref(page) && ReadsAsDictionary(keys, items[k]))
            && (r.Err? ==>
                  && (r.error == NullPointer || r.error == ClassCast)
                  && exists k :: i <= k < |items| && !ReadsAsDictionary(keys, items[k])
                                 && forall k' :: i <= k' < k ==> items[k'] != Ref(page))
    decreases |items| - i
  {
    if i < |items| {
      ScanKidsFrom(keys, items, page, i + 1);
    }
  }

  /**
   * The scan finds the page exactly when the /Kids array refers to it and
   * every entry before the first such reference reads as a dictionary, and
   * then it finds that first reference. It reports no page exactly when no
   * entry refers to it and every entry reads as a dictionary.
   */
  lemma ScanKidsCorrect(keys: set<NodeId>, items: seq<Entry>, page: NodeId)
    requires page in keys
    ensures var r := ScanKids(keys, items, page, 0);
            && (r.Ok? <==> forall k :: 0 <= k < |items| && (Ref(page) !in items || k < IndexOf(items, Ref(page))) ==>
                                         ReadsAsDictionary(keys, items[k]))
            && (r.Ok? ==> (r.value.Some? <==> Ref(page) in items))
            && (r.Ok? && r.value.Some? ==> r.value.value == IndexOf(items, Ref(page)))
  {
    var r := ScanKids(keys, items, page, 0);
    ScanKidsFrom(keys, items, page, 0);
    if r.Ok? && r.value.Some? {
      var f := r.value.value;
      assert Ref(page) !in items[..f] by {
        forall k | 0 <= k < f ensures items[..f][k] != Ref(page) {
          assert items[..f][k] == items[k];
        }
      }
      IndexOfAt(items, Ref(page), f);
    } else if r.Err? {
      var k :| 0 <= k < |items| && !ReadsAsDictionary(keys, items[k]) && forall k' :: 0 <= k' < k ==> items[k'] != Ref(page);
      if Ref(page) in items {
        IndexOfFirst(items, Ref(page), IndexOf(items, Ref(page)));
        assert k < IndexOf(items, Ref(page));
      }
    }
  }

  /**
   * The loop of insertBefore and insertAfter looking for page among the
   * entries of a /Kids array; it computes ScanKids.
   */
  method FindKid(keys: set<NodeId>, items: seq<Entry>, page: NodeId) returns (r: Result<Option<nat>>)
    ensures r == ScanKids(keys, items, page, 0)
  {
    var i := 0;
    while i < |items|
      invariant 0 <= i <= |items|
      invariant ScanKids(keys, items, page, 0) == ScanKids(keys, items, page, i)
    {
      match items[i] {
        case Ref(id) =>
          if id !in keys {
            return Err(NullPointer);
          }
          if id == page {
            return Ok(Some(i));
          }
        case Direct(v) =>
          if v == CosNull {
            return Err(NullPointer);
          }
          if !IsDictionary(v) {
            return Err(ClassCast);
          }
      }
      i := i + 1;
    }
    return Ok(None);
  }
}
