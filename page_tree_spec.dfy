/**
 * The page tree of a document (section 7.7.3 of ISO 32000-1) as pure
 * functions over the dictionaries of the document: which dictionaries are
 * intermediate nodes, their kids, the /Parent chain, attribute inheritance
 * (section 7.7.3.4), and the depth-first order of the pages and of the
 * nodes.
 *
 * A dictionary is identified by a NodeId. Its /Type, /Kids and other entries
 * are a Node of the map `nodes`; its /Parent entry is held in the map
 * `parent` and its /Count entry in the map `count`, so that updating counts
 * or parents leaves the shape of the tree untouched.
 */
module PageTreeSpec {
  import opened Cos

  /** The identity of a dictionary object of the document. */
  type NodeId = nat

  /** An element of a /Kids array: a reference to a dictionary, or a value of another type. */
  datatype Entry = Ref(id: NodeId) | Direct(value: CosValue)

  /** The /Kids entry of a dictionary: an array, or a value of another type. */
  datatype KidsValue = KidsArray(items: seq<Entry>) | KidsOther(value: CosValue)

  /** A dictionary: its /Type name, its /Kids entry, and its other entries. */
  datatype Node = Node(typ: Option<string>, kids: Option<KidsValue>, attrs: Dict)

  const PAGES: string := "Pages"
  const PAGE: string := "Page"

  /**
   * isPageTreeNode: a dictionary typed /Pages, or one holding a /Kids
   * entry (of any type), is an intermediate node; any other is a page.
   */
  predicate IsPageTreeNode(n: Node) {
    n.typ == Some(PAGES) || n.kids.Some?
  }

  /** The references of a /Kids array that resolve to a dictionary, in order. */
  function KidIds(keys: set<NodeId>, items: seq<Entry>): (r: seq<NodeId>)
    ensures |r| <= |items|
    ensures forall k {:trigger k in r} :: k in r <==> k in keys && Ref(k) in items
  {
    if items == [] then []
    else
      var rest := KidIds(keys, items[1..]);
      assert forall e :: e in items <==> e == items[0] || e in items[1..];
      if items[0].Ref? && items[0].id in keys then [items[0].id] + rest else rest
  }

  /**
   * getKids: the dictionaries a node's /Kids array refers to; nothing
   * when /Kids is missing or is not an array.
   */
  function GetKids(nodes: map<NodeId, Node>, n: NodeId): (r: seq<NodeId>)
    requires n in nodes
    ensures forall k :: k in r ==> k in nodes
    ensures !IsPageTreeNode(nodes[n]) ==> r == []
  {
    match nodes[n].kids
    case Some(KidsArray(items)) => KidIds(nodes.Keys, items)
    case _ => []
  }

  /**
   * getDictionaryObject(KIDS, COSArray.class): the entries of a node's /Kids
   * array, or nothing when /Kids is missing or is not an array.
   */
  function KidsArrayOf(n: Node): (r: Option<seq<Entry>>)
    ensures r.Some? <==> n.kids.Some? && n.kids.value.KidsArray?
    ensures r.Some? ==> n.kids == Some(KidsArray(r.value))
  {
    match n.kids
    case Some(KidsArray(items)) => Some(items)
    case _ => None
  }

  /** The dictionary a node's /Parent entry refers to, if it resolves. */
  function Parent(keys: set<NodeId>, parent: map<NodeId, NodeId>, n: NodeId): (r: Option<NodeId>)
    ensures r.Some? ==> r.value in keys
  {
    if n in parent && parent[n] in keys then Some(parent[n]) else None
  }

  /**
   * Kids rank below their node, and pages rank 0: the /Kids references
   * form no cycle.
   */
  ghost predicate KidsRanked(nodes: map<NodeId, Node>, rank: map<NodeId, nat>) {
    && (forall n :: n in nodes ==> n in rank)
    && (forall n :: n in nodes ==> (rank[n] == 0 <==> !IsPageTreeNode(nodes[n])))
    && (forall n, j :: n in nodes && 0 <= j < |GetKids(nodes, n)| ==> RankOf(rank, GetKids(nodes, n)[j]) < rank[n])
  }

  function RankOf(rank: map<NodeId, nat>, n: NodeId): nat {
    if n in rank then rank[n] else 0
  }

  /** A /Parent ranks above its child: the /Parent references form no cycle. */
  ghost predicate ParentsRanked(keys: set<NodeId>, parent: map<NodeId, NodeId>, rank: map<NodeId, nat>) {
    && (forall n :: n in keys ==> n in rank)
    && (forall n :: n in keys && Parent(keys, parent, n).Some? ==>
          rank[n] < rank[Parent(keys, parent, n).value])
  }

  ghost predicate Ranked(nodes: map<NodeId, Node>, parent: map<NodeId, NodeId>, rank: map<NodeId, nat>) {
    KidsRanked(nodes, rank) && ParentsRanked(nodes.Keys, parent, rank)
  }

  /** The nodes ranked strictly above n: the measure of a walk up the /Parent chain. */
  ghost function Above(keys: set<NodeId>, rank: map<NodeId, nat>, n: NodeId): set<NodeId>
    requires forall m :: m in keys ==> m in rank
  {
    set m | m in keys && rank[m] > (if n in rank then rank[n] else 0)
  }

  lemma AboveShrinks(keys: set<NodeId>, parent: map<NodeId, NodeId>, rank: map<NodeId, nat>, n: NodeId, p: NodeId)
    requires ParentsRanked(keys, parent, rank) && n in keys && Parent(keys, parent, n) == Some(p)
    ensures Above(keys, rank, p) < Above(keys, rank, n)
  {
    assert p in Above(keys, rank, n) && p !in Above(keys, rank, p);
  }

  /** n, its parent, its parent's parent, and so on: the ancestors of n, nearest first. */
  ghost function Chain(keys: set<NodeId>, parent: map<NodeId, NodeId>, rank: map<NodeId, nat>, n: NodeId): (c: seq<NodeId>)
    requires ParentsRanked(keys, parent, rank) && n in keys
    ensures |c| > 0 && c[0] == n
    ensures forall m :: m in c ==> m in keys && rank[n] <= rank[m]
    decreases Above(keys, rank, n)
  {
    match Parent(keys, parent, n)
    case None => [n]
    case Some(p) =>
      AboveShrinks(keys, parent, rank, n, p);
      [n] + Chain(keys, parent, rank, p)
  }

  /** An entry that getDictionaryObject returns: present and not COSNull. */
  predicate Holds(node: Node, key: string) {
    key in node.attrs && node.attrs[key] != CosNull
  }

  /** None of the given dictionaries holds the key. */
  predicate NoneHolds(nodes: map<NodeId, Node>, s: seq<NodeId>, key: string)
    requires forall m :: m in s ==> m in nodes
  {
    forall j :: 0 <= j < |s| ==> !Holds(nodes[s[j]], key)
  }

  /**
   * r is the value of the key in the first dictionary of s that holds it,
   * or nothing when none does.
   */
  ghost predicate FirstHeld(nodes: map<NodeId, Node>, s: seq<NodeId>, key: string, r: Option<CosValue>)
    requires forall m :: m in s ==> m in nodes
  {
    && (r.None? <==> NoneHolds(nodes, s, key))
    && (r.Some? ==> exists i :: 0 <= i < |s| && Holds(nodes[s[i]], key) && r.value == nodes[s[i]].attrs[key]
                                && NoneHolds(nodes, s[..i], key))
  }

  lemma FirstHeldHere(nodes: map<NodeId, Node>, n: NodeId, up: seq<NodeId>, key: string)
    requires n in nodes && (forall m :: m in up ==> m in nodes) && Holds(nodes[n], key)
    ensures FirstHeld(nodes, [n] + up, key, Some(nodes[n].attrs[key]))
  {
    assert ([n] + up)[..0] == [];
    assert ([n] + up)[0] == n;
  }

  lemma NoneHoldsCons(nodes: map<NodeId, Node>, n: NodeId, s: seq<NodeId>, key: string)
    requires n in nodes && forall m :: m in s ==> m in nodes
    ensures NoneHolds(nodes, [n] + s, key) <==> !Holds(nodes[n], key) && NoneHolds(nodes, s, key)
  {
    var c := [n] + s;
    if !Holds(nodes[n], key) && NoneHolds(nodes, s, key) {
      forall j | 0 <= j < |c| ensures !Holds(nodes[c[j]], key) {
        if j > 0 {
          assert c[j] == s[j - 1];
        }
      }
    }
    if NoneHolds(nodes, c, key) {
      assert c[0] == n;
      forall j | 0 <= j < |s| ensures !Holds(nodes[s[j]], key) {
        assert s[j] == c[j + 1];
      }
    }
  }

  lemma FirstHeldAbove(nodes: map<NodeId, Node>, n: NodeId, up: seq<NodeId>, key: string, r: Option<CosValue>)
    requires n in nodes && (forall m :: m in up ==> m in nodes) && !Holds(nodes[n], key)
    requires FirstHeld(nodes, up, key, r)
    ensures FirstHeld(nodes, [n] + up, key, r)
  {
    var c := [n] + up;
    NoneHoldsCons(nodes, n, up, key);
    if r.Some? {
      var i :| 0 <= i < |up| && Holds(nodes[up[i]], key) && r.value == nodes[up[i]].attrs[key]
               && NoneHolds(nodes, up[..i], key);
      assert c[..i + 1] == [n] + up[..i];
      assert c[i + 1] == up[i];
      NoneHoldsCons(nodes, n, up[..i], key);
    }
  }

  /**
   * getInheritableAttribute: the node's own value for the key if it has
   * one, otherwise the value inherited along the /Parent chain.
   */
  function GetInheritableAttribute(nodes: map<NodeId, Node>, parent: map<NodeId, NodeId>, ghost rank: map<NodeId, nat>,
                                   n: NodeId, key: string): (r: Option<CosValue>)
    requires ParentsRanked(nodes.Keys, parent, rank) && n in nodes
    ensures FirstHeld(nodes, Chain(nodes.Keys, parent, rank, n), key, r)
    decreases Above(nodes.Keys, rank, n)
  {
    if Holds(nodes[n], key) then
      FirstHeldHere(nodes, n, Chain(nodes.Keys, parent, rank, n)[1..], key);
      assert Chain(nodes.Keys, parent, rank, n) == [n] + Chain(nodes.Keys, parent, rank, n)[1..];
      Some(nodes[n].attrs[key])
    else
      match Parent(nodes.Keys, parent, n)
      case None =>
        assert Chain(nodes.Keys, parent, rank, n) == [n];
        None
      case Some(p) =>
        AboveShrinks(nodes.Keys, parent, rank, n, p);
        var r := GetInheritableAttribute(nodes, parent, rank, p, key);
        FirstHeldAbove(nodes, n, Chain(nodes.Keys, parent, rank, p), key, r);
        r
  }

  /** The /Count of a node when it is a number, else the given default (COSDictionary.getInt). */
  function CountOr(count: map<NodeId, int>, n: NodeId, default: int): int {
    if n in count then count[n] else default
  }

  /** getInt(COUNT, 0): the /Count read where a missing count means none. */
  function CountOf(count: map<NodeId, int>, n: NodeId): int {
    CountOr(count, n, 0)
  }

  /*
   * The traversals follow kids only downwards in rank; under KidsRanked
   * every kid ranks below its node, so the guards always hold there.
   */

  /** The pages below n in depth-first, left-to-right order: what the page iterator yields. */
  ghost function Leaves(nodes: map<NodeId, Node>, rank: map<NodeId, nat>, n: NodeId): seq<NodeId>
    decreases RankOf(rank, n), 1
  {
    if n !in nodes then []
    else if IsPageTreeNode(nodes[n]) then LeavesOfKids(nodes, rank, GetKids(nodes, n), RankOf(rank, n))
    else [n]
  }

  ghost function LeavesOfKids(nodes: map<NodeId, Node>, rank: map<NodeId, nat>, kids: seq<NodeId>, bound: nat): seq<NodeId>
    decreases bound, 0, |kids|
  {
    if kids == [] then []
    else (if RankOf(rank, kids[0]) < bound then Leaves(nodes, rank, kids[0]) else [])
         + LeavesOfKids(nodes, rank, kids[1..], bound)
  }

  /** Every node below n, n first, in pre-order: what the node iterator yields. */
  ghost function Nodes(nodes: map<NodeId, Node>, rank: map<NodeId, nat>, n: NodeId): seq<NodeId>
    decreases RankOf(rank, n), 1
  {
    if n !in nodes then []
    else [n] + (if IsPageTreeNode(nodes[n]) then NodesOfKids(nodes, rank, GetKids(nodes, n), RankOf(rank, n)) else [])
  }

  ghost function NodesOfKids(nodes: map<NodeId, Node>, rank: map<NodeId, nat>, kids: seq<NodeId>, bound: nat): seq<NodeId>
    decreases bound, 0, |kids|
  {
    if kids == [] then []
    else (if RankOf(rank, kids[0]) < bound then Nodes(nodes, rank, kids[0]) else [])
         + NodesOfKids(nodes, rank, kids[1..], bound)
  }

  /** The pages among a sequence of dictionaries, in order. */
  function PagesOf(nodes: map<NodeId, Node>, s: seq<NodeId>): seq<NodeId> {
    if s == [] then []
    else (if s[0] in nodes && !IsPageTreeNode(nodes[s[0]]) then [s[0]] else []) + PagesOf(nodes, s[1..])
  }

  predicate NoDup<T(==)>(s: seq<T>) {
    forall i, j :: 0 <= i < j < |s| ==> s[i] != s[j]
  }

  /**
   * The /Count of every intermediate node below root equals its number of
   * pages (section 7.7.3.2 of ISO 32000-1).
   */
  ghost predicate CountsAgree(nodes: map<NodeId, Node>, count: map<NodeId, int>, rank: map<NodeId, nat>, root: NodeId) {
    forall m :: m in Nodes(nodes, rank, root) && m in nodes && IsPageTreeNode(nodes[m]) ==>
      m in count && count[m] == |Leaves(nodes, rank, m)|
  }

  /**
   * The nodes below root form a tree: no node is reached twice, every kid's
   * /Parent is the node listing it, and the root has no /Parent.
   */
  ghost predicate TreeShaped(nodes: map<NodeId, Node>, parent: map<NodeId, NodeId>, rank: map<NodeId, nat>, root: NodeId) {
    && NoDup(Nodes(nodes, rank, root))
    && Parent(nodes.Keys, parent, root).None?
    && forall m, k :: m in Nodes(nodes, rank, root) && m in nodes && k in GetKids(nodes, m) ==> Parent(nodes.Keys, parent, k) == Some(m)
  }

  /**
   * A well-formed page tree: the root is an intermediate node, the /Kids
   * and /Parent references form no cycle, the nodes below the root form a
   * tree, and every /Count there is the number of pages below its node.
   */
  ghost predicate WellFormed(nodes: map<NodeId, Node>, parent: map<NodeId, NodeId>, count: map<NodeId, int>,
                             rank: map<NodeId, nat>, root: NodeId) {
    && root in nodes && IsPageTreeNode(nodes[root])
    && Ranked(nodes, parent, rank)
    && TreeShaped(nodes, parent, rank, root)
    && CountsAgree(nodes, count, rank, root)
  }

  /* Shape of the traversals */

  lemma {:induction false} NodesShape(nodes: map<NodeId, Node>, rank: map<NodeId, nat>, n: NodeId)
    ensures forall m :: m in Nodes(nodes, rank, n) ==> m in nodes && RankOf(rank, m) <= RankOf(rank, n)
    ensures n in nodes ==> |Nodes(nodes, rank, n)| > 0 && Nodes(nodes, rank, n)[0] == n
    decreases RankOf(rank, n), 1
  {
    if n in nodes && IsPageTreeNode(nodes[n]) {
      NodesOfKidsShape(nodes, rank, GetKids(nodes, n), RankOf(rank, n));
    }
  }

  lemma {:induction false} NodesOfKidsShape(nodes: map<NodeId, Node>, rank: map<NodeId, nat>, kids: seq<NodeId>, bound: nat)
    ensures forall m :: m in NodesOfKids(nodes, rank, kids, bound) ==> m in nodes && RankOf(rank, m) < bound
    decreases bound, 0, |kids|
  {
    if kids != [] {
      if RankOf(rank, kids[0]) < bound {
        NodesShape(nodes, rank, kids[0]);
      }
      NodesOfKidsShape(nodes, rank, kids[1..], bound);
    }
  }

  /* Sequences of kids */

  lemma {:induction false} LeavesOfKidsAppend(nodes: map<NodeId, Node>, rank: map<NodeId, nat>, k1: seq<NodeId>, k2: seq<NodeId>, bound: nat)
    ensures LeavesOfKids(nodes, rank, k1 + k2, bound) == LeavesOfKids(nodes, rank, k1, bound) + LeavesOfKids(nodes, rank, k2, bound)
    decreases |k1|
  {
    if k1 == [] {
      assert k1 + k2 == k2;
    } else {
      var t := k1[1..];
      var h := if RankOf(rank, k1[0]) < bound then Leaves(nodes, rank, k1[0]) else [];
      assert (k1 + k2)[1..] == t + k2;
      calc {
        LeavesOfKids(nodes, rank, k1 + k2, bound);
        h + LeavesOfKids(nodes, rank, t + k2, bound);
        { LeavesOfKidsAppend(nodes, rank, t, k2, bound); }
        h + (LeavesOfKids(nodes, rank, t, bound) + LeavesOfKids(nodes, rank, k2, bound));
        { ConcatAssoc(h, LeavesOfKids(nodes, rank, t, bound), LeavesOfKids(nodes, rank, k2, bound)); }
        (h + LeavesOfKids(nodes, rank, t, bound)) + LeavesOfKids(nodes, rank, k2, bound);
      }
    }
  }

  lemma {:induction false} NodesOfKidsAppend(nodes: map<NodeId, Node>, rank: map<NodeId, nat>, k1: seq<NodeId>, k2: seq<NodeId>, bound: nat)
    ensures NodesOfKids(nodes, rank, k1 + k2, bound) == NodesOfKids(nodes, rank, k1, bound) + NodesOfKids(nodes, rank, k2, bound)
    decreases |k1|
  {
    if k1 == [] {
      assert k1 + k2 == k2;
    } else {
      var t := k1[1..];
      var h := if RankOf(rank, k1[0]) < bound then Nodes(nodes, rank, k1[0]) else [];
      assert (k1 + k2)[1..] == t + k2;
      calc {
        NodesOfKids(nodes, rank, k1 + k2, bound);
        h + NodesOfKids(nodes, rank, t + k2, bound);
        { NodesOfKidsAppend(nodes, rank, t, k2, bound); }
        h + (NodesOfKids(nodes, rank, t, bound) + NodesOfKids(nodes, rank, k2, bound));
        { ConcatAssoc(h, NodesOfKids(nodes, rank, t, bound), NodesOfKids(nodes, rank, k2, bound)); }
        (h + NodesOfKids(nodes, rank, t, bound)) + NodesOfKids(nodes, rank, k2, bound);
      }
    }
  }

  /** The nodes and pages of a kid sequence split around its j-th kid. */
  lemma KidsSplit(nodes: map<NodeId, Node>, rank: map<NodeId, nat>, kids: seq<NodeId>, bound: nat, j: nat)
    requires j < |kids| && RankOf(rank, kids[j]) < bound
    ensures NodesOfKids(nodes, rank, kids, bound)
         == NodesOfKids(nodes, rank, kids[..j], bound) + Nodes(nodes, rank, kids[j]) + NodesOfKids(nodes, rank, kids[j + 1..], bound)
    ensures LeavesOfKids(nodes, rank, kids, bound)
         == LeavesOfKids(nodes, rank, kids[..j], bound) + Leaves(nodes, rank, kids[j]) + LeavesOfKids(nodes, rank, kids[j + 1..], bound)
  {
    var pre, rest := kids[..j], kids[j..];
    assert kids == pre + rest;
    assert rest[0] == kids[j] && rest[1..] == kids[j + 1..];
    NodesOfKidsAppend(nodes, rank, pre, rest, bound);
    LeavesOfKidsAppend(nodes, rank, pre, rest, bound);
  }

  lemma {:induction false} NodesOfKidsMember(nodes: map<NodeId, Node>, rank: map<NodeId, nat>, kids: seq<NodeId>, bound: nat, m: NodeId)
    ensures m in NodesOfKids(nodes, rank, kids, bound) <==>
            exists j :: 0 <= j < |kids| && RankOf(rank, kids[j]) < bound && m in Nodes(nodes, rank, kids[j])
    decreases |kids|
  {
    if kids != [] {
      var t := kids[1..];
      NodesOfKidsMember(nodes, rank, t, bound, m);
      if m in NodesOfKids(nodes, rank, t, bound) {
        var j :| 0 <= j < |t| && RankOf(rank, t[j]) < bound && m in Nodes(nodes, rank, t[j]);
        assert kids[j + 1] == t[j];
      }
      if exists j :: 0 <= j < |kids| && RankOf(rank, kids[j]) < bound && m in Nodes(nodes, rank, kids[j]) {
        var j :| 0 <= j < |kids| && RankOf(rank, kids[j]) < bound && m in Nodes(nodes, rank, kids[j]);
        if j > 0 {
          assert t[j - 1] == kids[j];
        }
      }
    }
  }

  /* Frames: a subtree whose dictionaries are unchanged has the same nodes and pages */

  lemma {:induction false} SubtreeFrame(n1: map<NodeId, Node>, n2: map<NodeId, Node>, rank: map<NodeId, nat>, n: NodeId)
    requires n1.Keys == n2.Keys
    requires forall m :: m in Nodes(n1, rank, n) ==> m in n2 && m in n1 && n2[m] == n1[m]
    ensures Nodes(n2, rank, n) == Nodes(n1, rank, n)
    ensures Leaves(n2, rank, n) == Leaves(n1, rank, n)
    decreases RankOf(rank, n), 1
  {
    if n in n1 {
      assert n2[n] == n1[n];
      assert GetKids(n2, n) == GetKids(n1, n);
      if IsPageTreeNode(n1[n]) {
        KidsFrame(n1, n2, rank, GetKids(n1, n), RankOf(rank, n));
      }
    }
  }

  lemma {:induction false} KidsFrame(n1: map<NodeId, Node>, n2: map<NodeId, Node>, rank: map<NodeId, nat>, kids: seq<NodeId>, bound: nat)
    requires n1.Keys == n2.Keys
    requires forall m :: m in NodesOfKids(n1, rank, kids, bound) ==> m in n2 && m in n1 && n2[m] == n1[m]
    ensures NodesOfKids(n2, rank, kids, bound) == NodesOfKids(n1, rank, kids, bound)
    ensures LeavesOfKids(n2, rank, kids, bound) == LeavesOfKids(n1, rank, kids, bound)
    decreases bound, 0, |kids|
  {
    if kids != [] {
      if RankOf(rank, kids[0]) < bound {
        SubtreeFrame(n1, n2, rank, kids[0]);
      }
      KidsFrame(n1, n2, rank, kids[1..], bound);
    }
  }

  /* Membership in a subtree */

  lemma KidInNodes(nodes: map<NodeId, Node>, rank: map<NodeId, nat>, n: NodeId, j: nat)
    requires KidsRanked(nodes, rank) && n in nodes && j < |GetKids(nodes, n)|
    ensures RankOf(rank, GetKids(nodes, n)[j]) < RankOf(rank, n)
    ensures forall m :: m in Nodes(nodes, rank, GetKids(nodes, n)[j]) ==> m in Nodes(nodes, rank, n)
  {
    var kids := GetKids(nodes, n);
    assert kids[j] in GetKids(nodes, n);
    forall m | m in Nodes(nodes, rank, kids[j]) ensures m in Nodes(nodes, rank, n) {
      NodesOfKidsMember(nodes, rank, kids, RankOf(rank, n), m);
    }
  }

  lemma {:induction false} NodesTrans(nodes: map<NodeId, Node>, rank: map<NodeId, nat>, n: NodeId, y: NodeId, m: NodeId)
    requires KidsRanked(nodes, rank)
    requires y in Nodes(nodes, rank, n) && m in Nodes(nodes, rank, y)
    ensures m in Nodes(nodes, rank, n)
    decreases RankOf(rank, n)
  {
    if y != n {
      var kids := GetKids(nodes, n);
      NodesOfKidsMember(nodes, rank, kids, RankOf(rank, n), y);
      var j :| 0 <= j < |kids| && RankOf(rank, kids[j]) < RankOf(rank, n) && y in Nodes(nodes, rank, kids[j]);
      NodesTrans(nodes, rank, kids[j], y, m);
      KidInNodes(nodes, rank, n, j);
    }
  }

  /** A node below n other than n is a kid of some node below n. */
  lemma {:induction false} KidOfSome(nodes: map<NodeId, Node>, rank: map<NodeId, nat>, n: NodeId, m: NodeId)
    requires KidsRanked(nodes, rank)
    requires m in Nodes(nodes, rank, n) && m != n
    ensures exists y :: y in Nodes(nodes, rank, n) && y in nodes && m in GetKids(nodes, y)
    decreases RankOf(rank, n)
  {
    var kids := GetKids(nodes, n);
    NodesOfKidsMember(nodes, rank, kids, RankOf(rank, n), m);
    var j :| 0 <= j < |kids| && RankOf(rank, kids[j]) < RankOf(rank, n) && m in Nodes(nodes, rank, kids[j]);
    NodesShape(nodes, rank, n);
    if m == kids[j] {
      assert m in GetKids(nodes, n);
    } else {
      KidOfSome(nodes, rank, kids[j], m);
      KidInNodes(nodes, rank, n, j);
    }
  }

  lemma Regroup<T>(p: seq<T>, q: seq<T>, r: seq<T>, x: seq<T>, t: seq<T>, u: seq<T>)
    ensures p + (q + (r + x + t) + u) == (p + q + r) + x + (t + u)
  {
  }

  /** The subtree of a node below n is a contiguous run of the nodes of n. */
  lemma {:induction false} SubtreeNodesRun(nodes: map<NodeId, Node>, rank: map<NodeId, nat>, n: NodeId, x: NodeId)
    returns (a: seq<NodeId>, b: seq<NodeId>)
    requires x in Nodes(nodes, rank, n)
    ensures Nodes(nodes, rank, n) == a + Nodes(nodes, rank, x) + b
    decreases RankOf(rank, n)
  {
    if x == n {
      a, b := [], [];
    } else {
      var kids := GetKids(nodes, n);
      NodesOfKidsMember(nodes, rank, kids, RankOf(rank, n), x);
      var j :| 0 <= j < |kids| && RankOf(rank, kids[j]) < RankOf(rank, n) && x in Nodes(nodes, rank, kids[j]);
      var a', b' := SubtreeNodesRun(nodes, rank, kids[j], x);
      KidsSplit(nodes, rank, kids, RankOf(rank, n), j);
      var before := NodesOfKids(nodes, rank, kids[..j], RankOf(rank, n));
      var after := NodesOfKids(nodes, rank, kids[j + 1..], RankOf(rank, n));
      a, b := [n] + before + a', b' + after;
      calc {
        Nodes(nodes, rank, n);
        [n] + (before + (a' + Nodes(nodes, rank, x) + b') + after);
        { Regroup([n], before, a', Nodes(nodes, rank, x), b', after); }
        a + Nodes(nodes, rank, x) + b;
      }
    }
  }

  /** The pages of a node below n are a contiguous run of the pages of n. */
  lemma {:induction false} SubtreeLeavesRun(nodes: map<NodeId, Node>, rank: map<NodeId, nat>, n: NodeId, x: NodeId)
    returns (a: seq<NodeId>, b: seq<NodeId>)
    requires x in Nodes(nodes, rank, n)
    ensures Leaves(nodes, rank, n) == a + Leaves(nodes, rank, x) + b
    decreases RankOf(rank, n)
  {
    if x == n {
      a, b := [], [];
    } else {
      var kids := GetKids(nodes, n);
      NodesOfKidsMember(nodes, rank, kids, RankOf(rank, n), x);
      var j :| 0 <= j < |kids| && RankOf(rank, kids[j]) < RankOf(rank, n) && x in Nodes(nodes, rank, kids[j]);
      var a', b' := SubtreeLeavesRun(nodes, rank, kids[j], x);
      KidsSplit(nodes, rank, kids, RankOf(rank, n), j);
      var before := LeavesOfKids(nodes, rank, kids[..j], RankOf(rank, n));
      var after := LeavesOfKids(nodes, rank, kids[j + 1..], RankOf(rank, n));
      a, b := [] + before + a', b' + after;
      calc {
        Leaves(nodes, rank, n);
        [] + (before + (a' + Leaves(nodes, rank, x) + b') + after);
        { Regroup([], before, a', Leaves(nodes, rank, x), b', after); }
        ([] + before + a') + Leaves(nodes, rank, x) + (b' + after);
      }
    }
  }

  /* The two iterators */

  lemma {:induction false} PagesOfAppend(nodes: map<NodeId, Node>, a: seq<NodeId>, b: seq<NodeId>)
    ensures PagesOf(nodes, a + b) == PagesOf(nodes, a) + PagesOf(nodes, b)
    decreases |a|
  {
    if a == [] {
      assert a + b == b;
    } else {
      var h := if a[0] in nodes && !IsPageTreeNode(nodes[a[0]]) then [a[0]] else [];
      assert (a + b)[1..] == a[1..] + b;
      calc {
        PagesOf(nodes, a + b);
        h + PagesOf(nodes, a[1..] + b);
        { PagesOfAppend(nodes, a[1..], b); }
        h + (PagesOf(nodes, a[1..]) + PagesOf(nodes, b));
        (h + PagesOf(nodes, a[1..])) + PagesOf(nodes, b);
      }
    }
  }

  lemma {:induction false} PagesOfMember(nodes: map<NodeId, Node>, s: seq<NodeId>)
    ensures forall m :: m in PagesOf(nodes, s) <==> m in s && m in nodes && !IsPageTreeNode(nodes[m])
    decreases |s|
  {
    if s != [] {
      PagesOfMember(nodes, s[1..]);
      assert forall m :: m in s <==> m == s[0] || m in s[1..];
    }
  }

  /**
   * The page iterator yields exactly the pages the node iterator meets, in
   * the same order.
   */
  lemma {:induction false} LeavesArePagesOfNodes(nodes: map<NodeId, Node>, rank: map<NodeId, nat>, n: NodeId)
    ensures Leaves(nodes, rank, n) == PagesOf(nodes, Nodes(nodes, rank, n))
    decreases RankOf(rank, n), 1
  {
    if n in nodes {
      if IsPageTreeNode(nodes[n]) {
        var rest := NodesOfKids(nodes, rank, GetKids(nodes, n), RankOf(rank, n));
        PagesOfAppend(nodes, [n], rest);
        KidsArePagesOfNodes(nodes, rank, GetKids(nodes, n), RankOf(rank, n));
      } else {
        assert Nodes(nodes, rank, n) == [n];
      }
    }
  }

  lemma {:induction false} KidsArePagesOfNodes(nodes: map<NodeId, Node>, rank: map<NodeId, nat>, kids: seq<NodeId>, bound: nat)
    ensures LeavesOfKids(nodes, rank, kids, bound) == PagesOf(nodes, NodesOfKids(nodes, rank, kids, bound))
    decreases bound, 0, |kids|
  {
    if kids != [] {
      var h := if RankOf(rank, kids[0]) < bound then Nodes(nodes, rank, kids[0]) else [];
      if RankOf(rank, kids[0]) < bound {
        LeavesArePagesOfNodes(nodes, rank, kids[0]);
      }
      KidsArePagesOfNodes(nodes, rank, kids[1..], bound);
      PagesOfAppend(nodes, h, NodesOfKids(nodes, rank, kids[1..], bound));
    }
  }

  /** What the page iterator yields are pages of the document, each met by the node iterator. */
  lemma LeavesArePages(nodes: map<NodeId, Node>, rank: map<NodeId, nat>, n: NodeId)
    ensures forall m :: m in Leaves(nodes, rank, n) <==> m in Nodes(nodes, rank, n) && m in nodes && !IsPageTreeNode(nodes[m])
  {
    LeavesArePagesOfNodes(nodes, rank, n);
    PagesOfMember(nodes, Nodes(nodes, rank, n));
  }

  /* Sequences without duplicates */

  lemma NoDupAppend<T>(a: seq<T>, b: seq<T>)
    ensures NoDup(a + b) <==> NoDup(a) && NoDup(b) && forall x :: x in a ==> x !in b
  {
    var c := a + b;
    if NoDup(c) {
      forall i, j | 0 <= i < j < |b| ensures b[i] != b[j] {
        assert c[|a| + i] == b[i] && c[|a| + j] == b[j];
      }
      forall i, j | 0 <= i < |a| && 0 <= j < |b| ensures a[i] != b[j] {
        assert c[i] == a[i] && c[|a| + j] == b[j];
      }
      assert forall i, j :: 0 <= i < j < |a| ==> c[i] == a[i] && c[j] == a[j];
    }
    if NoDup(a) && NoDup(b) && forall x :: x in a ==> x !in b {
      forall i, j | 0 <= i < j < |c| ensures c[i] != c[j] {
        if j < |a| {
          assert c[i] == a[i] && c[j] == a[j];
        } else if i >= |a| {
          assert c[i] == b[i - |a|] && c[j] == b[j - |a|];
        } else {
          assert c[i] == a[i] && c[j] == b[j - |a|];
          assert a[i] in a;
        }
      }
    }
  }

  lemma {:induction false} NoDupPagesOf(nodes: map<NodeId, Node>, s: seq<NodeId>)
    requires NoDup(s)
    ensures NoDup(PagesOf(nodes, s))
    decreases |s|
  {
    if s != [] {
      var h := if s[0] in nodes && !IsPageTreeNode(nodes[s[0]]) then [s[0]] else [];
      assert s == [s[0]] + s[1..];
      NoDupAppend([s[0]], s[1..]);
      NoDupPagesOf(nodes, s[1..]);
      PagesOfMember(nodes, s[1..]);
      NoDupAppend(h, PagesOf(nodes, s[1..]));
    }
  }

  /* The /Parent chain of a tree */

  lemma {:induction false} ChainStep(keys: set<NodeId>, parent: map<NodeId, NodeId>, rank: map<NodeId, nat>, p: NodeId, k: NodeId, x: NodeId)
    requires ParentsRanked(keys, parent, rank) && p in keys
    requires k in Chain(keys, parent, rank, p) && Parent(keys, parent, k) == Some(x)
    ensures x in Chain(keys, parent, rank, p)
    decreases Above(keys, rank, p)
  {
    match Parent(keys, parent, p)
    case None =>
    case Some(q) =>
      AboveShrinks(keys, parent, rank, p, q);
      if k != p {
        ChainStep(keys, parent, rank, q, k, x);
      }
  }

  /** In a tree, every node above p in the tree is on p's /Parent chain. */
  lemma {:induction false} PathUp(nodes: map<NodeId, Node>, parent: map<NodeId, NodeId>, rank: map<NodeId, nat>, root: NodeId, x: NodeId, p: NodeId)
    requires Ranked(nodes, parent, rank) && TreeShaped(nodes, parent, rank, root)
    requires x in Nodes(nodes, rank, root) && p in Nodes(nodes, rank, x)
    ensures p in nodes && x in Chain(nodes.Keys, parent, rank, p)
    decreases RankOf(rank, x)
  {
    NodesShape(nodes, rank, x);
    NodesShape(nodes, rank, root);
    if p != x {
      var kids := GetKids(nodes, x);
      NodesOfKidsMember(nodes, rank, kids, RankOf(rank, x), p);
      var j :| 0 <= j < |kids| && RankOf(rank, kids[j]) < RankOf(rank, x) && p in Nodes(nodes, rank, kids[j]);
      var k := kids[j];
      KidInNodes(nodes, rank, x, j);
      NodesShape(nodes, rank, k);
      NodesTrans(nodes, rank, root, x, k);
      PathUp(nodes, parent, rank, root, k, p);
      assert Parent(nodes.Keys, parent, k) == Some(x);
      ChainStep(nodes.Keys, parent, rank, p, k, x);
    }
  }

  lemma TreeParent(nodes: map<NodeId, Node>, parent: map<NodeId, NodeId>, rank: map<NodeId, nat>, root: NodeId, m: NodeId, k: NodeId)
    requires TreeShaped(nodes, parent, rank, root)
    requires m in Nodes(nodes, rank, root) && m in nodes && k in GetKids(nodes, m)
    ensures Parent(nodes.Keys, parent, k) == Some(m)
  {
  }

  /** In a tree, every node of p's /Parent chain lies in the tree, above p. */
  lemma {:induction false} ChainDown(nodes: map<NodeId, Node>, parent: map<NodeId, NodeId>, rank: map<NodeId, nat>, root: NodeId, p: NodeId, c: NodeId)
    requires Ranked(nodes, parent, rank) && TreeShaped(nodes, parent, rank, root)
    requires p in Nodes(nodes, rank, root) && p in nodes && c in Chain(nodes.Keys, parent, rank, p)
    ensures c in Nodes(nodes, rank, root) && p in Nodes(nodes, rank, c)
    decreases Above(nodes.Keys, rank, p)
  {
    NodesShape(nodes, rank, p);
    if c != p {
      var q := Parent(nodes.Keys, parent, p).value;
      AboveShrinks(nodes.Keys, parent, rank, p, q);
      assert c in Chain(nodes.Keys, parent, rank, q);
      KidOfSome(nodes, rank, root, p);
      var y :| y in Nodes(nodes, rank, root) && y in nodes && p in GetKids(nodes, y);
      TreeParent(nodes, parent, rank, root, y, p);
      var j :| 0 <= j < |GetKids(nodes, y)| && GetKids(nodes, y)[j] == p;
      KidInNodes(nodes, rank, y, j);
      ChainDown(nodes, parent, rank, root, q, c);
      NodesTrans(nodes, rank, c, q, p);
    }
  }

  /* indexOf */

  /**
   * The (index, found) state of indexOf's search after visitPage is applied
   * to each page of s in turn, the search stopping once found is set.
   */
  function Visit(searched: NodeId, index: int, found: bool, s: seq<NodeId>): (int, bool)
    decreases |s|
  {
    if found || s == [] then (index, found)
    else Visit(searched, index + 1, s[0] == searched, s[1..])
  }

  /** Visiting s1 + s2 is visiting s1 and then s2. */
  lemma {:induction false} VisitAppend(searched: NodeId, index: int, found: bool, s1: seq<NodeId>, s2: seq<NodeId>)
    ensures Visit(searched, index, found, s1 + s2)
         == Visit(searched, Visit(searched, index, found, s1).0, Visit(searched, index, found, s1).1, s2)
    decreases |s1|
  {
    if found || s1 == [] {
      assert s1 == [] ==> s1 + s2 == s2;
      if found && s2 != [] {
        assert s1 + s2 != [];
      }
    } else {
      assert (s1 + s2)[0] == s1[0] && (s1 + s2)[1..] == s1[1..] + s2;
      VisitAppend(searched, index + 1, s1[0] == searched, s1[1..], s2);
    }
  }

  /**
   * From a fresh search starting at index i, the search finds the page
   * exactly when it is in s, and then stops at its first position.
   */
  lemma {:induction false} VisitFinds(searched: NodeId, i: int, s: seq<NodeId>)
    ensures Visit(searched, i, false, s)
         == (if searched in s then i + IndexOf(s, searched) + 1 else i + |s|, searched in s)
    decreases |s|
  {
    if s != [] {
      assert searched in s <==> s[0] == searched || searched in s[1..];
      VisitFinds(searched, i + 1, s[1..]);
    }
  }
}
