/**
 * What editing one node's /Kids array does to the page tree: inserting a
 * page into, or removing a page from, the kids of an intermediate node p
 * inserts or removes exactly that page in the depth-first page order of the
 * tree, and one more or one fewer page below each node of p's /Parent
 * chain, and nowhere else.
 */
module PageTreeEdits {
  import opened Cos
  import opened PageTreeSpec

  /** The dictionaries of n2 are those of n1, except possibly the one of p. */
  ghost predicate OnlyAt(n1: map<NodeId, Node>, n2: map<NodeId, Node>, p: NodeId) {
    && n1.Keys == n2.Keys
    && forall m :: m in n1 && m != p ==> n2[m] == n1[m]
  }

  lemma {:induction false} KidIdsAppend(keys: set<NodeId>, a: seq<Entry>, b: seq<Entry>)
    ensures KidIds(keys, a + b) == KidIds(keys, a) + KidIds(keys, b)
    decreases |a|
  {
    if a == [] {
      assert a + b == b;
    } else {
      assert (a + b)[0] == a[0];
      assert (a + b)[1..] == a[1..] + b;
      KidIdsAppend(keys, a[1..], b);
      var h := if a[0].Ref? && a[0].id in keys then [a[0].id] else [];
      ConcatAssoc(h, KidIds(keys, a[1..]), KidIds(keys, b));
    }
  }

  /** The kids of a /Kids array with one reference spliced in. */
  lemma KidIdsSplice(keys: set<NodeId>, pre: seq<Entry>, q: NodeId, post: seq<Entry>)
    requires q in keys
    ensures KidIds(keys, pre + [Ref(q)] + post) == KidIds(keys, pre) + [q] + KidIds(keys, post)
  {
    KidIdsAppend(keys, pre + [Ref(q)], post);
    KidIdsAppend(keys, pre, [Ref(q)]);
    assert KidIds(keys, [Ref(q)]) == [q] by {
      assert [Ref(q)][1..] == [];
    }
  }

  lemma NoDupMiddle<T>(s1: seq<T>, s2: seq<T>, s3: seq<T>, s4: seq<T>)
    requires NoDup(s1 + s2 + s3 + s4)
    ensures NoDup(s3)
    ensures forall x :: x in s3 ==> x !in s2 && x !in s4 && x !in s1
  {
    NoDupAppend(s1 + s2 + s3, s4);
    NoDupAppend(s1 + s2, s3);
    NoDupAppend(s1, s2);
  }

  /** Subtrees that do not reach p are the same in both. */
  lemma KidsAway(n1: map<NodeId, Node>, n2: map<NodeId, Node>, rank: map<NodeId, nat>, kids: seq<NodeId>, bound: nat, p: NodeId)
    requires OnlyAt(n1, n2, p) && p !in NodesOfKids(n1, rank, kids, bound)
    ensures NodesOfKids(n2, rank, kids, bound) == NodesOfKids(n1, rank, kids, bound)
    ensures LeavesOfKids(n2, rank, kids, bound) == LeavesOfKids(n1, rank, kids, bound)
  {
    NodesOfKidsShape(n1, rank, kids, bound);
    KidsFrame(n1, n2, rank, kids, bound);
  }

  lemma SubtreeAway(n1: map<NodeId, Node>, n2: map<NodeId, Node>, rank: map<NodeId, nat>, m: NodeId, p: NodeId)
    requires OnlyAt(n1, n2, p) && p !in Nodes(n1, rank, m)
    ensures Nodes(n2, rank, m) == Nodes(n1, rank, m)
    ensures Leaves(n2, rank, m) == Leaves(n1, rank, m)
  {
    NodesShape(n1, rank, m);
    SubtreeFrame(n1, n2, rank, m);
  }

  /**
   * When only p's dictionary changes and p lies below r, the nodes and
   * pages of r change only within the run that p contributes.
   */
  lemma {:induction false} EditContext(n1: map<NodeId, Node>, n2: map<NodeId, Node>, rank: map<NodeId, nat>, r: NodeId, p: NodeId)
    returns (a: seq<NodeId>, b: seq<NodeId>, c: seq<NodeId>, d: seq<NodeId>)
    requires OnlyAt(n1, n2, p)
    requires p in Nodes(n1, rank, r) && NoDup(Nodes(n1, rank, r))
    ensures Nodes(n1, rank, r) == a + Nodes(n1, rank, p) + b
    ensures Nodes(n2, rank, r) == a + Nodes(n2, rank, p) + b
    ensures Leaves(n1, rank, r) == c + Leaves(n1, rank, p) + d
    ensures Leaves(n2, rank, r) == c + Leaves(n2, rank, p) + d
    ensures r == p ==> a == [] && b == [] && c == [] && d == []
    decreases RankOf(rank, r)
  {
    if r == p {
      a, b, c, d := [], [], [], [];
    } else {
      NodesShape(n1, rank, r);
      assert n2[r] == n1[r];
      var kids := GetKids(n1, r);
      assert GetKids(n2, r) == kids;
      var bound := RankOf(rank, r);
      NodesOfKidsMember(n1, rank, kids, bound, p);
      var j :| 0 <= j < |kids| && RankOf(rank, kids[j]) < bound && p in Nodes(n1, rank, kids[j]);
      KidsSplit(n1, rank, kids, bound, j);
      KidsSplit(n2, rank, kids, bound, j);
      var pre, post := kids[..j], kids[j + 1..];
      var np, nq := NodesOfKids(n1, rank, pre, bound), NodesOfKids(n1, rank, post, bound);
      assert Nodes(n1, rank, r) == [r] + np + Nodes(n1, rank, kids[j]) + nq by {
        ConcatAssoc([r], np + Nodes(n1, rank, kids[j]), nq);
        ConcatAssoc([r], np, Nodes(n1, rank, kids[j]));
      }
      NoDupMiddle([r], np, Nodes(n1, rank, kids[j]), nq);
      NoDupAppend([r] + np + Nodes(n1, rank, kids[j]), nq);
      NoDupAppend([r] + np, Nodes(n1, rank, kids[j]));
      NoDupAppend([r], np);
      assert p !in np && p !in nq;
      KidsAway(n1, n2, rank, pre, bound, p);
      KidsAway(n1, n2, rank, post, bound, p);
      var a', b', c', d' := EditContext(n1, n2, rank, kids[j], p);
      var lp, lq := LeavesOfKids(n1, rank, pre, bound), LeavesOfKids(n1, rank, post, bound);
      a, b, c, d := [r] + np + a', b' + nq, lp + c', d' + lq;
      Regroup([r], np, a', Nodes(n1, rank, p), b', nq);
      Regroup([r], np, a', Nodes(n2, rank, p), b', nq);
      Regroup([], lp, c', Leaves(n1, rank, p), d', lq);
      Regroup([], lp, c', Leaves(n2, rank, p), d', lq);
      assert [] + lp == lp;
    }
  }

  lemma OnlyAtSymmetric(n1: map<NodeId, Node>, n2: map<NodeId, Node>, p: NodeId)
    requires OnlyAt(n1, n2, p)
    ensures OnlyAt(n2, n1, p)
  {
  }

  /**
   * Splicing page q between the kids pre and post of p splices it between
   * their nodes and between their pages.
   */
  lemma SpliceAtP(n1: map<NodeId, Node>, n2: map<NodeId, Node>, rank: map<NodeId, nat>, p: NodeId,
                  pre: seq<NodeId>, post: seq<NodeId>, q: NodeId)
    requires OnlyAt(n1, n2, p) && p in n1 && IsPageTreeNode(n1[p]) && IsPageTreeNode(n2[p])
    requires GetKids(n1, p) == pre + post && GetKids(n2, p) == pre + [q] + post
    requires q in n1 && q != p && !IsPageTreeNode(n1[q]) && RankOf(rank, q) < RankOf(rank, p)
    requires p !in NodesOfKids(n1, rank, pre, RankOf(rank, p)) && p !in NodesOfKids(n1, rank, post, RankOf(rank, p))
    ensures Nodes(n1, rank, p) == [p] + NodesOfKids(n1, rank, pre, RankOf(rank, p)) + NodesOfKids(n1, rank, post, RankOf(rank, p))
    ensures Nodes(n2, rank, p) == [p] + NodesOfKids(n1, rank, pre, RankOf(rank, p)) + [q] + NodesOfKids(n1, rank, post, RankOf(rank, p))
    ensures Leaves(n1, rank, p) == LeavesOfKids(n1, rank, pre, RankOf(rank, p)) + LeavesOfKids(n1, rank, post, RankOf(rank, p))
    ensures Leaves(n2, rank, p) == LeavesOfKids(n1, rank, pre, RankOf(rank, p)) + [q] + LeavesOfKids(n1, rank, post, RankOf(rank, p))
  {
    var b := RankOf(rank, p);
    NodesOfKidsAppend(n1, rank, pre, post, b);
    LeavesOfKidsAppend(n1, rank, pre, post, b);
    NodesOfKidsAppend(n2, rank, pre + [q], post, b);
    NodesOfKidsAppend(n2, rank, pre, [q], b);
    LeavesOfKidsAppend(n2, rank, pre + [q], post, b);
    LeavesOfKidsAppend(n2, rank, pre, [q], b);
    KidsAway(n1, n2, rank, pre, b, p);
    KidsAway(n1, n2, rank, post, b, p);
    assert n2[q] == n1[q];
    assert [q][1..] == [];
    assert NodesOfKids(n2, rank, [q], b) == [q];
    assert LeavesOfKids(n2, rank, [q], b) == [q];
    var np, nq := NodesOfKids(n1, rank, pre, b), NodesOfKids(n1, rank, post, b);
    ConcatAssoc([p], np, nq);
    ConcatAssoc([p], np + [q], nq);
    ConcatAssoc([p], np, [q]);
  }

  lemma NoDupInner<T>(a: seq<T>, x: seq<T>, b: seq<T>)
    requires NoDup(a + x + b)
    ensures NoDup(x)
  {
    NoDupAppend(a + x, b);
    NoDupAppend(a, x);
  }

  lemma NoDupHead<T>(a: seq<T>, x: T, t: seq<T>, w: seq<T>)
    requires NoDup(a + ([x] + t) + w)
    ensures x !in t
  {
    NoDupAppend(a + ([x] + t), w);
    NoDupAppend(a, [x] + t);
    NoDupAppend([x], t);
  }

  /** A new element inserted into a sequence without duplicates. */
  lemma NoDupInsert<T>(a: seq<T>, x: seq<T>, q: T, y: seq<T>, w: seq<T>)
    requires NoDup(a + (x + y) + w) && q !in a + (x + y) + w
    ensures NoDup(a + (x + [q] + y) + w)
    ensures forall m :: m in a + (x + [q] + y) + w ==> m in a + (x + y) + w || m == q
  {
    var u, v := a + x, y + w;
    assert a + (x + y) + w == u + v;
    assert a + (x + [q] + y) + w == u + ([q] + v);
    NoDupAppend(u, v);
    NoDupAppend([q], v);
    NoDupAppend(u, [q] + v);
  }

  /** An element removed from a sequence without duplicates. */
  lemma NoDupRemove<T>(a: seq<T>, x: seq<T>, q: T, y: seq<T>, w: seq<T>)
    requires NoDup(a + (x + [q] + y) + w)
    ensures NoDup(a + (x + y) + w)
    ensures forall m :: m in a + (x + y) + w ==> m in a + (x + [q] + y) + w && m != q
  {
    var u, v := a + x, y + w;
    assert a + (x + y) + w == u + v;
    assert a + (x + [q] + y) + w == u + ([q] + v);
    NoDupAppend(u, [q] + v);
    NoDupAppend([q], v);
    NoDupAppend(u, v);
  }

  /**
   * Inserting page q, not yet in the tree, between the kids pre and post of
   * p, a node of the tree of root: q enters the page order right after the
   * pages below pre and right before the pages below post, and p gains one
   * page.
   */
  lemma InsertPage(n1: map<NodeId, Node>, n2: map<NodeId, Node>, rank: map<NodeId, nat>, root: NodeId, p: NodeId,
                   pre: seq<NodeId>, post: seq<NodeId>, q: NodeId)
    returns (c: seq<NodeId>, d: seq<NodeId>)
    requires OnlyAt(n1, n2, p) && p in n1 && IsPageTreeNode(n1[p]) && IsPageTreeNode(n2[p])
    requires GetKids(n1, p) == pre + post && GetKids(n2, p) == pre + [q] + post
    requires q in n1 && !IsPageTreeNode(n1[q]) && RankOf(rank, q) < RankOf(rank, p)
    requires p in Nodes(n1, rank, root) && NoDup(Nodes(n1, rank, root)) && q !in Nodes(n1, rank, root)
    ensures Leaves(n1, rank, root) == c + (LeavesOfKids(n1, rank, pre, RankOf(rank, p)) + LeavesOfKids(n1, rank, post, RankOf(rank, p))) + d
    ensures Leaves(n2, rank, root) == c + (LeavesOfKids(n1, rank, pre, RankOf(rank, p)) + [q] + LeavesOfKids(n1, rank, post, RankOf(rank, p))) + d
    ensures |Leaves(n2, rank, p)| == |Leaves(n1, rank, p)| + 1
    ensures root == p ==> c == [] && d == []
    ensures NoDup(Nodes(n2, rank, root))
    ensures forall m :: m in Nodes(n2, rank, root) ==> m in Nodes(n1, rank, root) || m == q
  {
    var b := RankOf(rank, p);
    var a, b', c', d' := EditContext(n1, n2, rank, root, p);
    var np, nq := NodesOfKids(n1, rank, pre, b), NodesOfKids(n1, rank, post, b);
    NodesOfKidsAppend(n1, rank, pre, post, b);
    assert Nodes(n1, rank, p) == [p] + (np + nq);
    NoDupHead(a, p, np + nq, b');
    assert p !in np && p !in nq;
    SpliceAtP(n1, n2, rank, p, pre, post, q);
    c, d := c', d';
    ConcatAssoc([p], np, nq);
    ConcatAssoc([p] + np, [q], nq);
    ConcatAssoc([p], np, [q]);
    NoDupInsert(a, [p] + np, q, nq, b');
  }

  /**
   * Removing page q from between the kids pre and post of p, a node of the
   * tree of root: q leaves the page order, which otherwise stays as it was,
   * and p loses one page.
   */
  lemma RemovePage(n1: map<NodeId, Node>, n2: map<NodeId, Node>, rank: map<NodeId, nat>, root: NodeId, p: NodeId,
                   pre: seq<NodeId>, post: seq<NodeId>, q: NodeId)
    returns (c: seq<NodeId>, d: seq<NodeId>)
    requires OnlyAt(n1, n2, p) && p in n1 && IsPageTreeNode(n1[p]) && IsPageTreeNode(n2[p])
    requires GetKids(n1, p) == pre + [q] + post && GetKids(n2, p) == pre + post
    requires q in n1 && !IsPageTreeNode(n1[q]) && RankOf(rank, q) < RankOf(rank, p)
    requires p in Nodes(n1, rank, root) && NoDup(Nodes(n1, rank, root))
    ensures Leaves(n1, rank, root) == c + (LeavesOfKids(n1, rank, pre, RankOf(rank, p)) + [q] + LeavesOfKids(n1, rank, post, RankOf(rank, p))) + d
    ensures Leaves(n2, rank, root) == c + (LeavesOfKids(n1, rank, pre, RankOf(rank, p)) + LeavesOfKids(n1, rank, post, RankOf(rank, p))) + d
    ensures |Leaves(n2, rank, p)| + 1 == |Leaves(n1, rank, p)|
    ensures root == p ==> c == [] && d == []
    ensures NoDup(Nodes(n2, rank, root))
    ensures forall m :: m in Nodes(n2, rank, root) ==> m in Nodes(n1, rank, root) && m != q
  {
    var b := RankOf(rank, p);
    var a, b', c', d' := EditContext(n1, n2, rank, root, p);
    var np, nq := NodesOfKids(n1, rank, pre, b), NodesOfKids(n1, rank, post, b);
    assert Nodes(n1, rank, p) == [p] + (np + [q] + nq) by {
      NodesOfKidsAppend(n1, rank, pre + [q], post, b);
      NodesOfKidsAppend(n1, rank, pre, [q], b);
      assert [q][1..] == [];
      assert NodesOfKids(n1, rank, [q], b) == [q];
    }
    NoDupHead(a, p, np + [q] + nq, b');
    assert p !in np && p !in nq && q != p;
    KidsAway(n1, n2, rank, pre, b, p);
    KidsAway(n1, n2, rank, post, b, p);
    OnlyAtSymmetric(n1, n2, p);
    SpliceAtP(n2, n1, rank, p, pre, post, q);
    c, d := c', d';
    ConcatAssoc([p], np, nq);
    ConcatAssoc([p] + np, [q], nq);
    ConcatAssoc([p], np, [q]);
    NoDupRemove(a, [p] + np, q, nq, b');
  }

  /* The /Count entries along the /Parent chain */

  /** The nodes of p's /Parent chain. */
  ghost function Ancestors(keys: set<NodeId>, parent: map<NodeId, NodeId>, rank: map<NodeId, nat>, p: NodeId): set<NodeId>
    requires ParentsRanked(keys, parent, rank) && p in keys
  {
    set c | c in Chain(keys, parent, rank, p)
  }

  /**
   * The /Count entries after delta is added to the one of each node of s,
   * reading a missing entry as -1 (COSDictionary.getInt without default).
   */
  function BumpCounts(count: map<NodeId, int>, s: set<NodeId>, delta: int): (r: map<NodeId, int>)
    ensures r.Keys == count.Keys + s
    ensures forall n :: n in s ==> r[n] == CountOr(count, n, -1) + delta
    ensures forall n :: n in count && n !in s ==> r[n] == count[n]
  {
    map n | n in count.Keys + s :: if n in s then CountOr(count, n, -1) + delta else count[n]
  }

  /** Adding delta to one more node's /Count. */
  lemma BumpOne(count: map<NodeId, int>, s: set<NodeId>, n: NodeId, delta: int)
    requires n !in s
    ensures BumpCounts(count, s + {n}, delta)
         == BumpCounts(count, s, delta)[n := CountOr(BumpCounts(count, s, delta), n, -1) + delta]
  {
  }

  /** The ancestors of start are those in done, all ranked below n, and those of n. */
  ghost predicate ChainRest(keys: set<NodeId>, parent: map<NodeId, NodeId>, rank: map<NodeId, nat>,
                            start: NodeId, done: set<NodeId>, n: NodeId)
    requires ParentsRanked(keys, parent, rank) && start in keys && n in keys
  {
    && Ancestors(keys, parent, rank, start) == done + Ancestors(keys, parent, rank, n)
    && forall m :: m in done ==> m in rank && rank[m] < rank[n]
  }

  /** One turn of the walk up the /Parent chain from start, at n, after the nodes in done. */
  lemma BumpStep(keys: set<NodeId>, parent: map<NodeId, NodeId>, rank: map<NodeId, nat>, count: map<NodeId, int>, delta: int,
                 start: NodeId, done: set<NodeId>, n: NodeId)
    requires ParentsRanked(keys, parent, rank) && start in keys && n in keys
    requires ChainRest(keys, parent, rank, start, done, n)
    ensures Parent(keys, parent, n).Some? ==>
              && ChainRest(keys, parent, rank, start, done + {n}, Parent(keys, parent, n).value)
              && Above(keys, rank, Parent(keys, parent, n).value) < Above(keys, rank, n)
    ensures Parent(keys, parent, n).None? ==> Ancestors(keys, parent, rank, start) == done + {n}
    ensures BumpCounts(count, done + {n}, delta)
         == BumpCounts(count, done, delta)[n := CountOr(BumpCounts(count, done, delta), n, -1) + delta]
  {
    assert n !in done;
    BumpOne(count, done, n, delta);
    match Parent(keys, parent, n)
    case None =>
      assert Chain(keys, parent, rank, n) == [n];
    case Some(p) =>
      AboveShrinks(keys, parent, rank, n, p);
      assert Chain(keys, parent, rank, n) == [n] + Chain(keys, parent, rank, p);
      assert Ancestors(keys, parent, rank, n) == {n} + Ancestors(keys, parent, rank, p);
  }

  /** The nodes of a subtree of a tree occur once in it. */
  lemma SubtreeNoDup(nodes: map<NodeId, Node>, rank: map<NodeId, nat>, root: NodeId, m: NodeId)
    requires m in Nodes(nodes, rank, root) && NoDup(Nodes(nodes, rank, root))
    ensures NoDup(Nodes(nodes, rank, m))
  {
    var a, b := SubtreeNodesRun(nodes, rank, root, m);
    NoDupInner(a, Nodes(nodes, rank, m), b);
  }

  lemma CountAfterEditAt(n1: map<NodeId, Node>, n2: map<NodeId, Node>, parent: map<NodeId, NodeId>, count: map<NodeId, int>,
                         rank: map<NodeId, nat>, root: NodeId, p: NodeId, delta: int, m: NodeId)
    requires Ranked(n1, parent, rank) && TreeShaped(n1, parent, rank, root) && CountsAgree(n1, count, rank, root)
    requires OnlyAt(n1, n2, p) && p in Nodes(n1, rank, root) && p in n1
    requires |Leaves(n2, rank, p)| == |Leaves(n1, rank, p)| + delta
    requires m in Nodes(n1, rank, root) && m in n1 && IsPageTreeNode(n1[m])
    ensures m in BumpCounts(count, Ancestors(n1.Keys, parent, rank, p), delta)
    ensures BumpCounts(count, Ancestors(n1.Keys, parent, rank, p), delta)[m] == |Leaves(n2, rank, m)|
  {
    var s := Ancestors(n1.Keys, parent, rank, p);
    if m in s {
      ChainDown(n1, parent, rank, root, p, m);
      SubtreeNoDup(n1, rank, root, m);
      var a, b, c, d := EditContext(n1, n2, rank, m, p);
    } else {
      if p in Nodes(n1, rank, m) {
        PathUp(n1, parent, rank, root, m, p);
        assert false;
      }
      SubtreeAway(n1, n2, rank, m, p);
    }
  }

  /**
   * After an edit of p's kids that changes its number of pages by delta,
   * adding delta to the /Count of each node of p's /Parent chain keeps
   * every /Count of the tree equal to its number of pages.
   */
  lemma CountsAfterEdit(n1: map<NodeId, Node>, n2: map<NodeId, Node>, parent: map<NodeId, NodeId>, count: map<NodeId, int>,
                        rank: map<NodeId, nat>, root: NodeId, p: NodeId, q: NodeId, delta: int)
    requires Ranked(n1, parent, rank) && TreeShaped(n1, parent, rank, root) && CountsAgree(n1, count, rank, root)
    requires OnlyAt(n1, n2, p) && p in Nodes(n1, rank, root) && p in n1
    requires IsPageTreeNode(n1[p]) == IsPageTreeNode(n2[p])
    requires |Leaves(n2, rank, p)| == |Leaves(n1, rank, p)| + delta
    requires q in n2 && !IsPageTreeNode(n2[q])
    requires forall m :: m in Nodes(n2, rank, root) ==> m in Nodes(n1, rank, root) || m == q
    ensures CountsAgree(n2, BumpCounts(count, Ancestors(n1.Keys, parent, rank, p), delta), rank, root)
  {
    forall m | m in Nodes(n2, rank, root) && m in n2 && IsPageTreeNode(n2[m])
      ensures m in BumpCounts(count, Ancestors(n1.Keys, parent, rank, p), delta)
      ensures BumpCounts(count, Ancestors(n1.Keys, parent, rank, p), delta)[m] == |Leaves(n2, rank, m)|
    {
      CountAfterEditAt(n1, n2, parent, count, rank, root, p, delta, m);
    }
  }

  /* The shape of the tree after an edit */

  /** Setting the /Parent of a node off p's chain leaves the chain alone. */
  lemma {:induction false} ChainFrame(keys: set<NodeId>, parent1: map<NodeId, NodeId>, parent2: map<NodeId, NodeId>,
                                      rank: map<NodeId, nat>, p: NodeId, q: NodeId, x: NodeId)
    requires ParentsRanked(keys, parent1, rank) && ParentsRanked(keys, parent2, rank) && p in keys
    requires parent2 == parent1[q := x] && q !in Chain(keys, parent1, rank, p)
    ensures Chain(keys, parent2, rank, p) == Chain(keys, parent1, rank, p)
    decreases Above(keys, rank, p)
  {
    assert p != q;
    assert Parent(keys, parent2, p) == Parent(keys, parent1, p);
    match Parent(keys, parent1, p)
    case None =>
    case Some(u) =>
      AboveShrinks(keys, parent1, rank, p, u);
      ChainFrame(keys, parent1, parent2, rank, u, q, x);
  }

  lemma KidInTree(nodes: map<NodeId, Node>, rank: map<NodeId, nat>, root: NodeId, m: NodeId, k: NodeId)
    requires KidsRanked(nodes, rank) && m in Nodes(nodes, rank, root) && m in nodes && k in GetKids(nodes, m)
    ensures k in Nodes(nodes, rank, root)
  {
    var j :| 0 <= j < |GetKids(nodes, m)| && GetKids(nodes, m)[j] == k;
    KidInNodes(nodes, rank, m, j);
    NodesShape(nodes, rank, k);
    NodesTrans(nodes, rank, root, m, k);
  }

  lemma KidParentAfterInsert(n1: map<NodeId, Node>, n2: map<NodeId, Node>, parent1: map<NodeId, NodeId>, parent2: map<NodeId, NodeId>,
                             rank: map<NodeId, nat>, root: NodeId, p: NodeId, pre: seq<NodeId>, post: seq<NodeId>, q: NodeId,
                             m: NodeId, k: NodeId)
    requires Ranked(n1, parent1, rank) && TreeShaped(n1, parent1, rank, root)
    requires OnlyAt(n1, n2, p) && p in n1
    requires GetKids(n1, p) == pre + post && GetKids(n2, p) == pre + [q] + post
    requires q !in Nodes(n1, rank, root) && parent2 == parent1[q := p]
    requires m in Nodes(n1, rank, root) && m in n2 && k in GetKids(n2, m)
    ensures Parent(n2.Keys, parent2, k) == Some(m)
  {
    if m == p && k == q {
    } else {
      if m == p {
        assert k in GetKids(n1, p);
      } else {
        assert n2[m] == n1[m];
      }
      KidInTree(n1, rank, root, m, k);
      TreeParent(n1, parent1, rank, root, m, k);
      assert k != q;
      ParentUpdateOther(n1.Keys, parent1, q, p, k);
    }
  }

  lemma ParentUpdateOther(keys: set<NodeId>, parent: map<NodeId, NodeId>, q: NodeId, x: NodeId, k: NodeId)
    requires k != q
    ensures Parent(keys, parent[q := x], k) == Parent(keys, parent, k)
  {
  }

  /** Inserting a page that was not in the tree, with its /Parent set to p, keeps the tree a tree. */
  lemma TreeAfterInsert(n1: map<NodeId, Node>, n2: map<NodeId, Node>, parent1: map<NodeId, NodeId>, parent2: map<NodeId, NodeId>,
                        rank: map<NodeId, nat>, root: NodeId, p: NodeId, pre: seq<NodeId>, post: seq<NodeId>, q: NodeId)
    requires Ranked(n1, parent1, rank) && TreeShaped(n1, parent1, rank, root)
    requires OnlyAt(n1, n2, p) && p in Nodes(n1, rank, root) && p in n1
    requires GetKids(n1, p) == pre + post && GetKids(n2, p) == pre + [q] + post
    requires q in n2 && !IsPageTreeNode(n2[q]) && q !in Nodes(n1, rank, root)
    requires NoDup(Nodes(n2, rank, root)) && forall m :: m in Nodes(n2, rank, root) ==> m in Nodes(n1, rank, root) || m == q
    requires parent2 == parent1[q := p]
    ensures TreeShaped(n2, parent2, rank, root)
  {
    NodesShape(n1, rank, root);
    assert root != q;
    assert Parent(n2.Keys, parent2, root) == Parent(n1.Keys, parent1, root);
    forall m, k | m in Nodes(n2, rank, root) && m in n2 && k in GetKids(n2, m)
      ensures Parent(n2.Keys, parent2, k) == Some(m)
    {
      assert m != q;
      KidParentAfterInsert(n1, n2, parent1, parent2, rank, root, p, pre, post, q, m, k);
    }
  }

  /** Removing a page from its /Parent's kids keeps the tree a tree. */
  lemma TreeAfterRemove(n1: map<NodeId, Node>, n2: map<NodeId, Node>, parent: map<NodeId, NodeId>,
                        rank: map<NodeId, nat>, root: NodeId, p: NodeId, pre: seq<NodeId>, post: seq<NodeId>, q: NodeId)
    requires Ranked(n1, parent, rank) && TreeShaped(n1, parent, rank, root)
    requires OnlyAt(n1, n2, p) && p in n1
    requires GetKids(n1, p) == pre + [q] + post && GetKids(n2, p) == pre + post
    requires NoDup(Nodes(n2, rank, root)) && forall m :: m in Nodes(n2, rank, root) ==> m in Nodes(n1, rank, root)
    ensures TreeShaped(n2, parent, rank, root)
  {
    forall m, k | m in Nodes(n2, rank, root) && m in n2 && k in GetKids(n2, m)
      ensures Parent(n2.Keys, parent, k) == Some(m)
    {
      if m == p {
        assert k in GetKids(n1, p);
      } else {
        assert n2[m] == n1[m];
      }
      TreeParent(n1, parent, rank, root, m, k);
    }
  }

  /** Adding a page of rank 0 as a kid of p, with p as its /Parent, keeps the ranks. */
  lemma RankedAfterInsert(n1: map<NodeId, Node>, n2: map<NodeId, Node>, parent1: map<NodeId, NodeId>, parent2: map<NodeId, NodeId>,
                          rank: map<NodeId, nat>, p: NodeId, pre: seq<NodeId>, post: seq<NodeId>, q: NodeId)
    requires Ranked(n1, parent1, rank)
    requires OnlyAt(n1, n2, p) && p in n1 && IsPageTreeNode(n1[p]) && IsPageTreeNode(n2[p])
    requires GetKids(n1, p) == pre + post && GetKids(n2, p) == pre + [q] + post
    requires q in n1 && !IsPageTreeNode(n1[q]) && q != p
    requires parent2 == parent1[q := p]
    ensures Ranked(n2, parent2, rank)
  {
    forall m, j | m in n2 && 0 <= j < |GetKids(n2, m)| ensures RankOf(rank, GetKids(n2, m)[j]) < rank[m] {
      if m != p {
        assert GetKids(n2, m) == GetKids(n1, m);
      } else if j < |pre| {
        assert GetKids(n2, m)[j] == GetKids(n1, m)[j];
      } else if j > |pre| {
        assert GetKids(n2, m)[j] == GetKids(n1, m)[j - 1];
      }
    }
  }

  /** Dropping a kid of p keeps the ranks. */
  lemma RankedAfterRemove(n1: map<NodeId, Node>, n2: map<NodeId, Node>, parent: map<NodeId, NodeId>,
                          rank: map<NodeId, nat>, p: NodeId, pre: seq<NodeId>, post: seq<NodeId>, q: NodeId)
    requires Ranked(n1, parent, rank)
    requires OnlyAt(n1, n2, p) && p in n1 && IsPageTreeNode(n1[p]) && IsPageTreeNode(n2[p])
    requires GetKids(n1, p) == pre + [q] + post && GetKids(n2, p) == pre + post
    ensures Ranked(n2, parent, rank)
  {
    forall m, j | m in n2 && 0 <= j < |GetKids(n2, m)| ensures RankOf(rank, GetKids(n2, m)[j]) < rank[m] {
      if m != p {
        assert GetKids(n2, m) == GetKids(n1, m);
      } else if j < |pre| {
        assert GetKids(n2, m)[j] == GetKids(n1, m)[j];
      } else {
        assert GetKids(n2, m)[j] == GetKids(n1, m)[j + 1];
      }
    }
  }

  /* The edits of PDPageTree */

  /** The dictionaries with p's /Kids entry set to the array items. */
  function SetKids(nodes: map<NodeId, Node>, p: NodeId, items: seq<Entry>): (r: map<NodeId, Node>)
    requires p in nodes
    ensures OnlyAt(nodes, r, p) && p in r && r[p].kids == Some(KidsArray(items))
  {
    nodes[p := nodes[p].(kids := Some(KidsArray(items)))]
  }

  /** The pages of a tree occur once in its page order. */
  lemma LeavesNoDup(nodes: map<NodeId, Node>, rank: map<NodeId, nat>, root: NodeId)
    requires NoDup(Nodes(nodes, rank, root))
    ensures NoDup(Leaves(nodes, rank, root))
  {
    LeavesArePagesOfNodes(nodes, rank, root);
    NoDupPagesOf(nodes, Nodes(nodes, rank, root));
  }

  /** A page of the tree is a kid of its /Parent, which is a node of the tree. */
  lemma PageParent(nodes: map<NodeId, Node>, parent: map<NodeId, NodeId>, count: map<NodeId, int>, rank: map<NodeId, nat>,
                   root: NodeId, q: NodeId)
    requires WellFormed(nodes, parent, count, rank, root) && q in Leaves(nodes, rank, root)
    ensures q in nodes && !IsPageTreeNode(nodes[q]) && q in Nodes(nodes, rank, root)
    ensures Parent(nodes.Keys, parent, q).Some?
    ensures Parent(nodes.Keys, parent, q).value in Nodes(nodes, rank, root)
    ensures q in GetKids(nodes, Parent(nodes.Keys, parent, q).value)
  {
    LeavesArePages(nodes, rank, root);
    KidOfSome(nodes, rank, root, q);
    var y :| y in Nodes(nodes, rank, root) && y in nodes && q in GetKids(nodes, y);
    TreeParent(nodes, parent, rank, root, y, q);
  }

  lemma ChainAvoids(nodes: map<NodeId, Node>, parent: map<NodeId, NodeId>, rank: map<NodeId, nat>, root: NodeId, p: NodeId, q: NodeId)
    requires Ranked(nodes, parent, rank) && TreeShaped(nodes, parent, rank, root)
    requires p in Nodes(nodes, rank, root) && p in nodes && q !in Nodes(nodes, rank, root)
    ensures q !in Chain(nodes.Keys, parent, rank, p)
  {
    if q in Chain(nodes.Keys, parent, rank, p) {
      ChainDown(nodes, parent, rank, root, p, q);
    }
  }

  /**
   * Inserting a reference to page q, not yet in the tree, at index i of the
   * /Kids array of p, setting q's /Parent to p and adding one to the /Count
   * of each node of p's /Parent chain: the tree stays well formed, and q
   * enters the page order between the pages below the kids before index i
   * and those below the kids from index i on.
   */
  lemma InsertKid(nodes: map<NodeId, Node>, parent: map<NodeId, NodeId>, count: map<NodeId, int>, rank: map<NodeId, nat>,
                  root: NodeId, p: NodeId, items: seq<Entry>, i: nat, q: NodeId)
    returns (c: seq<NodeId>, d: seq<NodeId>)
    requires WellFormed(nodes, parent, count, rank, root)
    requires p in Nodes(nodes, rank, root) && p in nodes && nodes[p].kids == Some(KidsArray(items)) && i <= |items|
    requires q in nodes && !IsPageTreeNode(nodes[q]) && q !in Nodes(nodes, rank, root)
    ensures ParentsRanked(nodes.Keys, parent[q := p], rank)
    ensures Chain(nodes.Keys, parent[q := p], rank, p) == Chain(nodes.Keys, parent, rank, p)
    ensures WellFormed(SetKids(nodes, p, items[..i] + [Ref(q)] + items[i..]), parent[q := p],
                       BumpCounts(count, Ancestors(nodes.Keys, parent, rank, p), 1), rank, root)
    ensures Leaves(nodes, rank, root)
         == c + (LeavesOfKids(nodes, rank, KidIds(nodes.Keys, items[..i]), RankOf(rank, p))
                 + LeavesOfKids(nodes, rank, KidIds(nodes.Keys, items[i..]), RankOf(rank, p))) + d
    ensures Leaves(SetKids(nodes, p, items[..i] + [Ref(q)] + items[i..]), rank, root)
         == c + (LeavesOfKids(nodes, rank, KidIds(nodes.Keys, items[..i]), RankOf(rank, p)) + [q]
                 + LeavesOfKids(nodes, rank, KidIds(nodes.Keys, items[i..]), RankOf(rank, p))) + d
    ensures p == root ==> c == [] && d == []
  {
    var keys := nodes.Keys;
    var n2 := SetKids(nodes, p, items[..i] + [Ref(q)] + items[i..]);
    var parent2 := parent[q := p];
    var pre, post := KidIds(keys, items[..i]), KidIds(keys, items[i..]);
    assert items == items[..i] + items[i..];
    KidIdsAppend(keys, items[..i], items[i..]);
    KidIdsSplice(keys, items[..i], q, items[i..]);
    assert GetKids(nodes, p) == pre + post;
    assert GetKids(n2, p) == pre + [q] + post;
    NodesShape(nodes, rank, root);
    assert q != p;
    c, d := InsertPage(nodes, n2, rank, root, p, pre, post, q);
    RankedAfterInsert(nodes, n2, parent, parent2, rank, p, pre, post, q);
    TreeAfterInsert(nodes, n2, parent, parent2, rank, root, p, pre, post, q);
    ChainAvoids(nodes, parent, rank, root, p, q);
    ChainFrame(keys, parent, parent2, rank, p, q, p);
    CountsAfterEdit(nodes, n2, parent, count, rank, root, p, q, 1);
  }

  /**
   * Removing the first reference to page q of the tree from the /Kids array
   * of its /Parent p and subtracting one from the /Count of each node of p's
   * /Parent chain: the tree stays well formed, and q leaves the page order,
   * which otherwise stays as it was.
   */
  lemma RemoveKid(nodes: map<NodeId, Node>, parent: map<NodeId, NodeId>, count: map<NodeId, int>, rank: map<NodeId, nat>,
                  root: NodeId, q: NodeId, p: NodeId, items: seq<Entry>)
    returns (i: nat, j: nat)
    requires WellFormed(nodes, parent, count, rank, root) && q in Leaves(nodes, rank, root)
    requires Parent(nodes.Keys, parent, q) == Some(p) && p in nodes && nodes[p].kids == Some(KidsArray(items))
    ensures Ref(q) in items && i == IndexOf(items, Ref(q)) && i < |items|
    ensures j == IndexOf(Leaves(nodes, rank, root), q) && j < |Leaves(nodes, rank, root)|
    ensures WellFormed(SetKids(nodes, p, items[..i] + items[i + 1..]), parent,
                       BumpCounts(count, Ancestors(nodes.Keys, parent, rank, p), -1), rank, root)
    ensures Leaves(SetKids(nodes, p, items[..i] + items[i + 1..]), rank, root)
         == Leaves(nodes, rank, root)[..j] + Leaves(nodes, rank, root)[j + 1..]
  {
    var pre, post;
    i, pre, post := RemoveKidSetup(nodes, parent, count, rank, root, q, p, items);
    RemoveKidTree(nodes, parent, count, rank, root, q, p, items, i, pre, post);
    j := RemoveKidOrder(nodes, rank, root, q, p, items, i, pre, post);
  }

  lemma RemoveKidSetup(nodes: map<NodeId, Node>, parent: map<NodeId, NodeId>, count: map<NodeId, int>, rank: map<NodeId, nat>,
                       root: NodeId, q: NodeId, p: NodeId, items: seq<Entry>)
    returns (i: nat, pre: seq<NodeId>, post: seq<NodeId>)
    requires WellFormed(nodes, parent, count, rank, root) && q in Leaves(nodes, rank, root)
    requires Parent(nodes.Keys, parent, q) == Some(p) && p in nodes && nodes[p].kids == Some(KidsArray(items))
    ensures Ref(q) in items && i == IndexOf(items, Ref(q))
    ensures p in Nodes(nodes, rank, root) && q in nodes && !IsPageTreeNode(nodes[q]) && q != p
    ensures RankOf(rank, q) < RankOf(rank, p)
    ensures GetKids(nodes, p) == pre + [q] + post
    ensures GetKids(SetKids(nodes, p, items[..i] + items[i + 1..]), p) == pre + post
  {
    var keys := nodes.Keys;
    PageParent(nodes, parent, count, rank, root, q);
    assert Ref(q) in items;
    i := IndexOf(items, Ref(q));
    pre, post := KidIds(keys, items[..i]), KidIds(keys, items[i + 1..]);
    SplitAt(items, i);
    KidIdsSplice(keys, items[..i], q, items[i + 1..]);
    KidIdsAppend(keys, items[..i], items[i + 1..]);
  }

  lemma RemoveKidTree(nodes: map<NodeId, Node>, parent: map<NodeId, NodeId>, count: map<NodeId, int>, rank: map<NodeId, nat>,
                      root: NodeId, q: NodeId, p: NodeId, items: seq<Entry>, i: nat, pre: seq<NodeId>, post: seq<NodeId>)
    requires WellFormed(nodes, parent, count, rank, root)
    requires p in nodes && nodes[p].kids == Some(KidsArray(items)) && i < |items|
    requires p in Nodes(nodes, rank, root) && q in nodes && !IsPageTreeNode(nodes[q]) && q != p
    requires RankOf(rank, q) < RankOf(rank, p)
    requires GetKids(nodes, p) == pre + [q] + post
    requires GetKids(SetKids(nodes, p, items[..i] + items[i + 1..]), p) == pre + post
    ensures WellFormed(SetKids(nodes, p, items[..i] + items[i + 1..]), parent,
                       BumpCounts(count, Ancestors(nodes.Keys, parent, rank, p), -1), rank, root)
  {
    var n2 := SetKids(nodes, p, items[..i] + items[i + 1..]);
    var c, d := RemovePage(nodes, n2, rank, root, p, pre, post, q);
    RankedAfterRemove(nodes, n2, parent, rank, p, pre, post, q);
    TreeAfterRemove(nodes, n2, parent, rank, root, p, pre, post, q);
    CountsAfterEdit(nodes, n2, parent, count, rank, root, p, q, -1);
  }

  lemma RemoveKidOrder(nodes: map<NodeId, Node>, rank: map<NodeId, nat>, root: NodeId, q: NodeId, p: NodeId,
                       items: seq<Entry>, i: nat, pre: seq<NodeId>, post: seq<NodeId>)
    returns (j: nat)
    requires NoDup(Nodes(nodes, rank, root))
    requires p in nodes && nodes[p].kids == Some(KidsArray(items)) && i < |items|
    requires p in Nodes(nodes, rank, root) && q in nodes && !IsPageTreeNode(nodes[q]) && q != p
    requires RankOf(rank, q) < RankOf(rank, p)
    requires GetKids(nodes, p) == pre + [q] + post
    requires GetKids(SetKids(nodes, p, items[..i] + items[i + 1..]), p) == pre + post
    ensures j == IndexOf(Leaves(nodes, rank, root), q) && j < |Leaves(nodes, rank, root)|
    ensures Leaves(SetKids(nodes, p, items[..i] + items[i + 1..]), rank, root)
         == Leaves(nodes, rank, root)[..j] + Leaves(nodes, rank, root)[j + 1..]
  {
    var n2 := SetKids(nodes, p, items[..i] + items[i + 1..]);
    var c, d := RemovePage(nodes, n2, rank, root, p, pre, post, q);
    LeavesNoDup(nodes, rank, root);
    NoDupOnce(Leaves(nodes, rank, root), q);
    j := DropMiddle(Leaves(nodes, rank, root), Leaves(n2, rank, root), c, LeavesOfKids(nodes, rank, pre, RankOf(rank, p)), q,
                    LeavesOfKids(nodes, rank, post, RankOf(rank, p)), d);
  }

  lemma SplitAt<T>(s: seq<T>, i: nat)
    requires i < |s|
    ensures s == s[..i] + [s[i]] + s[i + 1..]
  {
  }

  /** Dropping q where it occurs, once, in the page order. */
  lemma DropMiddle<T>(l: seq<T>, l2: seq<T>, c: seq<T>, x: seq<T>, q: T, y: seq<T>, d: seq<T>)
    returns (j: nat)
    requires l == c + (x + [q] + y) + d && l2 == c + (x + y) + d && OccursOnce(l, q)
    ensures j == IndexOf(l, q) && j < |l| && l2 == l[..j] + l[j + 1..]
  {
    j := |c| + |x|;
    assert l[j] == q;
    assert l[..j] == c + x;
    assert l[j + 1..] == y + d;
  }

  /** A /Kids array holding one page: that page alone. */
  lemma LeavesOfOnePage(nodes: map<NodeId, Node>, rank: map<NodeId, nat>, k: NodeId, bound: nat)
    requires k in nodes && !IsPageTreeNode(nodes[k]) && RankOf(rank, k) < bound
    ensures LeavesOfKids(nodes, rank, [k], bound) == [k]
  {
    assert [k][1..] == [];
  }

  /** Inserting q into the page order just before or just after its only occurrence of next. */
  lemma InsertBeside<T>(l: seq<T>, l2: seq<T>, c: seq<T>, x: seq<T>, q: T, y: seq<T>, d: seq<T>, next: T, after: bool)
    returns (j: nat)
    requires l == c + (x + y) + d && l2 == c + (x + [q] + y) + d && OccursOnce(l, next)
    requires if after then |x| > 0 && x[|x| - 1] == next else |y| > 0 && y[0] == next
    ensures j == IndexOf(l, next) + (if after then 1 else 0) && j <= |l| && l2 == l[..j] + [q] + l[j..]
  {
    j := |c| + |x|;
    var at := if after then j - 1 else j;
    assert l[at] == next;
    assert l[..j] == c + x;
    assert l[j..] == y + d;
  }

  /**
   * The insertion of PDPageTree.insertBefore and insertAfter: a reference
   * to page q, not yet in the tree, goes into the /Kids array of the
   * /Parent p of page next, just before or just after the first reference
   * to next there, q's /Parent becomes p, and the /Count of each node of
   * p's /Parent chain grows by one. The tree stays well formed and q enters
   * the page order just before or just after next.
   */
  lemma InsertNear(nodes: map<NodeId, Node>, parent: map<NodeId, NodeId>, count: map<NodeId, int>, rank: map<NodeId, nat>,
                   root: NodeId, next: NodeId, q: NodeId, p: NodeId, items: seq<Entry>, after: bool)
    returns (i: nat, j: nat)
    requires WellFormed(nodes, parent, count, rank, root) && next in Leaves(nodes, rank, root)
    requires Parent(nodes.Keys, parent, next) == Some(p) && p in nodes && nodes[p].kids == Some(KidsArray(items))
    requires q in nodes && !IsPageTreeNode(nodes[q]) && q !in Nodes(nodes, rank, root)
    ensures Ref(next) in items && i == IndexOf(items, Ref(next)) + (if after then 1 else 0) && i <= |items|
    ensures j == IndexOf(Leaves(nodes, rank, root), next) + (if after then 1 else 0) && j <= |Leaves(nodes, rank, root)|
    ensures Chain(nodes.Keys, parent[q := p], rank, p) == Chain(nodes.Keys, parent, rank, p)
    ensures WellFormed(SetKids(nodes, p, items[..i] + [Ref(q)] + items[i..]), parent[q := p],
                       BumpCounts(count, Ancestors(nodes.Keys, parent, rank, p), 1), rank, root)
    ensures Leaves(SetKids(nodes, p, items[..i] + [Ref(q)] + items[i..]), rank, root)
         == Leaves(nodes, rank, root)[..j] + [q] + Leaves(nodes, rank, root)[j..]
  {
    NextSlot(nodes, parent, count, rank, root, next, p, items);
    i := IndexOf(items, Ref(next)) + (if after then 1 else 0);
    var c, d := InsertKid(nodes, parent, count, rank, root, p, items, i, q);
    j := InsertNearOrder(nodes, rank, next, q, p, items, after, i, Leaves(nodes, rank, root),
                         Leaves(SetKids(nodes, p, items[..i] + [Ref(q)] + items[i..]), rank, root), c, d);
  }

  /** A page of the tree is referenced from the /Kids array of its /Parent, which ranks above it. */
  lemma NextSlot(nodes: map<NodeId, Node>, parent: map<NodeId, NodeId>, count: map<NodeId, int>, rank: map<NodeId, nat>,
                 root: NodeId, next: NodeId, p: NodeId, items: seq<Entry>)
    requires WellFormed(nodes, parent, count, rank, root) && next in Leaves(nodes, rank, root)
    requires Parent(nodes.Keys, parent, next) == Some(p) && p in nodes && nodes[p].kids == Some(KidsArray(items))
    ensures Ref(next) in items && p in Nodes(nodes, rank, root) && OccursOnce(Leaves(nodes, rank, root), next)
    ensures next in nodes && !IsPageTreeNode(nodes[next]) && RankOf(rank, next) < RankOf(rank, p)
  {
    PageParent(nodes, parent, count, rank, root, next);
    var kids := GetKids(nodes, p);
    var j :| 0 <= j < |kids| && kids[j] == next;
    assert RankOf(rank, kids[j]) < rank[p];
    LeavesNoDup(nodes, rank, root);
    NoDupOnce(Leaves(nodes, rank, root), next);
  }

  /** An element occurs at most once: where it is found is where it first occurs. */
  predicate OccursOnce<T(==)>(s: seq<T>, x: T) {
    forall k :: 0 <= k < |s| && s[k] == x ==> k == IndexOf(s, x)
  }

  lemma NoDupOnce<T>(s: seq<T>, x: T)
    requires NoDup(s)
    ensures OccursOnce(s, x)
  {
    forall k | 0 <= k < |s| && s[k] == x ensures k == IndexOf(s, x) {
      IndexOfFirst(s, x, k);
    }
  }

  /** The pages below the kids of p before and after the i-th, around next, the page at i - 1 or at i. */
  lemma InsertNearOrder(nodes: map<NodeId, Node>, rank: map<NodeId, nat>, next: NodeId, q: NodeId, p: NodeId,
                        items: seq<Entry>, after: bool, i: nat, l: seq<NodeId>, l2: seq<NodeId>,
                        c: seq<NodeId>, d: seq<NodeId>)
    returns (j: nat)
    requires Ref(next) in items && i == IndexOf(items, Ref(next)) + (if after then 1 else 0)
    requires next in nodes && !IsPageTreeNode(nodes[next]) && RankOf(rank, next) < RankOf(rank, p)
    requires l == c + (LeavesOfKids(nodes, rank, KidIds(nodes.Keys, items[..i]), RankOf(rank, p))
                       + LeavesOfKids(nodes, rank, KidIds(nodes.Keys, items[i..]), RankOf(rank, p))) + d
    requires l2 == c + (LeavesOfKids(nodes, rank, KidIds(nodes.Keys, items[..i]), RankOf(rank, p)) + [q]
                        + LeavesOfKids(nodes, rank, KidIds(nodes.Keys, items[i..]), RankOf(rank, p))) + d
    requires OccursOnce(l, next)
    ensures j == IndexOf(l, next) + (if after then 1 else 0) && j <= |l| && l2 == l[..j] + [q] + l[j..]
  {
    var b := RankOf(rank, p);
    var i0 := IndexOf(items, Ref(next));
    if after {
      PageEndsKids(nodes, rank, items, i0, next, b, LeavesOfKids(nodes, rank, KidIds(nodes.Keys, items[..i]), b));
    } else {
      PageStartsKids(nodes, rank, items, i0, next, b, LeavesOfKids(nodes, rank, KidIds(nodes.Keys, items[i..]), b));
    }
    j := InsertBeside(l, l2, c, LeavesOfKids(nodes, rank, KidIds(nodes.Keys, items[..i]), b), q,
                      LeavesOfKids(nodes, rank, KidIds(nodes.Keys, items[i..]), b), d, next, after);
  }

  lemma PageEndsKids(nodes: map<NodeId, Node>, rank: map<NodeId, nat>, items: seq<Entry>, i0: nat, next: NodeId, b: nat,
                     x: seq<NodeId>)
    requires i0 < |items| && items[i0] == Ref(next)
    requires next in nodes && !IsPageTreeNode(nodes[next]) && RankOf(rank, next) < b
    requires x == LeavesOfKids(nodes, rank, KidIds(nodes.Keys, items[..i0 + 1]), b)
    ensures |x| > 0 && x[|x| - 1] == next
  {
    var keys := nodes.Keys;
    LeavesOfOnePage(nodes, rank, next, b);
    assert items[..i0 + 1] == items[..i0] + [Ref(next)];
    KidIdsAppend(keys, items[..i0], [Ref(next)]);
    assert KidIds(keys, [Ref(next)]) == [next] by {
      assert [Ref(next)][1..] == [];
    }
    LeavesOfKidsAppend(nodes, rank, KidIds(keys, items[..i0]), [next], b);
  }

  lemma PageStartsKids(nodes: map<NodeId, Node>, rank: map<NodeId, nat>, items: seq<Entry>, i0: nat, next: NodeId, b: nat,
                       y: seq<NodeId>)
    requires i0 < |items| && items[i0] == Ref(next)
    requires next in nodes && !IsPageTreeNode(nodes[next]) && RankOf(rank, next) < b
    requires y == LeavesOfKids(nodes, rank, KidIds(nodes.Keys, items[i0..]), b)
    ensures |y| > 0 && y[0] == next
  {
    var keys := nodes.Keys;
    LeavesOfOnePage(nodes, rank, next, b);
    assert items[i0..] == [Ref(next)] + items[i0 + 1..];
    KidIdsAppend(keys, [Ref(next)], items[i0 + 1..]);
    assert KidIds(keys, [Ref(next)]) == [next] by {
      assert [Ref(next)][1..] == [];
    }
    LeavesOfKidsAppend(nodes, rank, [next], KidIds(keys, items[i0 + 1..]), b);
  }

  /**
   * The insertion of PDPageTree.add: a reference to page q, not yet in the
   * tree, goes at the end of the root's /Kids array, q's /Parent becomes the
   * root, and the root's /Count grows by one. The tree stays well formed
   * and q becomes its last page.
   */
  lemma AppendKid(nodes: map<NodeId, Node>, parent: map<NodeId, NodeId>, count: map<NodeId, int>, rank: map<NodeId, nat>,
                  root: NodeId, items: seq<Entry>, q: NodeId)
    requires WellFormed(nodes, parent, count, rank, root) && nodes[root].kids == Some(KidsArray(items))
    requires q in nodes && !IsPageTreeNode(nodes[q]) && q !in Nodes(nodes, rank, root)
    ensures ParentsRanked(nodes.Keys, parent[q := root], rank)
    ensures Chain(nodes.Keys, parent[q := root], rank, root) == Chain(nodes.Keys, parent, rank, root)
    ensures WellFormed(SetKids(nodes, root, items + [Ref(q)]), parent[q := root],
                       BumpCounts(count, Ancestors(nodes.Keys, parent, rank, root), 1), rank, root)
    ensures Leaves(SetKids(nodes, root, items + [Ref(q)]), rank, root) == Leaves(nodes, rank, root) + [q]
  {
    NodesShape(nodes, rank, root);
    AppendAsSplice(items, Ref(q));
    var c, d := InsertKid(nodes, parent, count, rank, root, root, items, |items|, q);
    AppendOrder(nodes, rank, root, items, q);
  }

  lemma AppendAsSplice<T>(s: seq<T>, x: T)
    ensures s[..|s|] + [x] + s[|s|..] == s + [x] && s[..|s|] == s && s[|s|..] == []
  {
  }

  lemma AppendOrder(nodes: map<NodeId, Node>, rank: map<NodeId, nat>, root: NodeId, items: seq<Entry>, q: NodeId)
    requires root in nodes && nodes[root].kids == Some(KidsArray(items))
    requires var b := RankOf(rank, root);
             var i := |items|;
             && Leaves(nodes, rank, root)
                == [] + (LeavesOfKids(nodes, rank, KidIds(nodes.Keys, items[..i]), b)
                         + LeavesOfKids(nodes, rank, KidIds(nodes.Keys, items[i..]), b)) + []
             && Leaves(SetKids(nodes, root, items[..i] + [Ref(q)] + items[i..]), rank, root)
                == [] + (LeavesOfKids(nodes, rank, KidIds(nodes.Keys, items[..i]), b) + [q]
                         + LeavesOfKids(nodes, rank, KidIds(nodes.Keys, items[i..]), b)) + []
    ensures Leaves(SetKids(nodes, root, items + [Ref(q)]), rank, root) == Leaves(nodes, rank, root) + [q]
  {
    AppendAsSplice(items, Ref(q));
    assert KidIds(nodes.Keys, []) == [];
    var x := LeavesOfKids(nodes, rank, KidIds(nodes.Keys, items), RankOf(rank, root));
    assert Leaves(nodes, rank, root) == x;
  }

  /* Frames: dictionaries of the same shape have the same nodes and pages */

  /**
   * Every dictionary has the same /Kids and is an intermediate node in both
   * states: only entries the traversals ignore differ, such as a page's /Type.
   */
  ghost predicate SameShape(n1: map<NodeId, Node>, n2: map<NodeId, Node>) {
    n1.Keys == n2.Keys && forall m :: m in n1 ==> n1[m].kids == n2[m].kids && IsPageTreeNode(n1[m]) == IsPageTreeNode(n2[m])
  }

  lemma {:induction false} ShapeFrame(n1: map<NodeId, Node>, n2: map<NodeId, Node>, rank: map<NodeId, nat>, n: NodeId)
    requires SameShape(n1, n2)
    ensures Nodes(n2, rank, n) == Nodes(n1, rank, n)
    ensures Leaves(n2, rank, n) == Leaves(n1, rank, n)
    decreases RankOf(rank, n), 1
  {
    if n in n1 {
      assert GetKids(n2, n) == GetKids(n1, n);
      ShapeKidsFrame(n1, n2, rank, GetKids(n1, n), RankOf(rank, n));
    }
  }

  lemma {:induction false} ShapeKidsFrame(n1: map<NodeId, Node>, n2: map<NodeId, Node>, rank: map<NodeId, nat>, kids: seq<NodeId>, bound: nat)
    requires SameShape(n1, n2)
    ensures NodesOfKids(n2, rank, kids, bound) == NodesOfKids(n1, rank, kids, bound)
    ensures LeavesOfKids(n2, rank, kids, bound) == LeavesOfKids(n1, rank, kids, bound)
    decreases bound, 0, |kids|
  {
    if kids != [] {
      if RankOf(rank, kids[0]) < bound {
        ShapeFrame(n1, n2, rank, kids[0]);
      }
      ShapeKidsFrame(n1, n2, rank, kids[1..], bound);
    }
  }

  /** A change of shape-less entries keeps the tree well formed, with the same pages in the same order. */
  lemma ShapeKeepsTree(n1: map<NodeId, Node>, n2: map<NodeId, Node>, parent: map<NodeId, NodeId>, count: map<NodeId, int>,
                       rank: map<NodeId, nat>, root: NodeId)
    requires SameShape(n1, n2) && WellFormed(n1, parent, count, rank, root)
    ensures WellFormed(n2, parent, count, rank, root)
    ensures Leaves(n2, rank, root) == Leaves(n1, rank, root) && Nodes(n2, rank, root) == Nodes(n1, rank, root)
  {
    assert forall m :: m in n1 ==> GetKids(n2, m) == GetKids(n1, m);
    ShapeFrame(n1, n2, rank, root);
    forall m | m in Nodes(n2, rank, root) && m in n2 && IsPageTreeNode(n2[m])
      ensures m in count && count[m] == |Leaves(n2, rank, m)|
    {
      ShapeFrame(n1, n2, rank, m);
    }
  }

  lemma ShapeKeepsRanked(n1: map<NodeId, Node>, n2: map<NodeId, Node>, parent: map<NodeId, NodeId>, rank: map<NodeId, nat>)
    requires SameShape(n1, n2) && Ranked(n1, parent, rank)
    ensures Ranked(n2, parent, rank)
  {
    assert forall m :: m in n1 ==> GetKids(n2, m) == GetKids(n1, m);
  }

  /** sanitizeType: setting a page's /Type to /Page changes only entries the traversals ignore. */
  lemma SanitizeKeepsShape(nodes: map<NodeId, Node>, x: NodeId)
    requires x in nodes && !IsPageTreeNode(nodes[x])
    ensures SameShape(nodes, nodes[x := nodes[x].(typ := Some(PAGE))])
  {
  }

  /* The repairing constructor */

  /** No dictionary, /Kids array, /Parent or /Count entry refers to id: a dictionary not yet created. */
  ghost predicate Unreferenced(nodes: map<NodeId, Node>, parent: map<NodeId, NodeId>, count: map<NodeId, int>, id: NodeId) {
    && id !in nodes && id !in parent && id !in count
    && (forall n :: n in parent ==> parent[n] != id)
    && (forall n :: n in nodes && nodes[n].kids.Some? && nodes[n].kids.value.KidsArray? ==> Ref(id) !in nodes[n].kids.value.items)
  }

  /**
   * The constructor's repair of a /Page given as the root, as the
   * constructor writes it: a new dictionary id with /Kids [page] and /Count
   * 1 becomes the root, and then the /Type of the page itself, not of the
   * new root, is set to /Pages.
   */
  function RepairAsWritten(nodes: map<NodeId, Node>, page: NodeId, id: NodeId): map<NodeId, Node>
    requires page in nodes
  {
    nodes[id := Node(None, Some(KidsArray([Ref(page)])), map[])][page := nodes[page].(typ := Some(PAGES))]
  }

  /** The repair as intended: the new root is the dictionary typed /Pages, and the page is left as it was. */
  function Repair(nodes: map<NodeId, Node>, page: NodeId, id: NodeId): map<NodeId, Node> {
    nodes[id := Node(Some(PAGES), Some(KidsArray([Ref(page)])), map[])]
  }

  /**
   * As written, the repaired tree reports one page (its /Count) and has
   * none: the page, now typed /Pages, is an intermediate node without kids.
   */
  lemma RepairAsWrittenLosesPage(nodes: map<NodeId, Node>, count: map<NodeId, int>, rank: map<NodeId, nat>, page: NodeId, id: NodeId)
    requires page in nodes && nodes[page].kids.None? && id != page
    ensures var n2 := RepairAsWritten(nodes, page, id);
            var rank2 := rank[page := 1][id := 2];
            && Leaves(n2, rank2, id) == []
            && Nodes(n2, rank2, id) == [id, page]
            && !CountsAgree(n2, count[id := 1], rank2, id)
  {
    var n2 := RepairAsWritten(nodes, page, id);
    var rank2 := rank[page := 1][id := 2];
    assert GetKids(n2, id) == [page] by {
      assert KidIds(n2.Keys, [Ref(page)][1..]) == [];
    }
    assert GetKids(n2, page) == [];
    assert Leaves(n2, rank2, page) == [];
    assert Nodes(n2, rank2, page) == [page];
    assert [page][1..] == [];
    assert LeavesOfKids(n2, rank2, [page], 2) == Leaves(n2, rank2, page) + LeavesOfKids(n2, rank2, [], 2);
    assert NodesOfKids(n2, rank2, [page], 2) == Nodes(n2, rank2, page) + NodesOfKids(n2, rank2, [], 2);
  }

  /**
   * As intended, the repaired tree holds exactly the page, its /Count of 1
   * is right, and no /Kids or /Parent reference forms a cycle.
   */
  lemma RepairKeepsPage(nodes: map<NodeId, Node>, parent: map<NodeId, NodeId>, count: map<NodeId, int>, rank: map<NodeId, nat>,
                        page: NodeId, id: NodeId)
    requires Ranked(nodes, parent, rank) && page in nodes && !IsPageTreeNode(nodes[page])
    requires Unreferenced(nodes, parent, count, id)
    ensures var n2 := Repair(nodes, page, id);
            var rank2 := rank[id := 1];
            && Ranked(n2, parent, rank2)
            && Leaves(n2, rank2, id) == [page]
            && Nodes(n2, rank2, id) == [id, page]
            && CountsAgree(n2, count[id := 1], rank2, id)
  {
    var n2 := Repair(nodes, page, id);
    var rank2 := rank[id := 1];
    RepairRanked(nodes, parent, count, rank, page, id);
    assert rank[page] == 0;
    assert GetKids(n2, id) == [page] by {
      assert KidIds(n2.Keys, [Ref(page)][1..]) == [];
    }
    assert Leaves(n2, rank2, page) == [page];
    assert Nodes(n2, rank2, page) == [page];
    assert [page][1..] == [];
    assert LeavesOfKids(n2, rank2, [page], 1) == Leaves(n2, rank2, page) + LeavesOfKids(n2, rank2, [], 1);
    assert NodesOfKids(n2, rank2, [page], 1) == Nodes(n2, rank2, page) + NodesOfKids(n2, rank2, [], 1);
  }

  /** The repaired store ranks the new root just above the dictionary it wraps. */
  lemma RepairRanked(nodes: map<NodeId, Node>, parent: map<NodeId, NodeId>, count: map<NodeId, int>, rank: map<NodeId, nat>,
                     page: NodeId, id: NodeId)
    requires Ranked(nodes, parent, rank) && page in nodes
    requires Unreferenced(nodes, parent, count, id)
    ensures Ranked(Repair(nodes, page, id), parent, rank[id := rank[page] + 1])
  {
    var n2 := Repair(nodes, page, id);
    var rank2 := rank[id := rank[page] + 1];
    assert GetKids(n2, id) == [page] by {
      assert KidIds(n2.Keys, [Ref(page)][1..]) == [];
    }
    forall n, j | n in n2 && 0 <= j < |GetKids(n2, n)| ensures RankOf(rank2, GetKids(n2, n)[j]) < rank2[n] {
      if n != id {
        FreshKids(nodes, id, Node(Some(PAGES), Some(KidsArray([Ref(page)])), map[]), n);
        assert GetKids(n2, n)[j] != id;
      }
    }
    forall n | n in n2.Keys && Parent(n2.Keys, parent, n).Some?
      ensures rank2[n] < rank2[Parent(n2.Keys, parent, n).value]
    {
      assert Parent(n2.Keys, parent, n) == Parent(nodes.Keys, parent, n);
    }
  }

  /**
   * Setting a dictionary's /Type to /Pages keeps the store acyclic: a page
   * so retyped becomes an intermediate node without kids, ranked between
   * the pages and the intermediate nodes once those ranks are doubled.
   */
  lemma RetypeRanked(nodes: map<NodeId, Node>, parent: map<NodeId, NodeId>, rank: map<NodeId, nat>, r: NodeId)
    returns (rank2: map<NodeId, nat>)
    requires Ranked(nodes, parent, rank) && r in nodes
    ensures Ranked(nodes[r := nodes[r].(typ := Some(PAGES))], parent, rank2)
    ensures IsPageTreeNode(nodes[r]) ==> rank2 == rank && SameShape(nodes, nodes[r := nodes[r].(typ := Some(PAGES))])
  {
    var n2 := nodes[r := nodes[r].(typ := Some(PAGES))];
    if IsPageTreeNode(nodes[r]) {
      rank2 := rank;
      ShapeKeepsRanked(nodes, n2, parent, rank);
    } else {
      rank2 := map n | n in rank :: if n == r then 1 else 2 * rank[n];
      RetypeKidsRanked(nodes, rank, r, rank2);
      RetypeParentsRanked(nodes, parent, rank, r, rank2);
    }
  }

  lemma RetypeKidsRanked(nodes: map<NodeId, Node>, rank: map<NodeId, nat>, r: NodeId, rank2: map<NodeId, nat>)
    requires KidsRanked(nodes, rank) && r in nodes && !IsPageTreeNode(nodes[r])
    requires rank2 == map n | n in rank :: if n == r then 1 else 2 * rank[n]
    ensures KidsRanked(nodes[r := nodes[r].(typ := Some(PAGES))], rank2)
  {
    var n2 := nodes[r := nodes[r].(typ := Some(PAGES))];
    assert n2.Keys == nodes.Keys && n2[r].kids.None? && GetKids(n2, r) == [];
    forall n, j | n in n2 && 0 <= j < |GetKids(n2, n)| ensures RankOf(rank2, GetKids(n2, n)[j]) < rank2[n] {
      assert n2[n] == nodes[n] && GetKids(n2, n) == GetKids(nodes, n);
      assert RankOf(rank, GetKids(nodes, n)[j]) < rank[n];
    }
  }

  lemma RetypeParentsRanked(nodes: map<NodeId, Node>, parent: map<NodeId, NodeId>, rank: map<NodeId, nat>, r: NodeId,
                            rank2: map<NodeId, nat>)
    requires ParentsRanked(nodes.Keys, parent, rank) && r in nodes && rank[r] == 0
    requires rank2 == map n | n in rank :: if n == r then 1 else 2 * rank[n]
    ensures ParentsRanked(nodes.Keys, parent, rank2)
  {
    forall n | n in nodes.Keys && Parent(nodes.Keys, parent, n).Some?
      ensures rank2[n] < rank2[Parent(nodes.Keys, parent, n).value]
    {
      assert rank[n] < rank[Parent(nodes.Keys, parent, n).value];
    }
  }

  /** Adding an unreferenced dictionary to the store leaves the kids of the other dictionaries unchanged. */
  lemma FreshKids(nodes: map<NodeId, Node>, id: NodeId, node: Node, n: NodeId)
    requires id !in nodes && n in nodes
    requires forall m :: m in nodes && nodes[m].kids.Some? && nodes[m].kids.value.KidsArray? ==> Ref(id) !in nodes[m].kids.value.items
    ensures GetKids(nodes[id := node], n) == GetKids(nodes, n)
  {
    var n2 := nodes[id := node];
    assert n2[n] == nodes[n];
    match nodes[n].kids
    case Some(KidsArray(items)) =>
      KidIdsWithout(nodes.Keys, id, items);
      assert n2.Keys == nodes.Keys + {id};
    case _ =>
  }

  lemma {:induction false} KidIdsWithout(keys: set<NodeId>, id: NodeId, items: seq<Entry>)
    requires Ref(id) !in items
    ensures KidIds(keys + {id}, items) == KidIds(keys, items)
    decreases |items|
  {
    if items != [] {
      assert items[0] != Ref(id);
      assert Ref(id) !in items[1..];
      KidIdsWithout(keys, id, items[1..]);
    }
  }

  /** The tree of the constructor for embedding: a fresh root typed /Pages with no kids and a /Count of 0. */
  function EmptyRoot(): Node {
    Node(Some(PAGES), Some(KidsArray([])), map[])
  }

  /** The tree made for embedding is well formed and has no page. */
  lemma EmptyTreeWellFormed(nodes: map<NodeId, Node>, parent: map<NodeId, NodeId>, count: map<NodeId, int>, rank: map<NodeId, nat>,
                            id: NodeId)
    requires Ranked(nodes, parent, rank) && Unreferenced(nodes, parent, count, id)
    ensures WellFormed(nodes[id := EmptyRoot()], parent, count[id := 0], rank[id := 1], id)
    ensures Leaves(nodes[id := EmptyRoot()], rank[id := 1], id) == []
  {
    var n2 := nodes[id := EmptyRoot()];
    var rank2 := rank[id := 1];
    assert GetKids(n2, id) == [];
    forall n, j | n in n2 && 0 <= j < |GetKids(n2, n)| ensures RankOf(rank2, GetKids(n2, n)[j]) < rank2[n] {
      FreshKids(nodes, id, EmptyRoot(), n);
      assert GetKids(n2, n)[j] != id;
    }
    forall n | n in n2.Keys && Parent(n2.Keys, parent, n).Some?
      ensures rank2[n] < rank2[Parent(n2.Keys, parent, n).value]
    {
      assert Parent(n2.Keys, parent, n) == Parent(nodes.Keys, parent, n);
    }
    assert Nodes(n2, rank2, id) == [id];
    assert Leaves(n2, rank2, id) == [];
    assert CountsAgree(n2, count[id := 0], rank2, id) by {
      forall m | m in Nodes(n2, rank2, id) && m in n2 && IsPageTreeNode(n2[m])
        ensures m in count[id := 0] && count[id := 0][m] == |Leaves(n2, rank2, m)|
      {
        assert m == id;
      }
    }
  }

  /* Edits of a store that need not hold a well-formed tree */

  /**
   * Splicing a reference to page q into the /Kids array of p, at index i,
   * and setting q's /Parent to p keeps the references acyclic.
   */
  lemma SpliceRanked(nodes: map<NodeId, Node>, parent: map<NodeId, NodeId>, rank: map<NodeId, nat>,
                     p: NodeId, items: seq<Entry>, i: nat, q: NodeId)
    requires Ranked(nodes, parent, rank) && p in nodes && nodes[p].kids == Some(KidsArray(items)) && i <= |items|
    requires q in nodes && !IsPageTreeNode(nodes[q])
    ensures Ranked(SetKids(nodes, p, items[..i] + [Ref(q)] + items[i..]), parent[q := p], rank)
  {
    var keys := nodes.Keys;
    assert items == items[..i] + items[i..];
    KidIdsAppend(keys, items[..i], items[i..]);
    KidIdsSplice(keys, items[..i], q, items[i..]);
    RankedAfterInsert(nodes, SetKids(nodes, p, items[..i] + [Ref(q)] + items[i..]), parent, parent[q := p], rank,
                      p, KidIds(keys, items[..i]), KidIds(keys, items[i..]), q);
  }

  /** Dropping the reference to q at index i of the /Kids array of p keeps the references acyclic. */
  lemma DropRanked(nodes: map<NodeId, Node>, parent: map<NodeId, NodeId>, rank: map<NodeId, nat>,
                   p: NodeId, items: seq<Entry>, i: nat, q: NodeId)
    requires Ranked(nodes, parent, rank) && p in nodes && nodes[p].kids == Some(KidsArray(items))
    requires i < |items| && items[i] == Ref(q) && q in nodes
    ensures Ranked(SetKids(nodes, p, items[..i] + items[i + 1..]), parent, rank)
  {
    var keys := nodes.Keys;
    SplitAt(items, i);
    KidIdsSplice(keys, items[..i], q, items[i + 1..]);
    KidIdsAppend(keys, items[..i], items[i + 1..]);
    RankedAfterRemove(nodes, SetKids(nodes, p, items[..i] + items[i + 1..]), parent, rank,
                      p, KidIds(keys, items[..i]), KidIds(keys, items[i + 1..]), q);
  }

  /**
   * Setting the /Parent of page q to the intermediate node x keeps the
   * /Parent references acyclic and leaves the chain of every intermediate
   * node p as it was: a page is never the /Parent of anything.
   */
  lemma ReparentPage(nodes: map<NodeId, Node>, parent: map<NodeId, NodeId>, rank: map<NodeId, nat>,
                     q: NodeId, x: NodeId, p: NodeId)
    requires Ranked(nodes, parent, rank) && q in nodes && !IsPageTreeNode(nodes[q])
    requires x in nodes && IsPageTreeNode(nodes[x]) && p in nodes && IsPageTreeNode(nodes[p])
    ensures ParentsRanked(nodes.Keys, parent[q := x], rank)
    ensures Chain(nodes.Keys, parent[q := x], rank, p) == Chain(nodes.Keys, parent, rank, p)
    ensures Ancestors(nodes.Keys, parent[q := x], rank, p) == Ancestors(nodes.Keys, parent, rank, p)
  {
    assert q !in Chain(nodes.Keys, parent, rank, p);
    ChainFrame(nodes.Keys, parent, parent[q := x], rank, p, q, x);
  }
}
