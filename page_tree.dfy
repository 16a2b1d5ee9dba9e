/**
 * PDPageTree: the page tree of a document, read and edited in place in the
 * dictionaries of the document, and its two iterators.
 */
module PageTree {
  import opened Cos
  import opened PageTreeSpec
  import opened PageTreeEdits
  import opened PageTreeSearch

  /**
   * The dictionaries of a document, read and updated in place: their /Type,
   * /Kids and other entries, their /Parent and their /Count. The ghost rank
   * witnesses that the /Kids and /Parent references form no cycle.
   */
  class Store {
    var nodes: map<NodeId, Node>
    var parent: map<NodeId, NodeId>
    var count: map<NodeId, int>
    ghost var rank: map<NodeId, nat>

    ghost predicate Valid()
      reads this
    {
      Ranked(nodes, parent, rank)
    }

    constructor (nodes: map<NodeId, Node>, parent: map<NodeId, NodeId>, count: map<NodeId, int>, ghost rank: map<NodeId, nat>)
      requires Ranked(nodes, parent, rank)
      ensures Valid()
      ensures this.nodes == nodes && this.parent == parent && this.count == count && this.rank == rank
    {
      this.nodes := nodes;
      this.parent := parent;
      this.count := count;
      this.rank := rank;
    }

    /** sanitizeType: a page whose /Type is missing or is not /Page gets /Type /Page; nothing else changes. */
    method SanitizeType(n: NodeId)
      requires Valid() && n in nodes && !IsPageTreeNode(nodes[n])
      modifies this
      ensures Valid() && SameShape(old(nodes), nodes)
      ensures nodes == old(nodes)[n := old(nodes)[n].(typ := Some(PAGE))]
      ensures parent == old(parent) && count == old(count) && rank == old(rank)
    {
      if nodes[n].typ.None? {
        nodes := nodes[n := nodes[n].(typ := Some(PAGE))];
      }
      if nodes[n].typ != Some(PAGE) {
        nodes := nodes[n := nodes[n].(typ := Some(PAGE))];
      }
      SanitizeKeepsShape(old(nodes), n);
      ShapeKeepsRanked(old(nodes), nodes, parent, rank);
    }

    /**
     * The do-while loops of add, remove and increaseParents: from node up
     * the /Parent chain, the /Count of each node, read as -1 when missing,
     * is increased by delta.
     */
    method BumpChain(from: Option<NodeId>, delta: int)
      requires Valid() && (from.Some? ==> from.value in nodes)
      modifies this
      ensures Valid() && nodes == old(nodes) && parent == old(parent) && rank == old(rank)
      ensures from.None? ==> count == old(count)
      ensures from.Some? ==> count == BumpCounts(old(count), Ancestors(nodes.Keys, parent, rank, from.value), delta)
    {
      if from.None? {
        return;
      }
      ghost var keys := nodes.Keys;
      ghost var done: set<NodeId> := {};
      var node := from;
      while node.Some?
        invariant nodes == old(nodes) && parent == old(parent) && rank == old(rank)
        invariant keys == nodes.Keys && ParentsRanked(keys, parent, rank)
        invariant node.Some? ==> node.value in keys && ChainRest(keys, parent, rank, from.value, done, node.value)
        invariant node.None? ==> Ancestors(keys, parent, rank, from.value) == done
        invariant count == BumpCounts(old(count), done, delta)
        decreases node.Some?, if node.Some? then Above(keys, rank, node.value) else {}
      {
        var n := node.value;
        BumpStep(keys, parent, rank, old(count), delta, from.value, done, n);
        count := count[n := CountOr(count, n, -1) + delta];
        node := Parent(nodes.Keys, parent, n);
        done := done + {n};
      }
    }

    /**
     * kids.add(i, q) on p's /Kids array, then q's /Parent set to p and the
     * /Count of p and of each node up its /Parent chain increased by one.
     */
    method InsertKid(p: NodeId, items: seq<Entry>, i: nat, q: NodeId)
      requires Valid() && p in nodes && IsPageTreeNode(nodes[p]) && nodes[p].kids == Some(KidsArray(items)) && i <= |items|
      requires q in nodes && !IsPageTreeNode(nodes[q])
      modifies this
      ensures Valid() && rank == old(rank)
      ensures nodes == SetKids(old(nodes), p, items[..i] + [Ref(q)] + items[i..]) && parent == old(parent)[q := p]
      ensures count == BumpCounts(old(count), Ancestors(old(nodes).Keys, old(parent), rank, p), 1)
    {
      ReparentPage(nodes, parent, rank, q, p, p);
      SpliceRanked(nodes, parent, rank, p, items, i, q);
      nodes := SetKids(nodes, p, items[..i] + [Ref(q)] + items[i..]);
      parent := parent[q := p];
      BumpChain(Some(p), 1);
    }

    /**
     * kids.removeObject(q) on p's /Kids array, whose i-th entry is the first
     * reference to q, then the /Count of p and of each node up its /Parent
     * chain decreased by one.
     */
    method DropKid(p: NodeId, items: seq<Entry>, i: nat, q: NodeId)
      requires Valid() && p in nodes && nodes[p].kids == Some(KidsArray(items)) && i < |items| && items[i] == Ref(q) && q in nodes
      modifies this
      ensures Valid() && rank == old(rank) && parent == old(parent)
      ensures nodes == SetKids(old(nodes), p, items[..i] + items[i + 1..])
      ensures count == BumpCounts(old(count), Ancestors(old(nodes).Keys, parent, rank, p), -1)
    {
      DropRanked(nodes, parent, rank, p, items, i, q);
      nodes := SetKids(nodes, p, items[..i] + items[i + 1..]);
      BumpChain(Some(p), -1);
    }
  }

  class PDPageTree {
    const store: Store
    const root: NodeId

    ghost predicate Valid()
      reads this, store
    {
      store.Valid() && root in store.nodes && IsPageTreeNode(store.nodes[root])
    }

    ghost predicate WellFormedTree()
      reads this, store
    {
      WellFormed(store.nodes, store.parent, store.count, store.rank, root)
    }

    /** The pages of the tree, in order. */
    ghost function Pages(): seq<NodeId>
      reads this, store
    {
      Leaves(store.nodes, store.rank, root)
    }

    /** The nodes of the tree, in pre-order. */
    ghost function AllNodes(): seq<NodeId>
      reads this, store
    {
      Nodes(store.nodes, store.rank, root)
    }

    /** The constructor for embedding: a new root typed /Pages, with an empty /Kids array and a /Count of 0. */
    constructor Empty(store: Store, id: NodeId)
      requires store.Valid() && Unreferenced(store.nodes, store.parent, store.count, id)
      modifies store
      ensures this.store == store && root == id && Valid() && WellFormedTree() && Pages() == []
      ensures store.nodes == old(store.nodes)[id := EmptyRoot()]
      ensures store.parent == old(store.parent) && store.count == old(store.count)[id := 0]
    {
      ghost var n0, p0, c0, r0 := store.nodes, store.parent, store.count, store.rank;
      this.store := store;
      root := id;
      new;
      store.nodes := store.nodes[id := EmptyRoot()];
      store.count := store.count[id := 0];
      store.rank := store.rank[id := 1];
      EmptyTreeWellFormed(n0, p0, c0, r0, id);
    }

    /**
     * The constructor for reading. A root typed /Page is wrapped in a new
     * root dictionary typed /Pages, with /Kids [root] and /Count 1;
     * otherwise the root's /Type is set to /Pages.
     */
    constructor Open(store: Store, r: NodeId, id: NodeId)
      requires store.Valid() && r in store.nodes && Unreferenced(store.nodes, store.parent, store.count, id)
      modifies store
      ensures this.store == store && Valid() && store.parent == old(store.parent)
      ensures old(store.nodes[r].typ) == Some(PAGE) ==>
                && root == id && store.nodes == Repair(old(store.nodes), r, id) && store.count == old(store.count)[id := 1]
      ensures old(store.nodes[r].typ) != Some(PAGE) ==>
                && root == r && store.nodes == old(store.nodes)[r := old(store.nodes[r]).(typ := Some(PAGES))]
                && store.count == old(store.count)
      ensures old(store.nodes[r].typ) == Some(PAGE) && old(!IsPageTreeNode(store.nodes[r])) ==>
                && Pages() == [r] && CountsAgree(store.nodes, store.count, store.rank, root)
      ensures old(store.nodes[r].typ) != Some(PAGE) && old(WellFormed(store.nodes, store.parent, store.count, store.rank, r)) ==>
                WellFormedTree() && Pages() == old(Leaves(store.nodes, store.rank, r))
    {
      ghost var n0, p0, c0, r0 := store.nodes, store.parent, store.count, store.rank;
      this.store := store;
      root := if store.nodes[r].typ == Some(PAGE) then id else r;
      new;
      if store.nodes[r].typ == Some(PAGE) {
        ghost var rank2 := WrapOpened(n0, p0, c0, r0, r, id);
        store.nodes := Repair(store.nodes, r, id);
        store.count := store.count[id := 1];
        store.rank := rank2;
      } else {
        ghost var rank2 := RetypeOpened(n0, p0, c0, r0, r);
        store.nodes := store.nodes[r := store.nodes[r].(typ := Some(PAGES))];
        store.rank := rank2;
      }
    }

    /** getCount: the root's /Count, 0 when missing; in a well-formed tree, the number of pages. */
    function GetCount(): (c: int)
      requires Valid()
      reads this, store
      ensures WellFormedTree() ==> c == |Pages()|
    {
      assert root in Nodes(store.nodes, store.rank, root);
      CountOf(store.count, root)
    }

    /**
     * get: the page numbered index + 1 (a Java int sum) found by the private
     * get from the root, whose /Type sanitizeType then sets to /Page.
     */
    method Get(index: int) returns (r: Result<NodeId>)
      requires Valid() && INT_MIN <= index <= INT_MAX
      modifies store
      ensures Valid() && store.parent == old(store.parent) && store.count == old(store.count) && store.rank == old(store.rank)
      ensures r == Located(old(store.nodes), store.count, store.rank, WrapToInt(index + 1), root, 0)
      ensures r.Ok? ==> r.value in old(Pages()) && r.value in old(store.nodes) && store.nodes == old(store.nodes)[r.value := old(store.nodes)[r.value].(typ := Some(PAGE))]
      ensures r.Err? ==> r.error == PageNotFound && store.nodes == old(store.nodes)
      ensures Pages() == old(Pages()) && (old(WellFormedTree()) ==> WellFormedTree())
      ensures old(WellFormedTree()) && |old(Pages())| <= INT_MAX ==>
                && (r.Ok? <==> 0 <= index < |old(Pages())|)
                && (r.Ok? ==> r.value == old(Pages())[index])
    {
      ghost var n0 := store.nodes;
      ghost var wf := WellFormedTree();
      var pageNum := WrapToInt(index + 1);
      r := Locate(store.nodes, store.count, store.rank, pageNum, root, 0);
      LocatedFound(n0, store.count, store.rank, pageNum, root, 0);
      if wf && |Pages()| <= INT_MAX {
        GetCorrect(n0, store.count, store.rank, root, index);
      }
      if r.Ok? {
        LeavesArePages(n0, store.rank, root);
        store.SanitizeType(r.value);
        ShapeFrame(n0, store.nodes, store.rank, root);
        if wf {
          ShapeKeepsTree(n0, store.nodes, store.parent, store.count, store.rank, root);
        }
      }
    }

    /**
     * indexOf: the index of the first occurrence of page in the page order,
     * or -1 when it is not a page of the tree.
     */
    method IndexOfPage(page: NodeId) returns (i: int)
      requires Valid()
      ensures page in Pages() ==> i == IndexOf(Pages(), page)
      ensures page !in Pages() ==> i == -1
    {
      var context := new SearchContext(page);
      var found := FindPage(context, root);
      VisitFinds(page, -1, Pages());
      if found {
        return context.index;
      }
      return -1;
    }

    /**
     * findPage: visits the pages below node's kids in order, descending
     * into intermediate kids, until the search has found its page.
     */
    method FindPage(context: SearchContext, node: NodeId) returns (found: bool)
      requires Valid() && node in store.nodes
      modifies context
      ensures (context.index, context.found)
           == Visit(context.searched, old(context.index), old(context.found),
                    LeavesOfKids(store.nodes, store.rank, GetKids(store.nodes, node), RankOf(store.rank, node)))
      ensures found == context.found
      decreases RankOf(store.rank, node)
    {
      var nodes := store.nodes;
      ghost var rank, sought, i0, f0 := store.rank, context.searched, context.index, context.found;
      var kids := GetKids(nodes, node);
      ghost var b := RankOf(rank, node);
      KidsOfRanked(nodes, rank, node);
      var i := 0;
      while i < |kids|
        invariant 0 <= i <= |kids| && context.searched == sought
        invariant (context.index, context.found) == Visit(sought, i0, f0, LeavesOfKids(nodes, rank, kids[..i], b))
      {
        if context.found {
          break;
        }
        var kid := kids[i];
        ghost var mid := (context.index, context.found);
        if IsPageTreeNode(nodes[kid]) {
          found := FindPage(context, kid);
          assert (context.index, context.found) == Visit(sought, mid.0, mid.1, LeavesOfKids(nodes, rank, GetKids(nodes, kid), RankOf(rank, kid)));
        } else {
          context.VisitPage(kid);
        }
        FindStep(nodes, rank, sought, i0, f0, kids, i, b, mid, (context.index, context.found));
        i := i + 1;
      }
      FindRest(nodes, rank, sought, i0, f0, kids, i, b, (context.index, context.found));
      found := context.found;
    }

    /**
     * add: the page's /Parent becomes the root, the page goes at the end of
     * the root's /Kids array, and the /Count of the root and of each node up
     * its /Parent chain grows by one. A root whose /Kids is not an array
     * fails with a NullPointerException, after the /Parent was set.
     */
    method Add(page: NodeId) returns (r: Result<()>)
      requires Valid() && page in store.nodes && !IsPageTreeNode(store.nodes[page])
      modifies store
      ensures Valid() && store.parent == old(store.parent)[page := root] && store.rank == old(store.rank)
      ensures r.Ok? <==> KidsArrayOf(old(store.nodes[root])).Some?
      ensures r.Ok? ==>
                && store.nodes == SetKids(old(store.nodes), root, KidsArrayOf(old(store.nodes[root])).value + [Ref(page)])
                && store.count == BumpCounts(old(store.count), Ancestors(old(store.nodes.Keys), old(store.parent), store.rank, root), 1)
      ensures r.Err? ==> r.error == NullPointer && store.nodes == old(store.nodes) && store.count == old(store.count)
      ensures r.Ok? && old(WellFormedTree()) && page !in old(AllNodes()) ==>
                WellFormedTree() && Pages() == old(Pages()) + [page]
    {
      ghost var n0, p0, c0, rank := store.nodes, store.parent, store.count, store.rank;
      ghost var wf := WellFormedTree() && page !in AllNodes();
      ReparentPage(n0, p0, rank, page, root, root);
      store.parent := store.parent[page := root];
      var kids := KidsArrayOf(store.nodes[root]);
      if kids.None? {
        return Err(NullPointer);
      }
      AppendAsSplice(kids.value, Ref(page));
      SpliceRanked(n0, p0, rank, root, kids.value, |kids.value|, page);
      if wf {
        AppendKid(n0, p0, c0, rank, root, kids.value, page);
      }
      store.nodes := SetKids(store.nodes, root, kids.value + [Ref(page)]);
      store.BumpChain(Parent(store.nodes.Keys, store.parent, page), 1);
      r := Ok(());
    }

    /**
     * remove(int): the page numbered index + 1 found by the private get is
     * removed from its /Parent's /Kids; a page that is not found fails with a
     * PageNotFoundException and nothing changes.
     */
    method RemoveAt(index: int) returns (r: Result<()>)
      requires Valid() && INT_MIN <= index <= INT_MAX
      requires var l := Located(store.nodes, store.count, store.rank, WrapToInt(index + 1), root, 0);
               l.Ok? ==> Parent(store.nodes.Keys, store.parent, l.value).Some?
      modifies store
      ensures Valid() && store.parent == old(store.parent) && store.rank == old(store.rank)
      ensures var l := old(Located(store.nodes, store.count, store.rank, WrapToInt(index + 1), root, 0));
              && (l.Err? ==> r == Err(PageNotFound) && store.nodes == old(store.nodes) && store.count == old(store.count))
              && (l.Ok? ==> RemovedFromParent(old(store.nodes), store.parent, old(store.count), store.rank, l.value,
                                              Parent(old(store.nodes).Keys, store.parent, l.value).value, r, store.nodes, store.count))
      ensures old(WellFormedTree()) && |old(Pages())| <= INT_MAX ==>
                && (r.Ok? <==> 0 <= index < |old(Pages())|)
                && (r.Ok? ==> WellFormedTree() && Pages() == old(Pages())[..index] + old(Pages())[index + 1..])
    {
      ghost var n0, c0 := store.nodes, store.count;
      var node := Locate(store.nodes, store.count, store.rank, WrapToInt(index + 1), root, 0);
      if node.Err? {
        r := Err(PageNotFound);
      } else {
        LocatedFound(store.nodes, store.count, store.rank, WrapToInt(index + 1), root, 0);
        LeavesArePages(store.nodes, store.rank, root);
        r := RemoveNode(node.value);
      }
      if WellFormed(n0, store.parent, c0, store.rank, root) && |Leaves(n0, store.rank, root)| <= INT_MAX {
        RemoveAtCorrect(n0, store.parent, c0, store.rank, root, index, r, store.nodes, store.count);
      }
    }

    /** remove(PDPage): the page is removed from its /Parent's /Kids. */
    method Remove(page: NodeId) returns (r: Result<()>)
      requires Valid() && page in store.nodes && Parent(store.nodes.Keys, store.parent, page).Some?
      modifies store
      ensures Valid() && store.parent == old(store.parent) && store.rank == old(store.rank)
      ensures RemovedFromParent(old(store.nodes), store.parent, old(store.count), store.rank, page,
                                Parent(old(store.nodes).Keys, store.parent, page).value, r, store.nodes, store.count)
      ensures old(WellFormedTree()) && page in old(Pages()) ==>
                && r.Ok? && WellFormedTree()
                && Pages() == old(Pages())[..IndexOf(old(Pages()), page)] + old(Pages())[IndexOf(old(Pages()), page) + 1..]
    {
      ghost var n0, c0 := store.nodes, store.count;
      r := RemoveNode(page);
      RemoveOutcome(n0, store.parent, c0, store.rank, root, page, r, store.nodes, store.count);
    }

    /**
     * The private remove: drops the first reference to node from the /Kids
     * array of its /Parent and, when there was one, takes one from the /Count
     * of that /Parent and of each node up its /Parent chain.
     */
    method RemoveNode(node: NodeId) returns (r: Result<()>)
      requires Valid() && node in store.nodes && Parent(store.nodes.Keys, store.parent, node).Some?
      modifies store
      ensures Valid() && store.parent == old(store.parent) && store.rank == old(store.rank)
      ensures RemovedFromParent(old(store.nodes), store.parent, old(store.count), store.rank, node,
                                Parent(old(store.nodes).Keys, store.parent, node).value, r, store.nodes, store.count)
    {
      var p := Parent(store.nodes.Keys, store.parent, node).value;
      var kids := KidsArrayOf(store.nodes[p]);
      if kids.None? {
        return Err(NullPointer);
      }
      var items := kids.value;
      if Ref(node) !in items {
        return Ok(());
      }
      store.DropKid(p, items, IndexOf(items, Ref(node)), node);
      r := Ok(());
    }

    /**
     * insertBefore: newPage goes into the /Kids array of nextPage's /Parent
     * just before nextPage, and the /Count of that /Parent and of each node
     * up its /Parent chain grows by one.
     */
    method InsertBefore(newPage: NodeId, nextPage: NodeId) returns (r: Result<()>)
      requires Valid() && newPage in store.nodes && !IsPageTreeNode(store.nodes[newPage]) && nextPage in store.nodes
      modifies store
      ensures Valid() && store.rank == old(store.rank)
      ensures InsertedBeside(old(store.nodes), old(store.parent), old(store.count), store.rank, newPage, nextPage, false,
                             r, store.nodes, store.parent, store.count)
      ensures old(WellFormedTree()) && nextPage in old(Pages()) && newPage !in old(AllNodes()) ==>
                && r != Err(IllegalArgument)
                && (r.Ok? ==> WellFormedTree() && Pages() == old(Pages())[..IndexOf(old(Pages()), nextPage)] + [newPage]
                                                              + old(Pages())[IndexOf(old(Pages()), nextPage)..])
    {
      ghost var n0, p0, c0, l0 := store.nodes, store.parent, store.count, Pages();
      ghost var wf := WellFormedTree() && nextPage in Pages() && newPage !in AllNodes();
      r := InsertBeside(newPage, nextPage, false);
      if wf {
        var j := InsertedCorrect(n0, p0, c0, store.rank, root, newPage, nextPage, false, r, store.nodes, store.parent, store.count);
        assert r.Ok? ==> WellFormedTree() && Pages() == l0[..j] + [newPage] + l0[j..];
      }
    }

    /**
     * insertAfter: newPage goes into the /Kids array of prevPage's /Parent
     * just after prevPage, and the /Count of that /Parent and of each node
     * up its /Parent chain grows by one.
     */
    method InsertAfter(newPage: NodeId, prevPage: NodeId) returns (r: Result<()>)
      requires Valid() && newPage in store.nodes && !IsPageTreeNode(store.nodes[newPage]) && prevPage in store.nodes
      modifies store
      ensures Valid() && store.rank == old(store.rank)
      ensures InsertedBeside(old(store.nodes), old(store.parent), old(store.count), store.rank, newPage, prevPage, true,
                             r, store.nodes, store.parent, store.count)
      ensures old(WellFormedTree()) && prevPage in old(Pages()) && newPage !in old(AllNodes()) ==>
                && r != Err(IllegalArgument)
                && (r.Ok? ==> WellFormedTree() && Pages() == old(Pages())[..IndexOf(old(Pages()), prevPage) + 1] + [newPage]
                                                              + old(Pages())[IndexOf(old(Pages()), prevPage) + 1..])
    {
      ghost var n0, p0, c0, l0 := store.nodes, store.parent, store.count, Pages();
      ghost var wf := WellFormedTree() && prevPage in Pages() && newPage !in AllNodes();
      r := InsertBeside(newPage, prevPage, true);
      if wf {
        var j := InsertedCorrect(n0, p0, c0, store.rank, root, newPage, prevPage, true, r, store.nodes, store.parent, store.count);
        assert r.Ok? ==> WellFormedTree() && Pages() == l0[..j] + [newPage] + l0[j..];
      }
    }

    /** The common body of insertBefore (after = false) and insertAfter (after = true). */
    method InsertBeside(newPage: NodeId, page: NodeId, after: bool) returns (r: Result<()>)
      requires Valid() && newPage in store.nodes && !IsPageTreeNode(store.nodes[newPage]) && page in store.nodes
      modifies store
      ensures Valid() && store.rank == old(store.rank)
      ensures InsertedBeside(old(store.nodes), old(store.parent), old(store.count), store.rank, newPage, page, after,
                             r, store.nodes, store.parent, store.count)
    {
      var p := Parent(store.nodes.Keys, store.parent, page);
      if p.None? {
        return Err(NullPointer);
      }
      var kids := KidsArrayOf(store.nodes[p.value]);
      if kids.None? {
        return Err(NullPointer);
      }
      var found := FindKid(store.nodes.Keys, kids.value, page);
      if found.Err? {
        return Err(found.error);
      }
      if found.value.None? {
        return Err(IllegalArgument);
      }
      var i := found.value.value + (if after then 1 else 0);
      store.InsertKid(p.value, kids.value, i, newPage);
      r := Ok(());
    }
  }

  /**
   * The state remove(COSDictionary) leaves when node's /Parent is p: when
   * p's /Kids is an array referring to node, its first reference to node is
   * dropped and the /Count of p and of each node up its /Parent chain drops
   * by one; when it is an array that does not, nothing changes; when it is
   * not an array, the call fails with a NullPointerException and nothing
   * changes.
   */
  ghost predicate RemovedFromParent(n0: map<NodeId, Node>, parent: map<NodeId, NodeId>, c0: map<NodeId, int>,
                                    rank: map<NodeId, nat>, node: NodeId, p: NodeId,
                                    r: Result<()>, n1: map<NodeId, Node>, c1: map<NodeId, int>)
    requires ParentsRanked(n0.Keys, parent, rank) && p in n0
  {
    match KidsArrayOf(n0[p])
    case None => r == Err(NullPointer) && n1 == n0 && c1 == c0
    case Some(items) =>
      && r == Ok(())
      && (Ref(node) in items ==>
            && n1 == SetKids(n0, p, items[..IndexOf(items, Ref(node))] + items[IndexOf(items, Ref(node)) + 1..])
            && c1 == BumpCounts(c0, Ancestors(n0.Keys, parent, rank, p), -1))
      && (Ref(node) !in items ==> n1 == n0 && c1 == c0)
  }

  /**
   * The state insertBefore (after = false) or insertAfter (after = true)
   * leaves: a page without a /Parent, or whose /Parent has no /Kids array,
   * fails with a NullPointerException; the scan of that array may fail; a
   * page the array does not refer to fails with an IllegalArgumentException;
   * all leave everything as it was. Otherwise newPage goes into the array
   * just before or just after the first reference to page, its /Parent
   * becomes page's /Parent, and the /Count of that /Parent and of each node
   * up its chain grows by one.
   */
  ghost predicate InsertedBeside(n0: map<NodeId, Node>, p0: map<NodeId, NodeId>, c0: map<NodeId, int>,
                                 rank: map<NodeId, nat>, newPage: NodeId, page: NodeId, after: bool,
                                 r: Result<()>, n1: map<NodeId, Node>, p1: map<NodeId, NodeId>, c1: map<NodeId, int>)
    requires ParentsRanked(n0.Keys, p0, rank)
  {
    match Parent(n0.Keys, p0, page)
    case None => r == Err(NullPointer) && n1 == n0 && p1 == p0 && c1 == c0
    case Some(p) =>
      match KidsArrayOf(n0[p])
      case None => r == Err(NullPointer) && n1 == n0 && p1 == p0 && c1 == c0
      case Some(items) =>
        match ScanKids(n0.Keys, items, page, 0)
        case Err(e) => r == Err(e) && n1 == n0 && p1 == p0 && c1 == c0
        case Ok(None) => r == Err(IllegalArgument) && n1 == n0 && p1 == p0 && c1 == c0
        case Ok(Some(k)) =>
          var i := k + (if after then 1 else 0);
          && i <= |items|
          && r == Ok(())
          && n1 == SetKids(n0, p, items[..i] + [Ref(newPage)] + items[i..])
          && p1 == p0[newPage := p]
          && c1 == BumpCounts(c0, Ancestors(n0.Keys, p0, rank, p), 1)
  }

  /**
   * get: in a tree of at most 2^31 - 1 pages whose counts are right, the private get
   * finds the page numbered index + 1 exactly when index is the index of a
   * page, and then it is the index-th page.
   */
  lemma GetCorrect(nodes: map<NodeId, Node>, count: map<NodeId, int>, rank: map<NodeId, nat>, root: NodeId, index: int)
    requires root in nodes && IsPageTreeNode(nodes[root]) && CountsAgree(nodes, count, rank, root)
    requires |Leaves(nodes, rank, root)| <= INT_MAX
    requires INT_MIN <= index <= INT_MAX
    ensures var r := Located(nodes, count, rank, WrapToInt(index + 1), root, 0);
            && (r.Ok? <==> 0 <= index < |Leaves(nodes, rank, root)|)
            && (r.Ok? ==> r.value == Leaves(nodes, rank, root)[index])
  {
    if index == INT_MAX {
      assert WrapToInt(index + 1) == INT_MIN;
    } else {
      assert WrapToInt(index + 1) == index + 1;
    }
    LocatedCorrect(nodes, count, rank, WrapToInt(index + 1), root, 0);
  }

  /** remove(int) in a well-formed tree: the page found is the index-th, which first occurs there. */
  lemma RemoveAtFinds(nodes: map<NodeId, Node>, parent: map<NodeId, NodeId>, count: map<NodeId, int>, rank: map<NodeId, nat>,
                      root: NodeId, index: int)
    requires WellFormed(nodes, parent, count, rank, root) && |Leaves(nodes, rank, root)| <= INT_MAX
    requires INT_MIN <= index <= INT_MAX
    ensures var r := Located(nodes, count, rank, WrapToInt(index + 1), root, 0);
            && (r.Ok? <==> 0 <= index < |Leaves(nodes, rank, root)|)
            && (r.Ok? ==> r.value in Leaves(nodes, rank, root) && IndexOf(Leaves(nodes, rank, root), r.value) == index)
  {
    GetCorrect(nodes, count, rank, root, index);
    if 0 <= index < |Leaves(nodes, rank, root)| {
      LeavesNoDup(nodes, rank, root);
      NoDupIndex(Leaves(nodes, rank, root), index);
    }
  }

  /** In a well-formed tree, the scan of a page's /Parent's /Kids never misses the page. */
  lemma InsertFinds(nodes: map<NodeId, Node>, parent: map<NodeId, NodeId>, count: map<NodeId, int>, rank: map<NodeId, nat>,
                    root: NodeId, page: NodeId, p: NodeId, items: seq<Entry>)
    requires WellFormed(nodes, parent, count, rank, root) && page in Leaves(nodes, rank, root)
    requires Parent(nodes.Keys, parent, page) == Some(p) && KidsArrayOf(nodes[p]) == Some(items)
    ensures ScanKids(nodes.Keys, items, page, 0) != Ok(None)
  {
    NextSlot(nodes, parent, count, rank, root, page, p, items);
    ScanKidsCorrect(nodes.Keys, items, page);
  }

  /**
   * insertBefore and insertAfter in a well-formed tree where page is a page
   * and newPage a page dictionary outside the tree: the scan finds page, and
   * when the call succeeds the tree stays well formed, with newPage just
   * before page or just after it.
   */
  lemma InsertedCorrect(n0: map<NodeId, Node>, p0: map<NodeId, NodeId>, c0: map<NodeId, int>, rank: map<NodeId, nat>,
                        root: NodeId, newPage: NodeId, page: NodeId, after: bool,
                        r: Result<()>, n1: map<NodeId, Node>, p1: map<NodeId, NodeId>, c1: map<NodeId, int>)
    returns (j: nat)
    requires WellFormed(n0, p0, c0, rank, root) && page in Leaves(n0, rank, root) && newPage !in Nodes(n0, rank, root)
    requires newPage in n0 && !IsPageTreeNode(n0[newPage]) && page in n0
    requires InsertedBeside(n0, p0, c0, rank, newPage, page, after, r, n1, p1, c1)
    ensures j == IndexOf(Leaves(n0, rank, root), page) + (if after then 1 else 0)
    ensures r != Err(IllegalArgument)
    ensures r.Ok? ==>
              && WellFormed(n1, p1, c1, rank, root)
              && Leaves(n1, rank, root) == Leaves(n0, rank, root)[..j] + [newPage] + Leaves(n0, rank, root)[j..]
  {
    j := IndexOf(Leaves(n0, rank, root), page) + (if after then 1 else 0);
    match Parent(n0.Keys, p0, page)
    case None =>
    case Some(p) =>
      match KidsArrayOf(n0[p])
      case None =>
      case Some(items) =>
        InsertFinds(n0, p0, c0, rank, root, page, p, items);
        if r.Ok? {
          var i := InsertedAt(n0, p0, c0, rank, newPage, page, after, r, n1, p1, c1, p, items);
          var i', j' := InsertNear(n0, p0, c0, rank, root, page, newPage, p, items, after);
        }
  }

  /**
   * remove(int) in a well-formed tree of at most 2^31 - 1 pages: the call
   * succeeds exactly when index is the index of a page, and then the tree
   * stays well formed without that page.
   */
  lemma RemoveAtCorrect(n0: map<NodeId, Node>, parent: map<NodeId, NodeId>, c0: map<NodeId, int>, rank: map<NodeId, nat>,
                        root: NodeId, index: int, r: Result<()>, n1: map<NodeId, Node>, c1: map<NodeId, int>)
    requires WellFormed(n0, parent, c0, rank, root) && |Leaves(n0, rank, root)| <= INT_MAX && INT_MIN <= index <= INT_MAX
    requires var l := Located(n0, c0, rank, WrapToInt(index + 1), root, 0);
             && (l.Err? ==> r == Err(PageNotFound))
             && (l.Ok? ==> && Parent(n0.Keys, parent, l.value).Some? && Parent(n0.Keys, parent, l.value).value in n0
                           && RemovedFromParent(n0, parent, c0, rank, l.value, Parent(n0.Keys, parent, l.value).value, r, n1, c1))
    ensures r.Ok? <==> 0 <= index < |Leaves(n0, rank, root)|
    ensures r.Ok? ==> WellFormed(n1, parent, c1, rank, root)
                      && Leaves(n1, rank, root) == Leaves(n0, rank, root)[..index] + Leaves(n0, rank, root)[index + 1..]
  {
    RemoveAtFinds(n0, parent, c0, rank, root, index);
    var l := Located(n0, c0, rank, WrapToInt(index + 1), root, 0);
    if l.Ok? {
      var j := RemovedCorrect(n0, parent, c0, rank, root, l.value, r, n1, c1);
    }
  }

  /**
   * remove in a well-formed tree, of one of its pages: the call succeeds,
   * the tree stays well formed, and the page is gone from the page order.
   */
  lemma RemovedCorrect(n0: map<NodeId, Node>, parent: map<NodeId, NodeId>, c0: map<NodeId, int>, rank: map<NodeId, nat>,
                       root: NodeId, node: NodeId, r: Result<()>, n1: map<NodeId, Node>, c1: map<NodeId, int>)
    returns (j: nat)
    requires WellFormed(n0, parent, c0, rank, root) && node in Leaves(n0, rank, root)
    requires Parent(n0.Keys, parent, node).Some? && Parent(n0.Keys, parent, node).value in n0
    requires RemovedFromParent(n0, parent, c0, rank, node, Parent(n0.Keys, parent, node).value, r, n1, c1)
    ensures j == IndexOf(Leaves(n0, rank, root), node)
    ensures r.Ok? && WellFormed(n1, parent, c1, rank, root)
    ensures Leaves(n1, rank, root) == Leaves(n0, rank, root)[..j] + Leaves(n0, rank, root)[j + 1..]
  {
    var p := Parent(n0.Keys, parent, node).value;
    PageParent(n0, parent, c0, rank, root, node);
    var items := KidsArrayOf(n0[p]).value;
    var i;
    i, j := RemoveKid(n0, parent, c0, rank, root, node, p, items);
  }

  /** remove(PDPage), stated over the maps before and after the call. */
  lemma RemoveOutcome(n0: map<NodeId, Node>, parent: map<NodeId, NodeId>, c0: map<NodeId, int>, rank: map<NodeId, nat>,
                      root: NodeId, node: NodeId, r: Result<()>, n1: map<NodeId, Node>, c1: map<NodeId, int>)
    requires ParentsRanked(n0.Keys, parent, rank) && Parent(n0.Keys, parent, node).Some?
    requires RemovedFromParent(n0, parent, c0, rank, node, Parent(n0.Keys, parent, node).value, r, n1, c1)
    ensures WellFormed(n0, parent, c0, rank, root) && node in Leaves(n0, rank, root) ==>
              && r.Ok? && WellFormed(n1, parent, c1, rank, root)
              && Leaves(n1, rank, root) == Leaves(n0, rank, root)[..IndexOf(Leaves(n0, rank, root), node)]
                                           + Leaves(n0, rank, root)[IndexOf(Leaves(n0, rank, root), node) + 1..]
  {
    if WellFormed(n0, parent, c0, rank, root) && node in Leaves(n0, rank, root) {
      var j := RemovedCorrect(n0, parent, c0, rank, root, node, r, n1, c1);
    }
  }

  /** The state a successful insertBefore or insertAfter leaves, with the slot of newPage named. */
  lemma InsertedAt(n0: map<NodeId, Node>, p0: map<NodeId, NodeId>, c0: map<NodeId, int>, rank: map<NodeId, nat>,
                   newPage: NodeId, page: NodeId, after: bool,
                   r: Result<()>, n1: map<NodeId, Node>, p1: map<NodeId, NodeId>, c1: map<NodeId, int>,
                   p: NodeId, items: seq<Entry>)
    returns (i: nat)
    requires ParentsRanked(n0.Keys, p0, rank) && page in n0
    requires Parent(n0.Keys, p0, page) == Some(p) && KidsArrayOf(n0[p]) == Some(items)
    requires InsertedBeside(n0, p0, c0, rank, newPage, page, after, r, n1, p1, c1) && r.Ok?
    ensures Ref(page) in items && i == IndexOf(items, Ref(page)) + (if after then 1 else 0) && i <= |items|
    ensures n1 == SetKids(n0, p, items[..i] + [Ref(newPage)] + items[i..]) && p1 == p0[newPage := p]
    ensures c1 == BumpCounts(c0, Ancestors(n0.Keys, p0, rank, p), 1)
  {
    ScanKidsCorrect(n0.Keys, items, page);
    i := ScanKids(n0.Keys, items, page, 0).value.value + (if after then 1 else 0);
  }

  /** In a sequence without duplicates, the element at index i first occurs at i. */
  lemma NoDupIndex<T>(s: seq<T>, i: nat)
    requires NoDup(s) && i < |s|
    ensures IndexOf(s, s[i]) == i
  {
    IndexOfFirst(s, s[i], i);
  }

  /** One turn of findPage's loop, which did not stop: the search has visited the pages below one more kid. */
  lemma FindStep(nodes: map<NodeId, Node>, rank: map<NodeId, nat>, searched: NodeId, i0: int, f0: bool,
                 kids: seq<NodeId>, i: nat, b: nat, mid: (int, bool), after: (int, bool))
    requires KidsBelow(nodes, rank, kids, b) && i < |kids|
    requires mid == Visit(searched, i0, f0, LeavesOfKids(nodes, rank, kids[..i], b)) && !mid.1
    requires IsPageTreeNode(nodes[kids[i]]) ==>
               after == Visit(searched, mid.0, mid.1, LeavesOfKids(nodes, rank, GetKids(nodes, kids[i]), RankOf(rank, kids[i])))
    requires !IsPageTreeNode(nodes[kids[i]]) ==> after == (mid.0 + 1, kids[i] == searched)
    ensures after == Visit(searched, i0, f0, LeavesOfKids(nodes, rank, kids[..i + 1], b))
  {
    var k := kids[i];
    assert kids[..i + 1] == kids[..i] + [k];
    LeavesOfKidsAppend(nodes, rank, kids[..i], [k], b);
    assert [k][1..] == [];
    assert LeavesOfKids(nodes, rank, [k], b) == Leaves(nodes, rank, k);
    VisitAppend(searched, i0, f0, LeavesOfKids(nodes, rank, kids[..i], b), Leaves(nodes, rank, k));
    if !IsPageTreeNode(nodes[k]) {
      assert Leaves(nodes, rank, k) == [k];
      assert [k][1..] == [];
    }
  }

  /** When findPage's loop ends, by exhausting the kids or by finding the page, the search has visited the pages below all of them. */
  lemma FindRest(nodes: map<NodeId, Node>, rank: map<NodeId, nat>, searched: NodeId, i0: int, f0: bool,
                 kids: seq<NodeId>, i: nat, b: nat, cur: (int, bool))
    requires i <= |kids| && cur == Visit(searched, i0, f0, LeavesOfKids(nodes, rank, kids[..i], b))
    requires i == |kids| || cur.1
    ensures cur == Visit(searched, i0, f0, LeavesOfKids(nodes, rank, kids, b))
  {
    assert kids == kids[..i] + kids[i..];
    LeavesOfKidsAppend(nodes, rank, kids[..i], kids[i..], b);
    VisitAppend(searched, i0, f0, LeavesOfKids(nodes, rank, kids[..i], b), LeavesOfKids(nodes, rank, kids[i..], b));
  }

  /**
   * The state of indexOf's search: the page searched for, the index of the
   * last page visited, and whether it was the one.
   */
  class SearchContext {
    const searched: NodeId
    var index: int
    var found: bool

    constructor (searched: NodeId)
      ensures this.searched == searched && index == -1 && !found
    {
      this.searched := searched;
      index := -1;
      found := false;
    }

    /** visitPage: one more page visited; found tells whether it is the one searched for. */
    method VisitPage(current: NodeId)
      modifies this
      ensures index == old(index) + 1 && found == (current == searched)
    {
      index := index + 1;
      found := searched == current;
    }
  }

  /** The repair of a root typed /Page: the store stays ranked, and a root that is a page becomes the only page. */
  lemma WrapOpened(nodes: map<NodeId, Node>, parent: map<NodeId, NodeId>, count: map<NodeId, int>, rank: map<NodeId, nat>,
                   r: NodeId, id: NodeId)
    returns (rank2: map<NodeId, nat>)
    requires Ranked(nodes, parent, rank) && r in nodes && Unreferenced(nodes, parent, count, id)
    ensures Ranked(Repair(nodes, r, id), parent, rank2)
    ensures !IsPageTreeNode(nodes[r]) ==>
              && Leaves(Repair(nodes, r, id), rank2, id) == [r]
              && CountsAgree(Repair(nodes, r, id), count[id := 1], rank2, id)
  {
    rank2 := rank[id := rank[r] + 1];
    RepairRanked(nodes, parent, count, rank, r, id);
    if !IsPageTreeNode(nodes[r]) {
      RepairKeepsPage(nodes, parent, count, rank, r, id);
    }
  }

  /** Setting the root's /Type to /Pages: the store stays ranked, and a well-formed tree keeps its pages. */
  lemma RetypeOpened(nodes: map<NodeId, Node>, parent: map<NodeId, NodeId>, count: map<NodeId, int>, rank: map<NodeId, nat>,
                     r: NodeId)
    returns (rank2: map<NodeId, nat>)
    requires Ranked(nodes, parent, rank) && r in nodes
    ensures Ranked(nodes[r := nodes[r].(typ := Some(PAGES))], parent, rank2)
    ensures WellFormed(nodes, parent, count, rank, r) ==>
              && WellFormed(nodes[r := nodes[r].(typ := Some(PAGES))], parent, count, rank2, r)
              && Leaves(nodes[r := nodes[r].(typ := Some(PAGES))], rank2, r) == Leaves(nodes, rank, r)
  {
    rank2 := RetypeRanked(nodes, parent, rank, r);
    if WellFormed(nodes, parent, count, rank, r) {
      ShapeKeepsTree(nodes, nodes[r := nodes[r].(typ := Some(PAGES))], parent, count, rank, r);
    }
  }
}
