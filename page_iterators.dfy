/**
 * The two iterators of PDPageTree: PageIterator, which walks the pages in
 * order, and NodesIterator, which walks every node of the tree in
 * pre-order. Each fills its queue once, when it is created, by a recursive
 * walk of the /Kids arrays, and then hands the queue out one entry at a
 * time.
 */
module PageIterators {
  import opened Cos
  import opened PageTreeSpec
  import opened PageTreeEdits
  import opened PageTreeSearch
  import opened PageTree

  /** The pages below the first i + 1 kids are those below the first i, then those below kid i. */
  lemma LeavesOfKidsStep(nodes: map<NodeId, Node>, rank: map<NodeId, nat>, kids: seq<NodeId>, i: nat, b: nat)
    requires i < |kids| && RankOf(rank, kids[i]) < b
    ensures LeavesOfKids(nodes, rank, kids[..i + 1], b) == LeavesOfKids(nodes, rank, kids[..i], b) + Leaves(nodes, rank, kids[i])
  {
    assert kids[..i + 1] == kids[..i] + [kids[i]];
    LeavesOfKidsAppend(nodes, rank, kids[..i], [kids[i]], b);
    assert [kids[i]][1..] == [];
  }

  /** The nodes below the first i + 1 kids are those below the first i, then those below kid i. */
  lemma NodesOfKidsStep(nodes: map<NodeId, Node>, rank: map<NodeId, nat>, kids: seq<NodeId>, i: nat, b: nat)
    requires i < |kids| && RankOf(rank, kids[i]) < b
    ensures NodesOfKids(nodes, rank, kids[..i + 1], b) == NodesOfKids(nodes, rank, kids[..i], b) + Nodes(nodes, rank, kids[i])
  {
    assert kids[..i + 1] == kids[..i] + [kids[i]];
    NodesOfKidsAppend(nodes, rank, kids[..i], [kids[i]], b);
    assert [kids[i]][1..] == [];
  }

  /**
   * PageIterator: the queue holds the pages still to be handed out; next
   * polls its head, sets its /Type to /Page and returns it.
   */
  class PageIterator {
    const store: Store
    var queue: seq<NodeId>

    /** Every queued entry is a page of the document. */
    ghost predicate Valid()
      reads this, store
    {
      store.Valid() && forall j :: 0 <= j < |queue| ==> queue[j] in store.nodes && !IsPageTreeNode(store.nodes[queue[j]])
    }

    /** new PageIterator(root): the queue is the page order of the tree. */
    constructor (tree: PDPageTree)
      requires tree.Valid()
      ensures store == tree.store && queue == tree.Pages() && Valid()
    {
      store := tree.store;
      queue := [];
      new;
      EnqueueKids(tree.root);
      LeavesArePages(store.nodes, store.rank, tree.root);
    }

    /** enqueueKids: the pages below node, in order, join the end of the queue. */
    method EnqueueKids(node: NodeId)
      requires KidsRanked(store.nodes, store.rank) && node in store.nodes
      modifies this`queue
      ensures queue == old(queue) + Leaves(store.nodes, store.rank, node)
      decreases RankOf(store.rank, node)
    {
      var nodes := store.nodes;
      ghost var rank, q0 := store.rank, queue;
      if IsPageTreeNode(nodes[node]) {
        var kids := GetKids(nodes, node);
        ghost var b := RankOf(rank, node);
        KidsOfRanked(nodes, rank, node);
        for i := 0 to |kids|
          invariant queue == q0 + LeavesOfKids(nodes, rank, kids[..i], b)
        {
          EnqueueKids(kids[i]);
          LeavesOfKidsStep(nodes, rank, kids, i, b);
        }
        assert kids[..|kids|] == kids;
      } else {
        queue := queue + [node];
      }
    }

    /** hasNext: whether pages remain. */
    function HasNext(): (b: bool)
      reads this
      ensures b <==> |queue| > 0
    {
      queue != []
    }

    /**
     * next: the head of the queue, sanitized to /Type /Page, leaves the
     * queue; on an empty queue, poll yields null and sanitizeType fails
     * with a NullPointerException.
     */
    method Next() returns (r: Result<NodeId>)
      requires Valid()
      modifies this, store
      ensures Valid() && store.parent == old(store.parent) && store.count == old(store.count) && store.rank == old(store.rank)
      ensures old(queue) == [] ==> r == Err(NullPointer) && queue == [] && store.nodes == old(store.nodes)
      ensures old(queue) != [] ==>
                && r == Ok(old(queue)[0]) && queue == old(queue)[1..]
                && store.nodes == old(store.nodes)[r.value := old(store.nodes)[r.value].(typ := Some(PAGE))]
    {
      if queue == [] {
        return Err(NullPointer);
      }
      var next := queue[0];
      queue := queue[1..];
      store.SanitizeType(next);
      r := Ok(next);
    }
  }

  /** NodesIterator: the queue holds the nodes still to be handed out. */
  class NodesIterator {
    const store: Store
    var queue: seq<NodeId>

    /** new NodesIterator(root): the queue is every node of the tree, in pre-order. */
    constructor (tree: PDPageTree)
      requires tree.Valid()
      ensures store == tree.store && queue == tree.AllNodes()
    {
      store := tree.store;
      queue := [];
      new;
      EnqueueKids(tree.root);
    }

    /** enqueueKids: node, then every node below it, join the end of the queue. */
    method EnqueueKids(node: NodeId)
      requires KidsRanked(store.nodes, store.rank) && node in store.nodes
      modifies this`queue
      ensures queue == old(queue) + Nodes(store.nodes, store.rank, node)
      decreases RankOf(store.rank, node)
    {
      var nodes := store.nodes;
      ghost var rank, q0 := store.rank, queue;
      queue := queue + [node];
      if IsPageTreeNode(nodes[node]) {
        var kids := GetKids(nodes, node);
        ghost var b := RankOf(rank, node);
        KidsOfRanked(nodes, rank, node);
        for i := 0 to |kids|
          invariant queue == q0 + [node] + NodesOfKids(nodes, rank, kids[..i], b)
        {
          EnqueueKids(kids[i]);
          NodesOfKidsStep(nodes, rank, kids, i, b);
        }
        assert kids[..|kids|] == kids;
        assert Nodes(nodes, rank, node) == [node] + NodesOfKids(nodes, rank, kids, b);
      } else {
        assert Nodes(nodes, rank, node) == [node];
      }
    }

    /** hasNext: whether nodes remain; the same test as PageIterator.HasNext, since the source has two iterator classes. */
    function HasNext(): (b: bool)
      reads this
      ensures b <==> |queue| > 0
    {
      queue != []
    }

    /** next: poll, which yields null on an empty queue. */
    method Next() returns (r: Option<NodeId>)
      modifies this
      ensures old(queue) == [] ==> r == None && queue == []
      ensures old(queue) != [] ==> r == Some(old(queue)[0]) && queue == old(queue)[1..]
    {
      if queue == [] {
        return None;
      }
      r := Some(queue[0]);
      queue := queue[1..];
    }
  }
}
