/** The batch request's page tree and its flattening into the ordered list of
    URLs the dispatcher renders (`addLinks` and the `urlArray` built from the
    request's `root` and `subpages`). */
module PageTree {

  /** One entry of the tree: a page link and its subpages, in order. */
  datatype PageNode = PageNode(link: string, children: seq<PageNode>)

  /** Number of nodes in a forest. */
  function Count(nodes: seq<PageNode>): nat
    decreases nodes
  {
    if nodes == [] then 0 else 1 + Count(nodes[0].children) + Count(nodes[1..])
  }

  /** `addLinks`: each node's link, immediately followed by the flattened
      links of its children, for each node of the forest in turn. */
  function AddLinks(nodes: seq<PageNode>): (links: seq<string>)
    ensures |links| == Count(nodes)
    ensures nodes != [] ==> links[0] == nodes[0].link
    decreases nodes
  {
    if nodes == [] then []
    else [nodes[0].link] + AddLinks(nodes[0].children) + AddLinks(nodes[1..])
  }

  /** The batch's URL list: the root first, then the flattened subpages. */
  function BatchList(root: string, subpages: seq<PageNode>): (urls: seq<string>)
    ensures |urls| == 1 + Count(subpages)
    ensures urls[0] == root
    ensures urls[1..] == AddLinks(subpages)
  {
    [root] + AddLinks(subpages)
  }

  /** A forest has at least as many nodes as roots, and none only when it
      is empty. */
  lemma {:induction false} CountBounds(nodes: seq<PageNode>)
    ensures Count(nodes) >= |nodes|
    ensures Count(nodes) == 0 <==> nodes == []
  {
    if nodes != [] {
      CountBounds(nodes[1..]);
    }
  }

  lemma {:induction false} CountAppend(a: seq<PageNode>, b: seq<PageNode>)
    ensures Count(a + b) == Count(a) + Count(b)
    decreases a
  {
    if a == [] {
      assert a + b == b;
    } else {
      var ab := a + b;
      assert ab[0] == a[0];
      assert ab[1..] == a[1..] + b;
      assert Count(ab) == 1 + Count(a[0].children) + Count(a[1..] + b);
      CountAppend(a[1..], b);
    }
  }

  /** Flattening distributes over concatenation of forests: siblings are
      flattened one after another, never interleaved. */
  lemma {:induction false} AddLinksAppend(a: seq<PageNode>, b: seq<PageNode>)
    ensures AddLinks(a + b) == AddLinks(a) + AddLinks(b)
    decreases a
  {
    if a == [] {
      assert a + b == b;
    } else {
      assert (a + b)[0] == a[0];
      assert (a + b)[1..] == a[1..] + b;
      AddLinksAppend(a[1..], b);
    }
  }

  /** Pre-order for a single node: its link, then its whole subtree. */
  lemma AddLinksSingle(n: PageNode)
    ensures AddLinks([n]) == [n.link] + AddLinks(n.children)
  {
    assert [n][1..] == [];
  }

  /** Flattening a non-empty forest: the first node's link, then its subtree
      and its later siblings in one pending forest. */
  lemma AddLinksCons(stack: seq<PageNode>)
    requires stack != []
    ensures AddLinks(stack) == [stack[0].link] + AddLinks(stack[0].children + stack[1..])
  {
    AddLinksAppend(stack[0].children, stack[1..]);
  }

  /** Pre-order of a forest, node by node: the flattening of `nodes` is the
      flattening of `nodes[..k]`, then node `k`'s link, then its subtree, then
      the later siblings. */
  lemma PreorderAt(nodes: seq<PageNode>, k: nat)
    requires k < |nodes|
    ensures AddLinks(nodes)
         == AddLinks(nodes[..k]) + ([nodes[k].link] + AddLinks(nodes[k].children + nodes[k + 1..]))
  {
    var tail := nodes[k..];
    assert nodes == nodes[..k] + tail;
    AddLinksAppend(nodes[..k], tail);
    assert tail[0] == nodes[k] && tail[1..] == nodes[k + 1..];
    AddLinksCons(tail);
  }

  /** The same flattening with an explicit stack of pending subtrees instead
      of recursion; it produces exactly the recursive order. */
  method FlattenWithStack(nodes: seq<PageNode>) returns (links: seq<string>)
    ensures links == AddLinks(nodes)
  {
    links := [];
    var stack := nodes;
    while stack != []
      invariant links + AddLinks(stack) == AddLinks(nodes)
      decreases Count(stack)
    {
      var n := stack[0];
      var pending := n.children + stack[1..];
      AddLinksCons(stack);
      CountAppend(n.children, stack[1..]);
      assert links + AddLinks(stack) == (links + [n.link]) + AddLinks(pending);
      links := links + [n.link];
      stack := pending;
    }
  }
}
