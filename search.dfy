/** `flattenNodesWithBreadcrumbs` and `searchNodes` from
    utils/fileHelpers.ts. */
module Search {
  import opened Seqs
  import opened Strs
  import opened Types
  import opened Tree

  /** A node together with the breadcrumb of its ancestors. */
  datatype SearchResult = SearchResult(node: Node, path: string)

  /** `node.title || 'Untitled'`. */
  function Label(n: Node): (r: string)
    ensures r != ""
  {
    if n.title == "" then "Untitled" else n.title
  }

  /** The path handed to the children of `n`: an empty parent path is not
      repeated. */
  function ChildPath(parentPath: string, n: Node): string {
    if parentPath != "" then parentPath + " / " + Label(n) else Label(n)
  }

  /** Pre-order listing, each node paired with its parent's path. */
  function Crumbs(ns: seq<Node>, parentPath: string): seq<SearchResult> {
    if ns == [] then []
    else [SearchResult(ns[0], parentPath)] + Crumbs(ns[0].children, ChildPath(parentPath, ns[0])) + Crumbs(ns[1..], parentPath)
  }

  /** The `forEach` loop of `flattenNodesWithBreadcrumbs`. */
  method FlattenWithBreadcrumbs(nodes: seq<Node>, parentPath: string) returns (flat: seq<SearchResult>)
    ensures flat == Crumbs(nodes, parentPath)
  {
    flat := [];
    var i := 0;
    assert nodes[0..] == nodes;
    while i < |nodes|
      invariant 0 <= i <= |nodes|
      invariant flat + Crumbs(nodes[i..], parentPath) == Crumbs(nodes, parentPath)
    {
      var node := nodes[i];
      var currentPath := if parentPath != "" then parentPath + " / " + Label(node) else Label(node);
      var sub: seq<SearchResult> := [];
      if |node.children| > 0 {
        sub := FlattenWithBreadcrumbs(node.children, currentPath);
      }
      CrumbsStep(nodes, i, parentPath, flat, sub);
      flat := flat + [SearchResult(node, parentPath)] + sub;
      i := i + 1;
    }
  }

  lemma CrumbsStep(nodes: seq<Node>, i: nat, parentPath: string, flat: seq<SearchResult>, sub: seq<SearchResult>)
    requires i < |nodes|
    requires flat + Crumbs(nodes[i..], parentPath) == Crumbs(nodes, parentPath)
    requires sub == Crumbs(nodes[i].children, ChildPath(parentPath, nodes[i]))
    ensures flat + [SearchResult(nodes[i], parentPath)] + sub + Crumbs(nodes[i + 1..], parentPath) == Crumbs(nodes, parentPath)
  {
    assert nodes[i..][0] == nodes[i] && nodes[i..][1..] == nodes[i + 1..];
    var head, rest := [SearchResult(nodes[i], parentPath)], Crumbs(nodes[i + 1..], parentPath);
    assert Crumbs(nodes[i..], parentPath) == head + sub + rest;
    AppendAssoc(flat, head, sub, rest);
  }

  /** The reference definition: each node paired with the labels of its
      ancestors, root first, joined by " / ". */
  function Trail(ns: seq<Node>, ancestors: seq<string>): seq<SearchResult> {
    if ns == [] then []
    else [SearchResult(ns[0], Join(ancestors, " / "))] + Trail(ns[0].children, ancestors + [Label(ns[0])]) + Trail(ns[1..], ancestors)
  }

  function Nodes(rs: seq<SearchResult>): (r: seq<Node>)
    ensures |r| == |rs| && forall i :: 0 <= i < |rs| ==> r[i] == rs[i].node
  {
    seq(|rs|, i requires 0 <= i < |rs| => rs[i].node)
  }

  lemma JoinSnoc(parts: seq<string>, p: string, sep: string)
    ensures Join(parts + [p], sep) == if parts == [] then p else Join(parts, sep) + sep + p
  {
    assert (parts + [p])[..|parts|] == parts;
  }

  lemma {:induction false} JoinNonEmpty(parts: seq<string>, sep: string)
    requires forall i :: 0 <= i < |parts| ==> parts[i] != ""
    ensures Join(parts, sep) == "" <==> parts == []
    decreases |parts|
  {
    if |parts| > 1 {
      var init := parts[..|parts| - 1];
      assert forall i :: 0 <= i < |init| ==> init[i] == parts[i];
      JoinNonEmpty(init, sep);
    }
  }

  /** The path built as the loop goes is the breadcrumb of the ancestors'
      labels. */
  lemma {:induction false} CrumbsAreTrail(ns: seq<Node>, ancestors: seq<string>)
    requires forall i :: 0 <= i < |ancestors| ==> ancestors[i] != ""
    ensures Crumbs(ns, Join(ancestors, " / ")) == Trail(ns, ancestors)
  {
    if ns != [] {
      var more := ancestors + [Label(ns[0])];
      assert forall i :: 0 <= i < |more| ==> more[i] != "";
      JoinNonEmpty(ancestors, " / ");
      JoinSnoc(ancestors, Label(ns[0]), " / ");
      assert ChildPath(Join(ancestors, " / "), ns[0]) == Join(more, " / ");
      CrumbsAreTrail(ns[0].children, more);
      CrumbsAreTrail(ns[1..], ancestors);
    }
  }

  /** The breadcrumb listing visits the same nodes, in the same order, as
      `flattenNodes`. */
  lemma {:induction false} CrumbsNodes(ns: seq<Node>, parentPath: string)
    ensures Nodes(Crumbs(ns, parentPath)) == Flatten(ns)
  {
    if ns != [] {
      var c := Crumbs(ns, parentPath);
      var a := [SearchResult(ns[0], parentPath)];
      var b := Crumbs(ns[0].children, ChildPath(parentPath, ns[0]));
      var d := Crumbs(ns[1..], parentPath);
      CrumbsNodes(ns[0].children, ChildPath(parentPath, ns[0]));
      CrumbsNodes(ns[1..], parentPath);
      assert c == a + b + d;
      NodesAppend(a + b, d);
      NodesAppend(a, b);
      assert Nodes(a) == [ns[0]];
    }
  }

  lemma NodesAppend(x: seq<SearchResult>, y: seq<SearchResult>)
    ensures Nodes(x + y) == Nodes(x) + Nodes(y)
  {
  }

  /** At the top level the path of every entry is the " / "-joined labels of
      its ancestors, and the root entries have the empty path. */
  lemma TopLevelPaths(ns: seq<Node>)
    ensures Crumbs(ns, "") == Trail(ns, [])
  {
    CrumbsAreTrail(ns, []);
  }

  /** The filter of `searchNodes`: a truthy title or a truthy content that
      contains the lower-cased query once lower-cased. */
  predicate Matches(n: Node, lowerQ: string) {
    (n.title != "" && Includes(Lower(n.title), lowerQ)) ||
    (n.content != "" && Includes(Lower(n.content), lowerQ))
  }

  function MatchesQuery(lowerQ: string): SearchResult -> bool {
    (r: SearchResult) => Matches(r.node, lowerQ)
  }

  /** `searchNodes`: nothing for an empty query; otherwise the breadcrumb
      entries whose node matches, in pre-order. */
  function SearchNodes(ns: seq<Node>, query: string): (r: seq<SearchResult>)
    ensures query == "" ==> r == []
    ensures forall i :: 0 <= i < |r| ==> r[i] in Crumbs(ns, "") && Matches(r[i].node, Lower(query))
    ensures query != "" ==>
      forall i :: 0 <= i < |Crumbs(ns, "")| && Matches(Crumbs(ns, "")[i].node, Lower(query)) ==> Crumbs(ns, "")[i] in r
    ensures IsSubsequence(r, Crumbs(ns, ""))
  {
    if query == "" then [] else Filter(Crumbs(ns, ""), MatchesQuery(Lower(query)))
  }

  /** The query's case does not matter. */
  lemma SearchIgnoresCase(ns: seq<Node>, query: string)
    ensures SearchNodes(ns, Lower(query)) == SearchNodes(ns, query)
  {
    LowerIdempotent(query);
  }

  /** Every node of the forest that matches a non-empty query is found, with
      the breadcrumb of its ancestors as its path. */
  lemma SearchFindsEveryMatch(ns: seq<Node>, query: string, i: nat)
    requires query != "" && i < |Flatten(ns)| && Matches(Flatten(ns)[i], Lower(query))
    ensures |Trail(ns, [])| == |Flatten(ns)|
    ensures SearchResult(Flatten(ns)[i], Trail(ns, [])[i].path) in SearchNodes(ns, query)
  {
    CrumbsNodes(ns, "");
    TopLevelPaths(ns);
    var c := Crumbs(ns, "");
    assert c[i].node == Flatten(ns)[i];
    assert c[i] == SearchResult(Flatten(ns)[i], Trail(ns, [])[i].path);
  }

  /** With a non-empty query, a title that contains it in any case matches. */
  lemma TitleMatch(n: Node, query: string, k: nat)
    requires query != "" && OccursAt(Lower(n.title), Lower(query), k)
    ensures Matches(n, Lower(query))
  {
    IncludesAt(Lower(n.title), Lower(query));
  }
}
