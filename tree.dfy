/** The read side of utils/fileHelpers.ts: pre-order flattening, lookup by
    id and by title, and the well-formedness conditions of a forest. */
module Tree {
  import opened Wrappers
  import opened Seqs
  import opened Types

  /** Pre-order listing of a forest: each node, then its subtree, then its
      later siblings. */
  function Flatten(ns: seq<Node>): seq<Node> {
    if ns == [] then [] else [ns[0]] + Flatten(ns[0].children) + Flatten(ns[1..])
  }

  lemma {:induction false} FlattenAppend(a: seq<Node>, b: seq<Node>)
    ensures Flatten(a + b) == Flatten(a) + Flatten(b)
  {
    if a == [] {
      assert a + b == b;
    } else {
      assert (a + b)[0] == a[0];
      assert (a + b)[1..] == a[1..] + b;
      FlattenAppend(a[1..], b);
    }
  }

  lemma FlattenSingle(n: Node)
    ensures Flatten([n]) == [n] + Flatten(n.children)
  {
    assert [n][1..] == [];
  }

  /** `flattenNodes`: the `forEach` loop that pushes each node and
      concatenates the flattening of its children. */
  method FlattenNodes(nodes: seq<Node>) returns (flat: seq<Node>)
    ensures flat == Flatten(nodes)
  {
    flat := [];
    var i := 0;
    assert nodes[0..] == nodes;
    while i < |nodes|
      invariant 0 <= i <= |nodes|
      invariant flat + Flatten(nodes[i..]) == Flatten(nodes)
    {
      var node := nodes[i];
      var sub: seq<Node> := [];
      if |node.children| > 0 {
        sub := FlattenNodes(node.children);
      }
      FlattenStep(nodes, i, flat, sub);
      flat := flat + [node] + sub;
      i := i + 1;
    }
  }

  lemma FlattenStep(nodes: seq<Node>, i: nat, flat: seq<Node>, sub: seq<Node>)
    requires i < |nodes|
    requires flat + Flatten(nodes[i..]) == Flatten(nodes)
    requires sub == Flatten(nodes[i].children)
    ensures flat + [nodes[i]] + sub + Flatten(nodes[i + 1..]) == Flatten(nodes)
  {
    var tail := nodes[i..];
    assert tail[0] == nodes[i] && tail[1..] == nodes[i + 1..];
    assert Flatten(tail) == [nodes[i]] + sub + Flatten(nodes[i + 1..]);
    AppendAssoc(flat, [nodes[i]], sub, Flatten(nodes[i + 1..]));
  }

  /** The id tree of a node: its id and the id trees of its children. */
  datatype Shape = Shape(id: string, children: seq<Shape>)

  /** A forest with everything but the ids and the nesting forgotten. */
  function Outline(ns: seq<Node>): seq<Shape> {
    if ns == [] then [] else [Shape(ns[0].id, Outline(ns[0].children))] + Outline(ns[1..])
  }

  /** The number of nodes of a forest, one for each node at every depth. */
  function Count(ns: seq<Node>): nat {
    if ns == [] then 0 else 1 + Count(ns[0].children) + Count(ns[1..])
  }

  /** `m` is a node of the forest at some depth. */
  predicate Reachable(ns: seq<Node>, m: Node) {
    exists i :: 0 <= i < |ns| && (ns[i] == m || Reachable(ns[i].children, m))
  }

  lemma ReachableCons(ns: seq<Node>, m: Node)
    requires ns != []
    ensures Reachable(ns, m) <==> ns[0] == m || Reachable(ns[0].children, m) || Reachable(ns[1..], m)
  {
    if Reachable(ns[1..], m) {
      var i :| 0 <= i < |ns[1..]| && (ns[1..][i] == m || Reachable(ns[1..][i].children, m));
      assert ns[i + 1] == ns[1..][i];
    }
    if Reachable(ns, m) {
      var i :| 0 <= i < |ns| && (ns[i] == m || Reachable(ns[i].children, m));
      if i > 0 { assert ns[1..][i - 1] == ns[i]; }
    }
  }

  /** The flattening has one entry per node of the forest. */
  lemma {:induction false} FlattenCount(ns: seq<Node>)
    ensures |Flatten(ns)| == Count(ns)
  {
    if ns != [] {
      FlattenCount(ns[0].children);
      FlattenCount(ns[1..]);
    }
  }

  /** The flattening lists exactly the nodes of the forest. */
  lemma {:induction false} FlattenMembers(ns: seq<Node>, m: Node)
    ensures m in Flatten(ns) <==> Reachable(ns, m)
  {
    if ns != [] {
      FlattenMembers(ns[0].children, m);
      FlattenMembers(ns[1..], m);
      ReachableCons(ns, m);
    }
  }

  /** The ids of a list of nodes, in order. */
  function Ids(s: seq<Node>): (r: seq<string>)
    ensures |r| == |s|
    ensures forall i :: 0 <= i < |s| ==> r[i] == s[i].id
  {
    seq(|s|, i requires 0 <= i < |s| => s[i].id)
  }

  lemma IdsAppend(a: seq<Node>, b: seq<Node>)
    ensures Ids(a + b) == Ids(a) + Ids(b)
  {
  }

  /** Every id of the forest, in pre-order. */
  function AllIds(ns: seq<Node>): seq<string> {
    Ids(Flatten(ns))
  }

  lemma AllIdsCons(ns: seq<Node>)
    requires ns != []
    ensures AllIds(ns) == [ns[0].id] + AllIds(ns[0].children) + AllIds(ns[1..])
  {
    IdsAppend([ns[0]] + Flatten(ns[0].children), Flatten(ns[1..]));
    IdsAppend([ns[0]], Flatten(ns[0].children));
  }

  lemma AllIdsConsOf(x: Node, y: seq<Node>)
    ensures AllIds([x] + y) == [x.id] + AllIds(x.children) + AllIds(y)
  {
    assert ([x] + y)[0] == x && ([x] + y)[1..] == y;
    AllIdsCons([x] + y);
  }

  /** Replacing a head's children and the later siblings changes the
      forest's ids by exactly what the replacements change. */
  lemma AllIdsGrow(n: Node, n2: Node, rest: seq<Node>, rest2: seq<Node>, f: multiset<string>)
    requires n2.id == n.id
    requires multiset(AllIds(n2.children)) + multiset(AllIds(rest2)) == multiset(AllIds(n.children)) + multiset(AllIds(rest)) + f
    ensures multiset(AllIds([n2] + rest2)) == multiset(AllIds([n] + rest)) + f
  {
    AllIdsConsOf(n, rest);
    AllIdsConsOf(n2, rest2);
    MultisetOfThree([n.id], AllIds(n.children), AllIds(rest));
    MultisetOfThree([n.id], AllIds(n2.children), AllIds(rest2));
    var h := multiset([n.id]);
    calc {
      multiset(AllIds([n2] + rest2));
      h + (multiset(AllIds(n2.children)) + multiset(AllIds(rest2)));
      h + (multiset(AllIds(n.children)) + multiset(AllIds(rest)) + f);
      multiset(AllIds([n] + rest)) + f;
    }
  }

  lemma AllIdsAppend(a: seq<Node>, b: seq<Node>)
    ensures AllIds(a + b) == AllIds(a) + AllIds(b)
  {
    FlattenAppend(a, b);
    IdsAppend(Flatten(a), Flatten(b));
  }

  /** How many nodes of the forest carry `id`. */
  function Occurs(ns: seq<Node>, id: string): nat {
    multiset(AllIds(ns))[id]
  }

  lemma OccursCons(ns: seq<Node>, id: string)
    requires ns != []
    ensures Occurs(ns, id) == (if ns[0].id == id then 1 else 0) + Occurs(ns[0].children, id) + Occurs(ns[1..], id)
  {
    AllIdsCons(ns);
  }

  lemma OccursZero(ns: seq<Node>, id: string)
    ensures Occurs(ns, id) == 0 <==> id !in AllIds(ns)
  {
  }

  /** No two nodes of the forest share an id. */
  ghost predicate UniqueIds(ns: seq<Node>) {
    forall x :: multiset(AllIds(ns))[x] <= 1
  }

  /** Every node's `parentId` names the node whose child list holds it
      (`parent` is None for the root list). */
  predicate ParentsLinked(ns: seq<Node>, parent: Option<string>) {
    forall i :: 0 <= i < |ns| ==> ns[i].parentId == parent && ParentsLinked(ns[i].children, Some(ns[i].id))
  }

  function HasId(id: string): Node -> bool {
    (n: Node) => n.id == id
  }

  /** The first node in pre-order whose id is `id`, or None. */
  function Find(ns: seq<Node>, id: string): (r: Option<Node>)
    ensures r.Some? ==> r.value in Flatten(ns) && r.value.id == id
    ensures r.None? <==> id !in AllIds(ns)
  {
    First(Flatten(ns), HasId(id))
  }

  /** Find follows the recursion of the source: the head, then its
      subtree, then the later siblings. */
  lemma FindCons(ns: seq<Node>, id: string)
    requires ns != []
    ensures Find(ns, id) ==
      if ns[0].id == id then Some(ns[0])
      else if Find(ns[0].children, id).Some? then Find(ns[0].children, id)
      else Find(ns[1..], id)
  {
    FirstAppend([ns[0]] + Flatten(ns[0].children), Flatten(ns[1..]), HasId(id));
    FirstAppend([ns[0]], Flatten(ns[0].children), HasId(id));
  }

  lemma FindAppend(a: seq<Node>, b: seq<Node>, id: string)
    ensures Find(a + b, id) == if Find(a, id).Some? then Find(a, id) else Find(b, id)
  {
    FlattenAppend(a, b);
    FirstAppend(Flatten(a), Flatten(b), HasId(id));
  }

  /** `findNode`: a `for...of` loop over the roots that returns early on a
      match or on a match found in a node's children. */
  method FindNode(nodes: seq<Node>, id: string) returns (r: Option<Node>)
    ensures r == Find(nodes, id)
  {
    var i := 0;
    while i < |nodes|
      invariant 0 <= i <= |nodes|
      invariant Find(nodes[i..], id) == Find(nodes, id)
    {
      var node := nodes[i];
      FindCons(nodes[i..], id);
      assert nodes[i..][0] == node && nodes[i..][1..] == nodes[i + 1..];
      if node.id == id {
        return Some(node);
      }
      if |node.children| > 0 {
        var found := FindNode(node.children, id);
        if found.Some? {
          return found;
        }
      }
      i := i + 1;
    }
    return None;
  }

  /** The test of the root search of `findChildByTitle`. */
  function RootTitled(title: string): Node -> bool {
    (n: Node) => n.parentId.None? && n.title == title
  }

  /** The test of the child search of `findChildByTitle`. */
  function Titled(title: string): Node -> bool {
    (c: Node) => c.title == title
  }

  /** `findChildByTitle`: exact, case-sensitive title match.  At the root it
      also requires `parentId === null`; otherwise it looks among the
      children of the first node with id `parentId`. */
  function FindChildByTitle(ns: seq<Node>, parentId: Option<string>, title: string): (r: Option<Node>)
    ensures r.Some? ==> r.value.title == title
    ensures parentId.None? ==> (r.Some? ==> r.value in ns && r.value.parentId.None?)
    ensures parentId.None? ==>
      (r.None? <==> forall i :: 0 <= i < |ns| ==> !(ns[i].parentId.None? && ns[i].title == title))
    ensures parentId.Some? ==>
      match Find(ns, parentId.value)
      case None => r.None?
      case Some(p) => (r.Some? ==> r.value in p.children) &&
                      (r.None? <==> forall i :: 0 <= i < |p.children| ==> p.children[i].title != title)
  {
    if parentId.None? then First(ns, RootTitled(title))
    else
      match Find(ns, parentId.value)
      case None => None
      case Some(p) => First(p.children, Titled(title))
  }
}
