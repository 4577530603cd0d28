/** The write side of utils/fileHelpers.ts: every operation returns a new
    forest and leaves its argument alone. */
module Edits {
  import opened Wrappers
  import opened Types
  import opened Tree
  import opened Seqs

  // ---------------------------------------------------------------------
  // updateNodeInTree
  // ---------------------------------------------------------------------

  /** Each node whose id is `nodeId` is spread with the patch and stamped
      with `now`; the recursion does not enter a matched node. */
  function Update(ns: seq<Node>, nodeId: string, p: Patch, now: int): seq<Node> {
    if ns == [] then []
    else
      var n := ns[0];
      var n' := if n.id == nodeId then Merge(n, p).(updatedAt := now)
                else if |n.children| > 0 then n.(children := Update(n.children, nodeId, p, now))
                else n;
      [n'] + Update(ns[1..], nodeId, p, now)
  }

  /** A patch that leaves the id and the children alone. */
  predicate KeepsOutline(p: Patch) {
    p.id.None? && p.children.None?
  }

  lemma {:induction false} UpdateUnknown(ns: seq<Node>, nodeId: string, p: Patch, now: int)
    requires nodeId !in AllIds(ns)
    ensures Update(ns, nodeId, p, now) == ns
  {
    if ns != [] {
      AllIdsCons(ns);
      UpdateUnknown(ns[0].children, nodeId, p, now);
      UpdateUnknown(ns[1..], nodeId, p, now);
    }
  }

  /** A patch that keeps the outline keeps the pre-order id sequence. */
  lemma {:induction false} UpdateKeepsIds(ns: seq<Node>, nodeId: string, p: Patch, now: int)
    requires KeepsOutline(p)
    ensures AllIds(Update(ns, nodeId, p, now)) == AllIds(ns)
  {
    if ns != [] {
      var r := Update(ns, nodeId, p, now);
      AllIdsCons(ns);
      AllIdsCons(r);
      assert r[1..] == Update(ns[1..], nodeId, p, now);
      UpdateKeepsIds(ns[0].children, nodeId, p, now);
      UpdateKeepsIds(ns[1..], nodeId, p, now);
    }
  }

  /** A patch that keeps the outline leaves every node where it was: the
      forest's id tree is unchanged. */
  lemma {:induction false} UpdateKeepsShape(ns: seq<Node>, nodeId: string, p: Patch, now: int)
    requires KeepsOutline(p)
    ensures Outline(Update(ns, nodeId, p, now)) == Outline(ns)
  {
    if ns != [] {
      var r := Update(ns, nodeId, p, now);
      assert r[1..] == Update(ns[1..], nodeId, p, now);
      UpdateKeepsShape(ns[0].children, nodeId, p, now);
      UpdateKeepsShape(ns[1..], nodeId, p, now);
    }
  }

  /** After the update, looking the node up again gives the patched node
      stamped with `now`. */
  lemma {:induction false} FindAfterUpdate(ns: seq<Node>, nodeId: string, p: Patch, now: int)
    requires Find(ns, nodeId).Some?
    requires p.id.None? || p.id == Some(nodeId)
    ensures Find(Update(ns, nodeId, p, now), nodeId) == Some(Merge(Find(ns, nodeId).value, p).(updatedAt := now))
  {
    var r := Update(ns, nodeId, p, now);
    var n := ns[0];
    FindCons(ns, nodeId);
    FindCons(r, nodeId);
    assert r[1..] == Update(ns[1..], nodeId, p, now);
    if n.id != nodeId {
      if Find(n.children, nodeId).Some? {
        FindAfterUpdate(n.children, nodeId, p, now);
      } else {
        UpdateUnknown(n.children, nodeId, p, now);
        FindAfterUpdate(ns[1..], nodeId, p, now);
      }
    }
  }

  /** A node that is not the updated one and holds no updated node in its
      subtree is found unchanged. */
  lemma {:induction false} FindOtherAfterUpdate(ns: seq<Node>, nodeId: string, p: Patch, now: int, x: string)
    requires KeepsOutline(p)
    requires x != nodeId
    requires Find(ns, x).Some? && nodeId !in AllIds([Find(ns, x).value])
    ensures Find(Update(ns, nodeId, p, now), x) == Find(ns, x)
  {
    var r := Update(ns, nodeId, p, now);
    var n := ns[0];
    var m := Find(ns, x).value;
    FindCons(ns, x);
    FindCons(r, x);
    assert r[1..] == Update(ns[1..], nodeId, p, now);
    if n.id == x {
      AllIdsCons([n]);
      assert [n][1..] == [];
      UpdateUnknown(n.children, nodeId, p, now);
    } else if Find(n.children, x).Some? {
      if n.id != nodeId {
        FindOtherAfterUpdate(n.children, nodeId, p, now, x);
      }
    } else {
      if n.id != nodeId {
        UpdateKeepsIds(n.children, nodeId, p, now);
      }
      FindOtherAfterUpdate(ns[1..], nodeId, p, now, x);
    }
  }

  // ---------------------------------------------------------------------
  // addChildToNode
  // ---------------------------------------------------------------------

  /** A `null` parent appends to the roots; otherwise every node whose id
      is the parent gets the new node as last child and is stamped with
      `now`, and the recursion does not enter it. */
  function AddChild(ns: seq<Node>, parentId: Option<string>, x: Node, now: int): seq<Node> {
    if parentId.None? then ns + [x] else AddUnder(ns, parentId.value, x, now)
  }

  function AddUnder(ns: seq<Node>, pid: string, x: Node, now: int): seq<Node> {
    if ns == [] then []
    else
      var n := ns[0];
      var n' := if n.id == pid then n.(children := n.children + [x], updatedAt := now)
                else if |n.children| > 0 then n.(children := AddUnder(n.children, pid, x, now))
                else n;
      [n'] + AddUnder(ns[1..], pid, x, now)
  }

  lemma {:induction false} AddToRoot(ns: seq<Node>, x: Node, now: int)
    ensures Flatten(AddChild(ns, None, x, now)) == Flatten(ns) + Flatten([x])
  {
    FlattenAppend(ns, [x]);
  }

  lemma {:induction false} AddUnknown(ns: seq<Node>, pid: string, x: Node, now: int)
    requires pid !in AllIds(ns)
    ensures AddUnder(ns, pid, x, now) == ns
  {
    if ns != [] {
      AllIdsCons(ns);
      AddUnknown(ns[0].children, pid, x, now);
      AddUnknown(ns[1..], pid, x, now);
    }
  }

  /** The parent, looked up again, has the new node as its last child. */
  lemma {:induction false} FindAfterAdd(ns: seq<Node>, pid: string, x: Node, now: int)
    requires Find(ns, pid).Some?
    ensures Find(AddUnder(ns, pid, x, now), pid) ==
      Some(Find(ns, pid).value.(children := Find(ns, pid).value.children + [x], updatedAt := now))
  {
    var r := AddUnder(ns, pid, x, now);
    var n := ns[0];
    FindCons(ns, pid);
    FindCons(r, pid);
    assert r[1..] == AddUnder(ns[1..], pid, x, now);
    if n.id != pid {
      if Find(n.children, pid).Some? {
        FindAfterAdd(n.children, pid, x, now);
      } else {
        AddUnknown(n.children, pid, x, now);
        FindAfterAdd(ns[1..], pid, x, now);
      }
    }
  }

  /** An id absent from the forest and from the added node stays absent. */
  lemma {:induction false} AddUnderKeepsAbsent(ns: seq<Node>, pid: string, y: Node, now: int, z: string)
    requires z !in AllIds(ns) && z !in AllIds([y])
    ensures z !in AllIds(AddUnder(ns, pid, y, now))
  {
    if ns != [] {
      var n := ns[0];
      var r := AddUnder(ns, pid, y, now);
      AllIdsCons(ns);
      AllIdsCons(r);
      assert r[1..] == AddUnder(ns[1..], pid, y, now);
      AddUnderKeepsAbsent(ns[1..], pid, y, now, z);
      if n.id == pid {
        AllIdsAppend(n.children, [y]);
      } else if |n.children| > 0 {
        AddUnderKeepsAbsent(n.children, pid, y, now, z);
      }
    }
  }

  /** A node whose subtree holds no parent of that id, and whose id the
      added subtree does not reuse, is found unchanged after the add. */
  lemma {:induction false} FindOtherAfterAdd(ns: seq<Node>, pid: string, y: Node, now: int, x: string)
    requires Find(ns, x).Some? && pid !in AllIds([Find(ns, x).value])
    requires x !in AllIds([y])
    ensures Find(AddUnder(ns, pid, y, now), x) == Find(ns, x)
  {
    var r := AddUnder(ns, pid, y, now);
    var n := ns[0];
    FindCons(ns, x);
    FindCons(r, x);
    assert r[1..] == AddUnder(ns[1..], pid, y, now);
    if n.id == x {
      AllIdsCons([n]);
      assert [n][1..] == [];
      AddUnknown(n.children, pid, y, now);
      assert n.(children := n.children) == n;
    } else if Find(n.children, x).Some? {
      if n.id == pid {
        FindAppend(n.children, [y], x);
      } else {
        FindOtherAfterAdd(n.children, pid, y, now, x);
      }
    } else {
      if n.id == pid {
        AllIdsAppend(n.children, [y]);
      } else if |n.children| > 0 {
        AddUnderKeepsAbsent(n.children, pid, y, now, x);
      }
      FindOtherAfterAdd(ns[1..], pid, y, now, x);
    }
  }

  /** With one parent of that id, the forest gains exactly the new node's
      subtree. */
  lemma {:induction false} AddUnderIds(ns: seq<Node>, pid: string, x: Node, now: int)
    requires Occurs(ns, pid) == 1
    ensures multiset(AllIds(AddUnder(ns, pid, x, now))) == multiset(AllIds(ns)) + multiset(AllIds([x]))
  {
    var n := ns[0];
    var rest := ns[1..];
    var f := multiset(AllIds([x]));
    OccursCons(ns, pid);
    assert ns == [n] + rest;
    if n.id == pid {
      OccursZero(rest, pid);
      var n2 := n.(children := n.children + [x], updatedAt := now);
      assert AddUnder(ns, pid, x, now) == [n2] + rest by {
        AddUnknown(rest, pid, x, now);
      }
      AllIdsAppend(n.children, [x]);
      AllIdsGrow(n, n2, rest, rest, f);
    } else if Occurs(n.children, pid) == 1 {
      OccursZero(rest, pid);
      var n2 := n.(children := AddUnder(n.children, pid, x, now));
      assert AddUnder(ns, pid, x, now) == [n2] + rest by {
        AddUnknown(rest, pid, x, now);
      }
      AddUnderIds(n.children, pid, x, now);
      AllIdsGrow(n, n2, rest, rest, f);
    } else {
      OccursZero(n.children, pid);
      var rest2 := AddUnder(rest, pid, x, now);
      assert AddUnder(ns, pid, x, now) == [n] + rest2 by {
        AddUnknown(n.children, pid, x, now);
        assert n.(children := n.children) == n;
      }
      AddUnderIds(rest, pid, x, now);
      AllIdsGrow(n, n, rest, rest2, f);
    }
  }

  lemma {:induction false} AddUnderLinked(ns: seq<Node>, parent: Option<string>, pid: string, x: Node, now: int)
    requires ParentsLinked(ns, parent)
    requires x.parentId == Some(pid) && ParentsLinked(x.children, Some(x.id))
    ensures ParentsLinked(AddUnder(ns, pid, x, now), parent)
  {
    if ns != [] {
      var r := AddUnder(ns, pid, x, now);
      var n := ns[0];
      assert n.parentId == parent && ParentsLinked(n.children, Some(n.id));
      assert r[1..] == AddUnder(ns[1..], pid, x, now);
      AddUnderLinked(ns[0].children, Some(n.id), pid, x, now);
      AddUnderLinked(ns[1..], parent, pid, x, now);
      assert ParentsLinked(ns[1..], parent) by {
        forall i | 0 <= i < |ns[1..]| ensures ns[1..][i].parentId == parent && ParentsLinked(ns[1..][i].children, Some(ns[1..][i].id)) {
          assert ns[1..][i] == ns[i + 1];
        }
      }
      assert r[0].parentId == parent && ParentsLinked(r[0].children, Some(r[0].id));
      assert forall i :: 1 <= i < |r| ==> r[i] == r[1..][i - 1];
    }
  }

  /** A linked forest stays linked when a linked node is added under its
      parent, at the roots or under a node. */
  lemma {:induction false} AddChildLinked(ns: seq<Node>, parentId: Option<string>, x: Node, now: int)
    requires ParentsLinked(ns, None)
    requires x.parentId == parentId && ParentsLinked(x.children, Some(x.id))
    ensures ParentsLinked(AddChild(ns, parentId, x, now), None)
  {
    if parentId.Some? {
      AddUnderLinked(ns, None, parentId.value, x, now);
    } else {
      var r := ns + [x];
      assert forall i :: 0 <= i < |ns| ==> r[i] == ns[i];
    }
  }

  // ---------------------------------------------------------------------
  // deleteNodeFromTree
  // ---------------------------------------------------------------------

  /** `filter` drops the nodes with that id at this level, then `map`
      recurses into the survivors that have children. */
  function Delete(ns: seq<Node>, nodeId: string): seq<Node> {
    if ns == [] then []
    else if ns[0].id == nodeId then Delete(ns[1..], nodeId)
    else
      var n := ns[0];
      [if |n.children| > 0 then n.(children := Delete(n.children, nodeId)) else n] + Delete(ns[1..], nodeId)
  }

  /** The subtrees a delete drops: the nodes with that id that are not
      inside another such node, in pre-order. */
  function Removed(ns: seq<Node>, nodeId: string): seq<Node> {
    if ns == [] then []
    else if ns[0].id == nodeId then [ns[0]] + Removed(ns[1..], nodeId)
    else Removed(ns[0].children, nodeId) + Removed(ns[1..], nodeId)
  }

  lemma {:induction false} DeleteUnknown(ns: seq<Node>, nodeId: string)
    requires nodeId !in AllIds(ns)
    ensures Delete(ns, nodeId) == ns
    ensures Removed(ns, nodeId) == []
  {
    if ns != [] {
      AllIdsCons(ns);
      DeleteUnknown(ns[0].children, nodeId);
      DeleteUnknown(ns[1..], nodeId);
    }
  }

  /** No node with the deleted id is left, at any depth. */
  lemma {:induction false} DeleteRemoves(ns: seq<Node>, nodeId: string)
    ensures nodeId !in AllIds(Delete(ns, nodeId))
  {
    if ns != [] {
      var r := Delete(ns, nodeId);
      DeleteRemoves(ns[0].children, nodeId);
      DeleteRemoves(ns[1..], nodeId);
      if ns[0].id != nodeId {
        AllIdsCons(r);
        assert r[1..] == Delete(ns[1..], nodeId);
      }
    }
  }

  /** The ids before the delete are exactly the ids kept plus the ids of
      the dropped subtrees: nothing else is lost. */
  lemma {:induction false} DeletePartition(ns: seq<Node>, nodeId: string)
    ensures multiset(AllIds(ns)) == multiset(AllIds(Delete(ns, nodeId))) + multiset(AllIds(Removed(ns, nodeId)))
  {
    if ns != [] {
      var n := ns[0];
      var r := Delete(ns, nodeId);
      AllIdsCons(ns);
      DeletePartition(n.children, nodeId);
      DeletePartition(ns[1..], nodeId);
      if n.id == nodeId {
        AllIdsAppend([n], Removed(ns[1..], nodeId));
        AllIdsCons([n]);
        assert [n][1..] == [];
      } else {
        AllIdsCons(r);
        assert r[1..] == Delete(ns[1..], nodeId);
        AllIdsAppend(Removed(n.children, nodeId), Removed(ns[1..], nodeId));
      }
    }
  }

  /** The surviving ids keep their relative pre-order. */
  lemma {:induction false} DeleteKeepsOrder(ns: seq<Node>, nodeId: string)
    ensures IsSubsequence(AllIds(Delete(ns, nodeId)), AllIds(ns))
  {
    if ns != [] {
      var n := ns[0];
      var r := Delete(ns, nodeId);
      AllIdsCons(ns);
      DeleteKeepsOrder(n.children, nodeId);
      DeleteKeepsOrder(ns[1..], nodeId);
      if n.id == nodeId {
        SubsequencePrepend(AllIds(r), [n.id] + AllIds(n.children), AllIds(ns[1..]));
      } else {
        AllIdsCons(r);
        assert r[1..] == Delete(ns[1..], nodeId);
        SubsequenceRefl([n.id]);
        SubsequenceAppend([n.id], [n.id], AllIds(r[0].children), AllIds(n.children));
        SubsequenceAppend([n.id] + AllIds(r[0].children), [n.id] + AllIds(n.children), AllIds(r[1..]), AllIds(ns[1..]));
      }
    }
  }

  /** An absent id stays absent after a delete. */
  lemma DeleteKeepsAbsent(ns: seq<Node>, nodeId: string, x: string)
    requires x !in AllIds(ns)
    ensures x !in AllIds(Delete(ns, nodeId))
  {
    DeletePartition(ns, nodeId);
    assert multiset(AllIds(ns))[x] == 0;
  }

  /** A node outside the dropped subtrees, with no node of the deleted id
      below it, is found unchanged after the delete. */
  lemma {:induction false} FindOtherAfterDelete(ns: seq<Node>, nodeId: string, x: string)
    requires Find(ns, x).Some? && nodeId !in AllIds([Find(ns, x).value])
    requires x !in AllIds(Removed(ns, nodeId))
    ensures Find(Delete(ns, nodeId), x) == Find(ns, x)
  {
    var n := ns[0];
    var r := Delete(ns, nodeId);
    FindCons(ns, x);
    if n.id == nodeId {
      AllIdsAppend([n], Removed(ns[1..], nodeId));
      AllIdsCons([n]);
      assert [n][1..] == [];
      FindOtherAfterDelete(ns[1..], nodeId, x);
    } else {
      FindCons(r, x);
      assert r[1..] == Delete(ns[1..], nodeId);
      AllIdsAppend(Removed(n.children, nodeId), Removed(ns[1..], nodeId));
      if n.id == x {
        AllIdsCons([n]);
        assert [n][1..] == [];
        DeleteUnknown(n.children, nodeId);
        assert n.(children := n.children) == n;
      } else if Find(n.children, x).Some? {
        FindOtherAfterDelete(n.children, nodeId, x);
      } else {
        DeleteKeepsAbsent(n.children, nodeId, x);
        FindOtherAfterDelete(ns[1..], nodeId, x);
      }
    }
  }

  /** With one node of that id, the delete drops exactly its subtree. */
  lemma {:induction false} RemovedSingle(ns: seq<Node>, nodeId: string)
    requires Occurs(ns, nodeId) == 1
    ensures Removed(ns, nodeId) == [Find(ns, nodeId).value]
  {
    var n := ns[0];
    OccursCons(ns, nodeId);
    FindCons(ns, nodeId);
    if n.id == nodeId {
      OccursZero(ns[1..], nodeId);
      DeleteUnknown(ns[1..], nodeId);
    } else if Occurs(n.children, nodeId) == 1 {
      OccursZero(ns[1..], nodeId);
      DeleteUnknown(ns[1..], nodeId);
      RemovedSingle(n.children, nodeId);
    } else {
      OccursZero(n.children, nodeId);
      DeleteUnknown(n.children, nodeId);
      RemovedSingle(ns[1..], nodeId);
    }
  }

  /** With unique ids, deleting a node removes it and all its descendants
      and keeps every other node's id. */
  lemma {:induction false} DeleteSubtree(ns: seq<Node>, nodeId: string)
    requires Occurs(ns, nodeId) == 1
    ensures multiset(AllIds(ns)) == multiset(AllIds(Delete(ns, nodeId))) + multiset(AllIds([Find(ns, nodeId).value]))
  {
    DeletePartition(ns, nodeId);
    RemovedSingle(ns, nodeId);
  }

  lemma {:induction false} DeleteLinked(ns: seq<Node>, parent: Option<string>, nodeId: string)
    requires ParentsLinked(ns, parent)
    ensures ParentsLinked(Delete(ns, nodeId), parent)
  {
    if ns != [] {
      var n := ns[0];
      var r := Delete(ns, nodeId);
      assert n.parentId == parent && ParentsLinked(n.children, Some(n.id));
      assert ParentsLinked(ns[1..], parent) by {
        forall i | 0 <= i < |ns[1..]| ensures ns[1..][i].parentId == parent && ParentsLinked(ns[1..][i].children, Some(ns[1..][i].id)) {
          assert ns[1..][i] == ns[i + 1];
        }
      }
      DeleteLinked(n.children, Some(n.id), nodeId);
      DeleteLinked(ns[1..], parent, nodeId);
      if n.id != nodeId {
        assert r[1..] == Delete(ns[1..], nodeId);
        assert forall i :: 1 <= i < |r| ==> r[i] == r[1..][i - 1];
      }
    }
  }

  // ---------------------------------------------------------------------
  // deepCloneWithNewIds and duplicateNodeInTree
  // ---------------------------------------------------------------------

  /** `deepCloneWithNewIds` over a list.  `generateId` is the supply `gen`;
      a node draws its id before its children do, so the clones draw
      `gen(k)`, `gen(k + 1)`, ... in pre-order. */
  function CloneAll(ns: seq<Node>, gen: nat -> string, k: nat, now: int): (r: seq<Node>)
    ensures |r| == |ns|
  {
    if ns == [] then []
    else
      var n := ns[0];
      [n.(id := gen(k), title := n.title + " (Copy)", createdAt := now, updatedAt := now,
          children := CloneAll(n.children, gen, k + 1, now))]
      + CloneAll(ns[1..], gen, k + 1 + Count(n.children), now)
  }

  function Clone(n: Node, gen: nat -> string, k: nat, now: int): Node {
    CloneAll([n], gen, k, now)[0]
  }

  /** A node with its children left out: everything the spread copies. */
  function Header(n: Node): Node {
    n.(children := [])
  }

  /** `c` is a copy of `o` with the title suffixed with " (Copy)" and both
      timestamps `now`: every other field, `parentId` included, is the
      same (the id is unconstrained here). */
  predicate CopyOf(c: Node, o: Node, now: int) {
    Header(c) == Header(o).(id := c.id, title := o.title + " (Copy)", createdAt := now, updatedAt := now)
  }

  /** `cs` has the shape of `os`, node for node a copy. */
  predicate Copies(cs: seq<Node>, os: seq<Node>, now: int)
    decreases os
  {
    if os == [] then cs == []
    else cs != [] && CopyOf(cs[0], os[0], now) && Copies(cs[0].children, os[0].children, now) &&
         Copies(cs[1..], os[1..], now)
  }

  /** Position by position, a copy of a list is as long and copies each
      node and its children. */
  lemma {:induction false} CopiesAt(cs: seq<Node>, os: seq<Node>, now: int, i: nat)
    requires Copies(cs, os, now) && i < |os|
    ensures |cs| == |os| && CopyOf(cs[i], os[i], now) && Copies(cs[i].children, os[i].children, now)
    decreases os
  {
    CopiesLength(cs[1..], os[1..], now);
    if i > 0 { CopiesAt(cs[1..], os[1..], now, i - 1); }
  }

  lemma {:induction false} CopiesLength(cs: seq<Node>, os: seq<Node>, now: int)
    requires Copies(cs, os, now)
    ensures |cs| == |os|
    decreases os
  {
    if os != [] { CopiesLength(cs[1..], os[1..], now); }
  }

  lemma {:induction false} CloneAllCons(ns: seq<Node>, gen: nat -> string, k: nat, now: int)
    requires ns != []
    ensures CopyOf(CloneAll(ns, gen, k, now)[0], ns[0], now)
    ensures CloneAll(ns, gen, k, now)[0].id == gen(k)
    ensures CloneAll(ns, gen, k, now)[0].children == CloneAll(ns[0].children, gen, k + 1, now)
    ensures CloneAll(ns, gen, k, now)[1..] == CloneAll(ns[1..], gen, k + 1 + Count(ns[0].children), now)
  {
  }

  /** The clone has the original's shape, each node a copy of its original. */
  lemma {:induction false} CloneAllCopies(ns: seq<Node>, gen: nat -> string, k: nat, now: int)
    ensures Copies(CloneAll(ns, gen, k, now), ns, now)
  {
    if ns != [] {
      CloneAllCopies(ns[0].children, gen, k + 1, now);
      CloneAllCopies(ns[1..], gen, k + 1 + Count(ns[0].children), now);
      CloneAllCopiesStep(ns, gen, k, now);
    }
  }

  /** One step of the induction: copies of the first node's children and of
      the rest make a copy of the whole list. */
  lemma CloneAllCopiesStep(ns: seq<Node>, gen: nat -> string, k: nat, now: int)
    requires ns != []
    ensures Copies(CloneAll(ns[0].children, gen, k + 1, now), ns[0].children, now) &&
            Copies(CloneAll(ns[1..], gen, k + 1 + Count(ns[0].children), now), ns[1..], now) ==>
            Copies(CloneAll(ns, gen, k, now), ns, now)
  {
    CloneAllCons(ns, gen, k, now);
    CopiesIntro(CloneAll(ns, gen, k, now), ns, now);
  }

  lemma CopiesIntro(cs: seq<Node>, os: seq<Node>, now: int)
    ensures (cs != [] && os != [] && CopyOf(cs[0], os[0], now) && Copies(cs[0].children, os[0].children, now) &&
             Copies(cs[1..], os[1..], now)) ==> Copies(cs, os, now)
  {
  }

  lemma {:induction false} CloneCount(ns: seq<Node>, gen: nat -> string, k: nat, now: int)
    ensures Count(CloneAll(ns, gen, k, now)) == Count(ns)
  {
    if ns != [] {
      CloneAllCons(ns, gen, k, now);
      CloneCount(ns[0].children, gen, k + 1, now);
      CloneCount(ns[1..], gen, k + 1 + Count(ns[0].children), now);
    }
  }

  /** The `n` ids the supply hands out from position `k` on. */
  function Fresh(gen: nat -> string, k: nat, n: nat): (r: seq<string>)
    ensures |r| == n && forall i :: 0 <= i < n ==> r[i] == gen(k + i)
  {
    seq(n, i requires 0 <= i < n => gen(k + i))
  }

  lemma {:induction false} FreshSplit(gen: nat -> string, k: nat, a: nat, b: nat)
    ensures [gen(k)] + Fresh(gen, k + 1, a) + Fresh(gen, k + 1 + a, b) == Fresh(gen, k, 1 + a + b)
  {
  }

  /** The clone's ids are the next `Count` ids of the supply, in pre-order. */
  lemma {:induction false} CloneAllIds(ns: seq<Node>, gen: nat -> string, k: nat, now: int)
    ensures AllIds(CloneAll(ns, gen, k, now)) == Fresh(gen, k, Count(ns))
  {
    if ns != [] {
      CloneAllIds(ns[0].children, gen, k + 1, now);
      CloneAllIds(ns[1..], gen, k + 1 + Count(ns[0].children), now);
      CloneAllIdsStep(ns, gen, k, now);
    }
  }

  lemma CloneAllIdsStep(ns: seq<Node>, gen: nat -> string, k: nat, now: int)
    requires ns != []
    ensures AllIds(CloneAll(ns[0].children, gen, k + 1, now)) == Fresh(gen, k + 1, Count(ns[0].children)) &&
            AllIds(CloneAll(ns[1..], gen, k + 1 + Count(ns[0].children), now)) == Fresh(gen, k + 1 + Count(ns[0].children), Count(ns[1..])) ==>
            AllIds(CloneAll(ns, gen, k, now)) == Fresh(gen, k, Count(ns))
  {
    CloneAllCons(ns, gen, k, now);
    AllIdsCons(CloneAll(ns, gen, k, now));
    FreshSplit(gen, k, Count(ns[0].children), Count(ns[1..]));
  }

  /** The spread copies `parentId` verbatim, so a clone's children still
      name the original, not the clone, as their parent. */
  lemma {:induction false} CloneChildrenKeepParent(n: Node, gen: nat -> string, k: nat, now: int)
    ensures |Clone(n, gen, k, now).children| == |n.children|
    ensures forall i :: 0 <= i < |n.children| ==> Clone(n, gen, k, now).children[i].parentId == n.children[i].parentId
  {
    var cc := CloneAll(n.children, gen, k + 1, now);
    forall i | 0 <= i < |n.children|
      ensures cc[i].parentId == n.children[i].parentId
    {
      CloneLevel(n.children, gen, k + 1, now, i);
    }
  }

  lemma {:induction false} CloneLevel(ns: seq<Node>, gen: nat -> string, k: nat, now: int, i: nat)
    requires i < |ns|
    ensures CloneAll(ns, gen, k, now)[i].parentId == ns[i].parentId
  {
    var cs := CloneAll(ns, gen, k, now);
    assert cs[1..] == CloneAll(ns[1..], gen, k + 1 + Count(ns[0].children), now);
    if i > 0 {
      CloneLevel(ns[1..], gen, k + 1 + Count(ns[0].children), now, i - 1);
    }
  }

  /** How many ids a duplicate of `nodeId` draws from the supply. */
  function Used(ns: seq<Node>, nodeId: string): nat {
    if ns == [] then 0
    else (if ns[0].id == nodeId then 1 + Count(ns[0].children) else Used(ns[0].children, nodeId)) + Used(ns[1..], nodeId)
  }

  /** `duplicateNodeInTree`: the `reduce` that puts each matching node's
      clone right after it, recursing only into nodes that do not match. */
  function Duplicate(ns: seq<Node>, nodeId: string, gen: nat -> string, k: nat, now: int): seq<Node> {
    if ns == [] then []
    else
      var n := ns[0];
      if n.id == nodeId then
        [n, Clone(n, gen, k, now)] + Duplicate(ns[1..], nodeId, gen, k + 1 + Count(n.children), now)
      else if |n.children| > 0 then
        [n.(children := Duplicate(n.children, nodeId, gen, k, now))] + Duplicate(ns[1..], nodeId, gen, k + Used(n.children, nodeId), now)
      else
        [n] + Duplicate(ns[1..], nodeId, gen, k, now)
  }

  lemma {:induction false} DuplicateHit(ns: seq<Node>, nodeId: string, gen: nat -> string, k: nat, now: int)
    requires ns != [] && ns[0].id == nodeId
    ensures Duplicate(ns, nodeId, gen, k, now) ==
      [ns[0], Clone(ns[0], gen, k, now)] + Duplicate(ns[1..], nodeId, gen, k + 1 + Count(ns[0].children), now)
  {
  }

  lemma {:induction false} DuplicateMiss(ns: seq<Node>, nodeId: string, gen: nat -> string, k: nat, now: int)
    requires ns != [] && ns[0].id != nodeId
    ensures Duplicate(ns, nodeId, gen, k, now) ==
      [ns[0].(children := Duplicate(ns[0].children, nodeId, gen, k, now))] +
      Duplicate(ns[1..], nodeId, gen, k + Used(ns[0].children, nodeId), now)
  {
    if ns[0].children == [] {
      assert ns[0].(children := []) == ns[0];
    }
  }

  lemma {:induction false} DuplicateSkip(ns: seq<Node>, nodeId: string, gen: nat -> string, k: nat, now: int)
    requires ns != [] && ns[0].id != nodeId && nodeId !in AllIds(ns[0].children)
    ensures Duplicate(ns, nodeId, gen, k, now) == [ns[0]] + Duplicate(ns[1..], nodeId, gen, k, now)
  {
    DuplicateUnknown(ns[0].children, nodeId, gen, k, now);
    if ns[0].children != [] {
      assert ns[0].(children := ns[0].children) == ns[0];
    }
  }

  lemma {:induction false} DuplicateDescend(ns: seq<Node>, nodeId: string, gen: nat -> string, k: nat, now: int)
    requires ns != [] && ns[0].id != nodeId && nodeId !in AllIds(ns[1..])
    ensures Duplicate(ns, nodeId, gen, k, now) == [ns[0].(children := Duplicate(ns[0].children, nodeId, gen, k, now))] + ns[1..]
  {
    DuplicateMiss(ns, nodeId, gen, k, now);
    DuplicateUnknown(ns[1..], nodeId, gen, k + Used(ns[0].children, nodeId), now);
  }

  lemma {:induction false} DuplicateUnknown(ns: seq<Node>, nodeId: string, gen: nat -> string, k: nat, now: int)
    requires nodeId !in AllIds(ns)
    ensures Duplicate(ns, nodeId, gen, k, now) == ns
    ensures Used(ns, nodeId) == 0
  {
    if ns != [] {
      AllIdsCons(ns);
      assert ns[0].id != nodeId && nodeId !in AllIds(ns[0].children) && nodeId !in AllIds(ns[1..]);
      DuplicateUnknown(ns[0].children, nodeId, gen, k, now);
      DuplicateUnknown(ns[1..], nodeId, gen, k, now);
      DuplicateMiss(ns, nodeId, gen, k, now);
      assert ns[0].(children := ns[0].children) == ns[0];
      assert ns == [ns[0]] + ns[1..];
    }
  }

  lemma {:induction false} RootInAllIds(ns: seq<Node>, i: nat)
    requires i < |ns|
    ensures ns[i].id in AllIds(ns)
  {
    AllIdsCons(ns);
    if i > 0 {
      RootInAllIds(ns[1..], i - 1);
    }
  }

  /** A root that is the only node with that id gets its clone inserted
      right after it; nothing else changes. */
  lemma {:induction false} DuplicateAtRoot(ns: seq<Node>, j: nat, gen: nat -> string, k: nat, now: int)
    requires j < |ns| && Occurs(ns, ns[j].id) == 1
    ensures Duplicate(ns, ns[j].id, gen, k, now) == ns[..j + 1] + [Clone(ns[j], gen, k, now)] + ns[j + 1..]
  {
    if j == 0 {
      DuplicateAtHead(ns, gen, k, now);
    } else {
      var id := ns[j].id;
      OccursCons(ns, id);
      assert ns[1..][j - 1] == ns[j];
      RootInAllIds(ns[1..], j - 1);
      OccursZero(ns[0].children, id);
      DuplicateSkip(ns, id, gen, k, now);
      DuplicateAtRoot(ns[1..], j - 1, gen, k, now);
      InsertAfterCons(ns, j, Clone(ns[j], gen, k, now));
    }
  }

  lemma DuplicateAtHead(ns: seq<Node>, gen: nat -> string, k: nat, now: int)
    requires ns != [] && Occurs(ns, ns[0].id) == 1
    ensures Duplicate(ns, ns[0].id, gen, k, now) == ns[..1] + [Clone(ns[0], gen, k, now)] + ns[1..]
  {
    HeadUnique(ns);
    DuplicateFirst(ns, gen, k, now);
    InsertAtHead(ns, Clone(ns[0], gen, k, now));
  }

  lemma HeadUnique(ns: seq<Node>)
    requires ns != [] && Occurs(ns, ns[0].id) == 1
    ensures ns[0].id !in AllIds(ns[1..])
  {
    OccursCons(ns, ns[0].id);
    OccursZero(ns[1..], ns[0].id);
  }

  lemma DuplicateFirst(ns: seq<Node>, gen: nat -> string, k: nat, now: int)
    requires ns != [] && ns[0].id !in AllIds(ns[1..])
    ensures Duplicate(ns, ns[0].id, gen, k, now) == [ns[0], Clone(ns[0], gen, k, now)] + ns[1..]
  {
    DuplicateHit(ns, ns[0].id, gen, k, now);
    DuplicateUnknown(ns[1..], ns[0].id, gen, k + 1 + Count(ns[0].children), now);
  }

  lemma InsertAtHead<T>(s: seq<T>, c: T)
    requires s != []
    ensures [s[0], c] + s[1..] == s[..1] + [c] + s[1..]
  {
    assert s[..1] == [s[0]];
  }

  lemma InsertAfterCons<T>(s: seq<T>, j: nat, c: T)
    requires 0 < j < |s|
    ensures [s[0]] + (s[1..][..j] + [c] + s[1..][j..]) == s[..j + 1] + [c] + s[j + 1..]
  {
    assert s[..j + 1] == [s[0]] + s[1..][..j];
    assert s[j + 1..] == s[1..][j..];
  }

  /** With one node of that id, duplicating adds exactly the clone's
      subtree, whose ids are the next ids of the supply. */
  lemma {:induction false} DuplicateIds(ns: seq<Node>, nodeId: string, gen: nat -> string, k: nat, now: int)
    requires Occurs(ns, nodeId) == 1
    ensures multiset(AllIds(Duplicate(ns, nodeId, gen, k, now))) ==
            multiset(AllIds(ns)) + multiset(Fresh(gen, k, Count([Find(ns, nodeId).value])))
  {
    var n := ns[0];
    OccursCons(ns, nodeId);
    FindCons(ns, nodeId);
    if n.id == nodeId {
      DuplicateIdsHit(ns, nodeId, gen, k, now);
    } else if Occurs(n.children, nodeId) == 1 {
      OccursZero(ns[1..], nodeId);
      OccursZero(n.children, nodeId);
      DuplicateIds(n.children, nodeId, gen, k, now);
      DuplicateIdsChild(ns, nodeId, gen, k, now, multiset(Fresh(gen, k, Count([Find(n.children, nodeId).value]))));
    } else {
      OccursZero(n.children, nodeId);
      OccursZero(ns[1..], nodeId);
      DuplicateIds(ns[1..], nodeId, gen, k, now);
      DuplicateIdsRest(ns, nodeId, gen, k, now, multiset(Fresh(gen, k, Count([Find(ns[1..], nodeId).value]))));
    }
  }

  lemma {:induction false} DuplicateIdsHit(ns: seq<Node>, nodeId: string, gen: nat -> string, k: nat, now: int)
    requires ns != [] && ns[0].id == nodeId && nodeId !in AllIds(ns[1..])
    ensures multiset(AllIds(Duplicate(ns, nodeId, gen, k, now))) ==
            multiset(AllIds(ns)) + multiset(Fresh(gen, k, Count([ns[0]])))
  {
    var n := ns[0];
    var c := Clone(n, gen, k, now);
    var rest := ns[1..];
    assert Duplicate(ns, nodeId, gen, k, now) == [n] + ([c] + rest) by {
      DuplicateHit(ns, nodeId, gen, k, now);
      DuplicateUnknown(rest, nodeId, gen, k + 1 + Count(n.children), now);
    }
    assert AllIds([n] + ([c] + rest)) == [n.id] + AllIds(n.children) + (AllIds([c]) + AllIds(rest)) by {
      AllIdsConsOf(n, [c] + rest);
      AllIdsAppend([c], rest);
    }
    assert AllIds([c]) == Fresh(gen, k, Count([n])) by {
      assert CloneAll([n], gen, k, now) == [c];
      CloneAllIds([n], gen, k, now);
    }
    assert AllIds(ns) == [n.id] + AllIds(n.children) + AllIds(rest) by {
      assert ns == [n] + rest;
      AllIdsConsOf(n, rest);
    }
    MultisetRegroup([n.id], AllIds(n.children), AllIds([c]), AllIds(rest));
  }

  lemma MultisetRegroup<T>(a: seq<T>, b: seq<T>, c: seq<T>, d: seq<T>)
    ensures multiset(a + b + (c + d)) == multiset(a + b + d) + multiset(c)
  {
  }

  lemma {:induction false} DuplicateIdsChild(ns: seq<Node>, nodeId: string, gen: nat -> string, k: nat, now: int, f: multiset<string>)
    requires ns != [] && ns[0].id != nodeId && nodeId !in AllIds(ns[1..])
    requires multiset(AllIds(Duplicate(ns[0].children, nodeId, gen, k, now))) == multiset(AllIds(ns[0].children)) + f
    ensures multiset(AllIds(Duplicate(ns, nodeId, gen, k, now))) == multiset(AllIds(ns)) + f
  {
    var n := ns[0];
    var rest := ns[1..];
    var dc := Duplicate(n.children, nodeId, gen, k, now);
    assert multiset(AllIds(Duplicate(ns, nodeId, gen, k, now))) ==
           multiset([n.id]) + multiset(AllIds(rest)) + multiset(AllIds(dc)) by {
      DuplicateDescend(ns, nodeId, gen, k, now);
      AllIdsConsOf(n.(children := dc), rest);
      MultisetOfThree([n.id], AllIds(dc), AllIds(rest));
    }
    assert multiset(AllIds(ns)) == multiset([n.id]) + multiset(AllIds(rest)) + multiset(AllIds(n.children)) by {
      assert ns == [n] + rest;
      AllIdsConsOf(n, rest);
      MultisetOfThree([n.id], AllIds(n.children), AllIds(rest));
    }
    MultisetShift(multiset([n.id]) + multiset(AllIds(rest)), multiset(AllIds(dc)), multiset(AllIds(n.children)), f);
  }

  lemma {:induction false} DuplicateIdsRest(ns: seq<Node>, nodeId: string, gen: nat -> string, k: nat, now: int, f: multiset<string>)
    requires ns != [] && ns[0].id != nodeId && nodeId !in AllIds(ns[0].children)
    requires multiset(AllIds(Duplicate(ns[1..], nodeId, gen, k, now))) == multiset(AllIds(ns[1..])) + f
    ensures multiset(AllIds(Duplicate(ns, nodeId, gen, k, now))) == multiset(AllIds(ns)) + f
  {
    var n := ns[0];
    var rest := ns[1..];
    var dr := Duplicate(rest, nodeId, gen, k, now);
    assert multiset(AllIds(Duplicate(ns, nodeId, gen, k, now))) ==
           multiset([n.id]) + multiset(AllIds(n.children)) + multiset(AllIds(dr)) by {
      DuplicateSkip(ns, nodeId, gen, k, now);
      AllIdsConsOf(n, dr);
      MultisetOfThree([n.id], AllIds(n.children), AllIds(dr));
    }
    assert multiset(AllIds(ns)) == multiset([n.id]) + multiset(AllIds(n.children)) + multiset(AllIds(rest)) by {
      assert ns == [n] + rest;
      AllIdsConsOf(n, rest);
      MultisetOfThree([n.id], AllIds(n.children), AllIds(rest));
    }
    MultisetShift(multiset([n.id]) + multiset(AllIds(n.children)), multiset(AllIds(dr)), multiset(AllIds(rest)), f);
  }

  // ---------------------------------------------------------------------
  // moveNodeInTree
  // ---------------------------------------------------------------------

  /** `isChildOfMovingNode`: `t` is the id of `n` or of one of its
      descendants. */
  predicate IsWithin(n: Node, t: string) {
    n.id == t || exists i :: 0 <= i < |n.children| && IsWithin(n.children[i], t)
  }

  lemma {:induction false} WithinAny(cs: seq<Node>, t: string)
    ensures t in AllIds(cs) <==> exists i :: 0 <= i < |cs| && IsWithin(cs[i], t)
  {
    if cs != [] {
      AllIdsCons(cs);
      WithinAny(cs[0].children, t);
      WithinAny(cs[1..], t);
      if exists i :: 0 <= i < |cs[1..]| && IsWithin(cs[1..][i], t) {
        var i :| 0 <= i < |cs[1..]| && IsWithin(cs[1..][i], t);
        assert IsWithin(cs[i + 1], t);
      }
      if exists i :: 0 <= i < |cs| && IsWithin(cs[i], t) {
        var i :| 0 <= i < |cs| && IsWithin(cs[i], t);
        if i > 0 {
          assert IsWithin(cs[1..][i - 1], t);
        }
      }
    }
  }

  /** The recursive check agrees with membership among the subtree's ids. */
  lemma IsWithinIds(n: Node, t: string)
    ensures IsWithin(n, t) <==> t in AllIds([n])
  {
    WithinAny([n], t);
  }

  /** A missing node leaves the forest as it is; a folder dropped into its
      own subtree (with a truthy target) is refused; otherwise the node is
      deleted and re-added, with its `parentId` set to the target, under the
      target, or at the roots when the target is `null`. */
  function Move(ns: seq<Node>, nodeId: string, newParentId: Option<string>, now: int): seq<Node> {
    match Find(ns, nodeId)
    case None => ns
    case Some(m) =>
      if Truthy(newParentId) && m.kind == Folder && IsWithin(m, newParentId.value) then ns
      else AddChild(Delete(ns, nodeId), newParentId, m.(parentId := newParentId), now)
  }

  lemma SameIds(m: Node, p: Option<string>)
    ensures AllIds([m.(parentId := p)]) == AllIds([m])
  {
    AllIdsCons([m]);
    AllIdsCons([m.(parentId := p)]);
  }

  /** A missing node, or a folder dropped onto itself or into its own
      subtree under a truthy target id, leaves the forest as it was. */
  lemma MoveRefused(ns: seq<Node>, nodeId: string, t: string, now: int)
    ensures nodeId !in AllIds(ns) ==> Move(ns, nodeId, Some(t), now) == ns && Move(ns, nodeId, None, now) == ns
    ensures (Find(ns, nodeId).Some? && Find(ns, nodeId).value.kind == Folder && t != "" &&
             t in AllIds([Find(ns, nodeId).value])) ==> Move(ns, nodeId, Some(t), now) == ns
  {
    if Find(ns, nodeId).Some? {
      IsWithinIds(Find(ns, nodeId).value, t);
    }
  }

  /** Moving a node of a forest with unique ids to the roots appends it
      last, and no id is lost or gained. */
  lemma MoveToRoot(ns: seq<Node>, nodeId: string, now: int)
    requires Occurs(ns, nodeId) == 1
    ensures var m := Find(ns, nodeId).value;
            Move(ns, nodeId, None, now) == Delete(ns, nodeId) + [m.(parentId := None)]
    ensures multiset(AllIds(Move(ns, nodeId, None, now))) == multiset(AllIds(ns))
  {
    var m := Find(ns, nodeId).value;
    DeleteSubtree(ns, nodeId);
    AllIdsAppend(Delete(ns, nodeId), [m.(parentId := None)]);
    SameIds(m, None);
  }

  /** Moving a node under a target outside its own subtree makes it the
      target's last child, with `parentId` naming the target; no id is lost
      or gained. */
  lemma MoveIntoTarget(ns: seq<Node>, nodeId: string, t: string, now: int)
    requires Occurs(ns, nodeId) == 1 && Occurs(ns, t) == 1
    requires t !in AllIds([Find(ns, nodeId).value])
    ensures var m := Find(ns, nodeId).value;
            var p := Find(Move(ns, nodeId, Some(t), now), t);
            p.Some? && p.value.children != [] &&
            p.value.children[|p.value.children| - 1] == m.(parentId := Some(t))
    ensures multiset(AllIds(Move(ns, nodeId, Some(t), now))) == multiset(AllIds(ns))
  {
    var m := Find(ns, nodeId).value;
    var d := Delete(ns, nodeId);
    var m' := m.(parentId := Some(t));
    IsWithinIds(m, t);
    DeleteSubtree(ns, nodeId);
    assert Occurs(d, t) == 1;
    assert Move(ns, nodeId, Some(t), now) == AddUnder(d, t, m', now);
    FindAfterAdd(d, t, m', now);
    AddUnderIds(d, t, m', now);
    SameIds(m, Some(t));
  }

  /** The guard covers folders only: a note or todo dropped into its own
      subtree is deleted and then finds no parent to be added to, so the
      whole subtree is lost. */
  lemma MoveIntoOwnSubtreeDrops(ns: seq<Node>, nodeId: string, t: string, now: int)
    requires Occurs(ns, nodeId) == 1 && Occurs(ns, t) == 1
    requires Find(ns, nodeId).value.kind != Folder
    requires t in AllIds([Find(ns, nodeId).value])
    ensures Move(ns, nodeId, Some(t), now) == Delete(ns, nodeId)
    ensures nodeId !in AllIds(Move(ns, nodeId, Some(t), now))
  {
    var m := Find(ns, nodeId).value;
    var d := Delete(ns, nodeId);
    DeleteSubtree(ns, nodeId);
    assert t !in AllIds(d);
    AddUnknown(d, t, m.(parentId := Some(t)), now);
    DeleteRemoves(ns, nodeId);
  }

  /** A target id that names no node: the node is deleted, no parent is
      found to add it to, and so its whole subtree is lost. */
  lemma MoveToMissingDrops(ns: seq<Node>, nodeId: string, t: string, now: int)
    requires Occurs(ns, nodeId) == 1 && t !in AllIds(ns)
    ensures Move(ns, nodeId, Some(t), now) == Delete(ns, nodeId)
    ensures nodeId !in AllIds(Move(ns, nodeId, Some(t), now))
  {
    var m := Find(ns, nodeId).value;
    var d := Delete(ns, nodeId);
    DeleteSubtree(ns, nodeId);
    assert multiset(AllIds(ns))[t] == 0;
    assert t !in AllIds(d) && t !in AllIds([m]);
    IsWithinIds(m, t);
    AddUnknown(d, t, m.(parentId := Some(t)), now);
    DeleteRemoves(ns, nodeId);
  }

  /** Any other node, outside the moved subtree and holding neither the
      moved node nor the target in its own subtree, is found unchanged
      after the move. */
  lemma MoveLeavesOthers(ns: seq<Node>, nodeId: string, newParentId: Option<string>, now: int, x: string)
    requires Occurs(ns, nodeId) == 1 && Find(ns, x).Some?
    requires x !in AllIds([Find(ns, nodeId).value])
    requires nodeId !in AllIds([Find(ns, x).value])
    requires newParentId.Some? ==> newParentId.value !in AllIds([Find(ns, x).value])
    ensures Find(Move(ns, nodeId, newParentId, now), x) == Find(ns, x)
  {
    var m := Find(ns, nodeId).value;
    if !(Truthy(newParentId) && m.kind == Folder && IsWithin(m, newParentId.value)) {
      var d := Delete(ns, nodeId);
      var m' := m.(parentId := newParentId);
      RemovedSingle(ns, nodeId);
      FindOtherAfterDelete(ns, nodeId, x);
      SameIds(m, newParentId);
      if newParentId.None? {
        FindAppend(d, [m'], x);
      } else {
        FindOtherAfterAdd(d, newParentId.value, m', now, x);
      }
    }
  }

  /** The node `findNode` returns has linked children. */
  lemma {:induction false} FindLinked(ns: seq<Node>, parent: Option<string>, id: string)
    requires ParentsLinked(ns, parent) && Find(ns, id).Some?
    ensures ParentsLinked(Find(ns, id).value.children, Some(Find(ns, id).value.id))
  {
    var n := ns[0];
    FindCons(ns, id);
    assert n.parentId == parent && ParentsLinked(n.children, Some(n.id));
    if n.id != id {
      if Find(n.children, id).Some? {
        FindLinked(n.children, Some(n.id), id);
      } else {
        assert ParentsLinked(ns[1..], parent) by {
          forall i | 0 <= i < |ns[1..]| ensures ns[1..][i].parentId == parent && ParentsLinked(ns[1..][i].children, Some(ns[1..][i].id)) {
            assert ns[1..][i] == ns[i + 1];
          }
        }
        FindLinked(ns[1..], parent, id);
      }
    }
  }

  /** A move keeps every `parentId` naming the node that holds it. */
  lemma MoveLinked(ns: seq<Node>, nodeId: string, newParentId: Option<string>, now: int)
    requires ParentsLinked(ns, None)
    ensures ParentsLinked(Move(ns, nodeId, newParentId, now), None)
  {
    match Find(ns, nodeId)
    case None =>
    case Some(m) =>
      if !(Truthy(newParentId) && m.kind == Folder && IsWithin(m, newParentId.value)) {
        FindLinked(ns, None, nodeId);
        DeleteLinked(ns, None, nodeId);
        AddChildLinked(Delete(ns, nodeId), newParentId, m.(parentId := newParentId), now);
      }
  }
}
