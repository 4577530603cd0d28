/** The starting forest of constants.ts. */
module Fixture {
  import opened Wrappers
  import opened Types
  import opened Tree
  import opened Todos

  /** A folder with none of the optional fields set. */
  function Folder(id: string, parentId: Option<string>, title: string, content: string,
                  children: seq<Node>, now: int, tags: seq<string>): (r: Node)
    ensures r.kind == Types.Folder && r.id == id && r.parentId == parentId && r.title == title
    ensures r.children == children
  {
    Node(id, parentId, Types.Folder, title, content, children, None, now, now, tags,
         None, None, None, None, None, None, None, None, None, None)
  }

  /** `INITIAL_NODES`, every timestamp being the `Date.now()` of loading. */
  function InitialNodes(now: int): seq<Node> {
    [Folder("root-1", None, "My Projects", "",
            [Folder("p-1", Some("root-1"), "Learn React Native",
                    "# Learning Plan\nGoal is to build a mobile app.", [], now, ["coding", "mobile"])],
            now, []),
     Folder("root-2", None, "Inbox", "", [], now, [])]
  }

  lemma InitialFlatten(now: int)
    ensures Flatten(InitialNodes(now)) == [InitialNodes(now)[0], InitialNodes(now)[0].children[0], InitialNodes(now)[1]]
  {
    var ns := InitialNodes(now);
    var p := ns[0].children;
    assert p[1..] == [] && Flatten(p) == [p[0]] by {
      assert Flatten(p[0].children) == [];
    }
    var rest := ns[1..];
    assert rest[1..] == [];
    assert Flatten(rest) == [ns[1]];
  }

  /** The three initial ids, each once. */
  lemma InitialIds(now: int)
    ensures AllIds(InitialNodes(now)) == ["root-1", "p-1", "root-2"]
    ensures UniqueIds(InitialNodes(now))
  {
    InitialFlatten(now);
    var ids := AllIds(InitialNodes(now));
    assert ids == ["root-1", "p-1", "root-2"];
    assert "root-1" != "p-1" && "p-1" != "root-2" && "root-1" != "root-2";
    forall x ensures multiset(ids)[x] <= 1 {
      assert multiset(ids) == multiset{"root-1", "p-1", "root-2"};
    }
  }

  /** Roots have no parent and `p-1` names `root-1`, the folder that holds it. */
  lemma InitialLinked(now: int)
    ensures ParentsLinked(InitialNodes(now), None)
  {
    var ns := InitialNodes(now);
    assert ParentsLinked(ns[0].children[0].children, Some("p-1"));
    assert ParentsLinked(ns[0].children, Some("root-1"));
    assert ParentsLinked(ns[1].children, Some("root-2"));
  }

  /** A top-level folder titled `Inbox` exists, and it is the second root. */
  lemma InitialInbox(now: int)
    ensures exists i :: (0 <= i < |InitialNodes(now)| &&
                         InitialNodes(now)[i].title == "Inbox" && InitialNodes(now)[i].kind == Types.Folder)
  {
    assert InitialNodes(now)[1].title == "Inbox";
  }

  /** Every initial node is a folder, so there are no to-dos. */
  lemma InitialNoTodos(now: int)
    ensures GetAllTodos(InitialNodes(now)) == []
  {
    InitialFlatten(now);
    var f := Flatten(InitialNodes(now));
    assert forall i :: 0 <= i < |f| ==> f[i].kind == Types.Folder;
  }
}
