/** The list choice and quick add of components/TodoSection.tsx. */
module TodoSection {
  import opened Wrappers
  import opened Seqs
  import opened Strs
  import opened Types
  import opened Tree
  import opened Edits
  import opened Todos
  import opened App

  /** The 'all' view is newest first; every other view by priority. */
  function SortFor(filter: FilterType): SortBy {
    if filter == All then ByCreated else ByPriority
  }

  /** `filteredTodos`: the to-dos of the tree the filter keeps, sorted as
      the view asks. */
  function VisibleTodos(ns: seq<Node>, filter: FilterType, today: string): (r: seq<Node>)
    ensures multiset(r) == multiset(FilterTodos(GetAllTodos(ns), filter, today))
    ensures Sorted(SortFor(filter), r)
  {
    SortTodos(FilterTodos(GetAllTodos(ns), filter, today), SortFor(filter))
  }

  /** Every listed entry is a to-do of the tree that the filter keeps, and
      every such to-do is listed. */
  lemma VisibleTodosMembers(ns: seq<Node>, filter: FilterType, today: string, m: Node)
    ensures m in VisibleTodos(ns, filter, today) <==>
      Reachable(ns, m) && m.kind == Todo && Keeps(filter, today, m)
  {
    var all := GetAllTodos(ns);
    var f := FilterTodos(all, filter, today);
    AllTodosMembers(ns, m);
    assert m in VisibleTodos(ns, filter, today) <==> m in multiset(f);
    if m in f {
      var i :| 0 <= i < |f| && f[i] == m;
    }
    if m in all && Keeps(filter, today, m) {
      var i :| 0 <= i < |all| && all[i] == m;
    }
  }

  function IsInbox(): Node -> bool {
    (n: Node) => n.title == "Inbox" && n.kind == Types.Folder
  }

  /** `nodes.find(n => n.title === 'Inbox' && n.type === 'folder')`: the
      roots only. */
  function FindInbox(ns: seq<Node>): (r: Option<Node>)
    ensures r.Some? ==> r.value in ns && r.value.title == "Inbox" && r.value.kind == Types.Folder
    ensures r.None? <==> forall i :: 0 <= i < |ns| ==> !(ns[i].title == "Inbox" && ns[i].kind == Types.Folder)
  {
    First(ns, IsInbox())
  }

  /** The patch quick add passes to `onCreateNode`.  The `dueDate` key is
      always present; outside the 'today' view it holds `undefined`. */
  function QuickAddPatch(title: string, filter: FilterType, today: string): Patch {
    EmptyPatch.(title := Some(title), priority := Some(Some(Medium)),
                dueDate := Some(if filter == Today then Some(today) else None))
  }

  /** `handleQuickAdd`: nothing for a blank title; otherwise a to-do
      created at the Inbox, or with a null parent when there is none. */
  function QuickAdd(s: AppState, filter: FilterType, title: string, today: string, id: string, now: int): (r: AppState)
    ensures IsBlank(title) ==> r == s
  {
    if IsBlank(title) then s
    else
      var parent := if FindInbox(s.nodes).Some? then Some(FindInbox(s.nodes).value.id) else None;
      CreateNode(s, Todo, parent, QuickAddPatch(title, filter, today), id, now)
  }

  /** The quick-added to-do is open, of medium priority, titled as typed,
      and due today exactly in the 'today' view. */
  lemma QuickAddedTodo(parent: Option<string>, title: string, filter: FilterType, today: string, id: string, now: int)
    ensures var n := NewNode(Todo, parent, QuickAddPatch(title, filter, today), id, now);
      n.kind == Todo && n.title == title && n.priority == Some(Medium) && n.completed == Some(false) &&
      n.id == id && n.children == [] && (n.dueDate == Some(today) <==> filter == Today) &&
      (filter != Today ==> n.dueDate.None?)
  {
    NewNodeOverrides(Todo, parent, QuickAddPatch(title, filter, today), id, now);
  }

  /** With an Inbox whose id is not empty the to-do goes into it.  With no
      Inbox the parent is null, and the create handler then falls back to
      the active folder, or the root. */
  lemma QuickAddTarget(s: AppState, filter: FilterType, title: string, today: string)
    ensures FindInbox(s.nodes).Some? && FindInbox(s.nodes).value.id != "" ==>
      CreateTarget(s, Some(FindInbox(s.nodes).value.id)) == Some(FindInbox(s.nodes).value.id)
    ensures FindInbox(s.nodes).None? && !Truthy(s.activeNodeId) ==> CreateTarget(s, None).None?
  {
  }

  /** The quick-add bar is not shown in the 'completed' view. */
  predicate QuickAddOffered(filter: FilterType) {
    filter != Completed
  }

  /** A to-do added from a view that shows the bar is open, so the 'all'
      view lists it, and one added from the 'today' view is listed there. */
  lemma QuickAddedShowsInAll(parent: Option<string>, title: string, filter: FilterType, today: string, id: string, now: int)
    requires QuickAddOffered(filter)
    ensures Keeps(All, today, NewNode(Todo, parent, QuickAddPatch(title, filter, today), id, now))
    ensures filter == Today ==> Keeps(Today, today, NewNode(Todo, parent, QuickAddPatch(title, filter, today), id, now))
  {
    QuickAddedTodo(parent, title, filter, today, id, now);
  }
}
