/** The `setState` reducers of App.tsx.  Each takes the previous
    `AppState` and the values the handler reads from its surroundings (the
    fresh id, `Date.now()`, whether the window is wide) and gives the next
    state. */
module App {
  import opened Wrappers
  import opened Seqs
  import opened Strs
  import opened Types
  import opened Tree
  import opened Edits
  import opened Fixture

  /** The state the component starts from, before anything is loaded. */
  function InitialState(now: int): AppState {
    AppState(InitialNodes(now), None, ["root-1"], true, Dashboard,
             SessionData(false, None, 0, None), Light, "")
  }

  /** The starting state shows the dashboard with no active node and no
      session, and the one expanded id is the `My Projects` folder. */
  lemma InitialStateShape(now: int)
    ensures InitialState(now).activeNodeId.None? && InitialState(now).currentView == Dashboard
    ensures !InitialState(now).session.isActive && InitialState(now).session.elapsed == 0
    ensures forall i :: 0 <= i < |InitialState(now).expandedNodeIds| ==>
      Find(InitialState(now).nodes, InitialState(now).expandedNodeIds[i]).Some? &&
      Find(InitialState(now).nodes, InitialState(now).expandedNodeIds[i]).value.kind == Types.Folder
  {
    var ns := InitialNodes(now);
    FindCons(ns, "root-1");
  }

  // ---------------------------------------------------------------------
  // Persistence: the search query is neither saved nor restored
  // ---------------------------------------------------------------------

  /** What is written to storage: the state without `searchQuery`. */
  datatype PersistedState = PersistedState(
    nodes: seq<Node>,
    activeNodeId: Option<string>,
    expandedNodeIds: seq<string>,
    sidebarOpen: bool,
    currentView: View,
    session: SessionData,
    theme: Theme)

  /** `const { searchQuery, ...persistedState } = state`. */
  function Save(s: AppState): PersistedState {
    PersistedState(s.nodes, s.activeNodeId, s.expandedNodeIds, s.sidebarOpen, s.currentView, s.session, s.theme)
  }

  /** The load effect: a stored state replaces the current one, with the
      query cleared; nothing stored keeps the current state. */
  function Load(stored: Option<PersistedState>, current: AppState): (r: AppState)
    ensures stored.Some? ==> r.searchQuery == ""
    ensures stored.None? ==> r == current
  {
    match stored
    case None => current
    case Some(p) => AppState(p.nodes, p.activeNodeId, p.expandedNodeIds, p.sidebarOpen, p.currentView, p.session, p.theme, "")
  }

  /** Saving and loading back gives the state with an empty query. */
  lemma LoadSave(s: AppState, current: AppState)
    ensures Load(Some(Save(s)), current) == s.(searchQuery := "")
  {
  }

  /** Loading and saving back writes what was stored. */
  lemma SaveLoad(p: PersistedState, current: AppState)
    ensures Save(Load(Some(p), current)) == p
  {
  }

  // ---------------------------------------------------------------------
  // handleToggleExpand
  // ---------------------------------------------------------------------

  function NotId(id: string): string -> bool {
    (e: string) => e != id
  }

  /** `includes(id) ? filter(eid => eid !== id) : [...ids, id]`. */
  function Toggle(ids: seq<string>, id: string): (r: seq<string>)
    ensures id in r <==> id !in ids
    ensures forall x :: x != id ==> (x in r <==> x in ids)
    ensures id in ids ==> IsSubsequence(r, ids)
  {
    if id in ids then Filter(ids, NotId(id)) else ids + [id]
  }

  /** Toggling an id that is not expanded, then toggling it again, gives
      back the list. */
  lemma ToggleTwice(ids: seq<string>, id: string)
    requires id !in ids
    ensures Toggle(Toggle(ids, id), id) == ids
  {
    FilterAppend(ids, [id], NotId(id));
    FilterAll(ids, NotId(id));
    assert [id][1..] == [];
  }

  /** `handleToggleExpand`: only the expanded list changes, and in it only
      the membership of `id`. */
  function ToggleExpand(s: AppState, id: string): (r: AppState)
    ensures id in r.expandedNodeIds <==> id !in s.expandedNodeIds
    ensures forall x :: x != id ==> (x in r.expandedNodeIds <==> x in s.expandedNodeIds)
    ensures r.expandedNodeIds == Toggle(s.expandedNodeIds, id)
    ensures r.(expandedNodeIds := s.expandedNodeIds) == s
  {
    s.(expandedNodeIds := Toggle(s.expandedNodeIds, id))
  }

  // ---------------------------------------------------------------------
  // handleCreateNode
  // ---------------------------------------------------------------------

  /** The node literal built before `...initialData` is spread over it. */
  function Defaults(kind: NodeType, parentId: Option<string>, id: string, now: int): (r: Node)
    ensures r.title == (if kind == Session then "Learning Session" else "")
    ensures kind == Todo ==> r.completed == Some(false) && r.priority == Some(Medium)
    ensures kind != Todo ==> r.completed.None? && r.priority.None?
    ensures r.id == id && r.parentId == parentId && r.children == [] && r.content == ""
  {
    Node(id, parentId, kind, if kind == Session then "Learning Session" else "", "", [],
         if kind == Todo then Some(false) else None, now, now, [], None,
         if kind == Todo then Some(Medium) else None, None, None, None, None, None, None, None, None)
  }

  function NewNode(kind: NodeType, parentId: Option<string>, initialData: Patch, id: string, now: int): Node {
    Merge(Defaults(kind, parentId, id, now), initialData)
  }

  /** Every field `initialData` sets overrides the defaults, and with no
      initial data the defaults stand. */
  lemma NewNodeOverrides(kind: NodeType, parentId: Option<string>, initialData: Patch, id: string, now: int)
    ensures initialData.title.Some? ==> NewNode(kind, parentId, initialData, id, now).title == initialData.title.value
    ensures initialData.completed.Some? ==> NewNode(kind, parentId, initialData, id, now).completed == initialData.completed.value
    ensures initialData.priority.Some? ==> NewNode(kind, parentId, initialData, id, now).priority == initialData.priority.value
    ensures initialData.parentId.None? ==> NewNode(kind, parentId, initialData, id, now).parentId == parentId
    ensures initialData == EmptyPatch ==> NewNode(kind, parentId, initialData, id, now) == Defaults(kind, parentId, id, now)
  {
    MergeEmpty(Defaults(kind, parentId, id, now));
  }

  /** `parentId || (activeNodeId && findNode(...)?.type === 'folder' ? activeNodeId : null)`. */
  function CreateTarget(s: AppState, parentId: Option<string>): Option<string> {
    if Truthy(parentId) then parentId
    else if Truthy(s.activeNodeId) && Find(s.nodes, s.activeNodeId.value).Some? &&
            Find(s.nodes, s.activeNodeId.value).value.kind == Types.Folder
    then s.activeNodeId
    else None
  }

  /** The target is the given parent when there is one, else the active
      node when it is a folder, else the root. */
  lemma CreateTargetResolution(s: AppState, parentId: Option<string>)
    ensures Truthy(parentId) ==> CreateTarget(s, parentId) == parentId
    ensures !Truthy(parentId) ==>
      (CreateTarget(s, parentId).Some? <==>
         Truthy(s.activeNodeId) && Find(s.nodes, s.activeNodeId.value).Some? &&
         Find(s.nodes, s.activeNodeId.value).value.kind == Types.Folder)
    ensures CreateTarget(s, parentId).Some? ==> Truthy(CreateTarget(s, parentId))
  {
  }

  /** `handleCreateNode`.  `initialData` is an object and so always
      truthy: the view never changes. */
  function CreateNode(s: AppState, kind: NodeType, parentId: Option<string>, initialData: Patch,
                      id: string, now: int): (r: AppState)
    ensures r.activeNodeId == Some(NewNode(kind, parentId, initialData, id, now).id)
    ensures r.currentView == s.currentView
    ensures Truthy(CreateTarget(s, parentId)) ==> r.expandedNodeIds == s.expandedNodeIds + [CreateTarget(s, parentId).value]
    ensures !Truthy(CreateTarget(s, parentId)) ==> r.expandedNodeIds == s.expandedNodeIds
    ensures r.(nodes := s.nodes, activeNodeId := s.activeNodeId, expandedNodeIds := s.expandedNodeIds) == s
  {
    var n := NewNode(kind, parentId, initialData, id, now);
    var target := CreateTarget(s, parentId);
    s.(nodes := AddChild(s.nodes, target, n, now),
       activeNodeId := Some(n.id),
       expandedNodeIds := if Truthy(target) then s.expandedNodeIds + [target.value] else s.expandedNodeIds)
  }

  /** With no target the node is appended to the roots; with a target in
      the forest it becomes the target's last child. */
  lemma CreatePlacement(s: AppState, kind: NodeType, parentId: Option<string>, initialData: Patch, id: string, now: int)
    ensures CreateTarget(s, parentId).None? ==>
      CreateNode(s, kind, parentId, initialData, id, now).nodes == s.nodes + [NewNode(kind, parentId, initialData, id, now)]
    ensures CreateTarget(s, parentId).Some? && Find(s.nodes, CreateTarget(s, parentId).value).Some? ==>
      Find(CreateNode(s, kind, parentId, initialData, id, now).nodes, CreateTarget(s, parentId).value) ==
      Some(Find(s.nodes, CreateTarget(s, parentId).value).value.(
        children := Find(s.nodes, CreateTarget(s, parentId).value).value.children + [NewNode(kind, parentId, initialData, id, now)],
        updatedAt := now))
  {
    var t := CreateTarget(s, parentId);
    if t.Some? && Find(s.nodes, t.value).Some? {
      FindAfterAdd(s.nodes, t.value, NewNode(kind, parentId, initialData, id, now), now);
    }
  }

  /** A node created without a parent while a folder is active goes into
      that folder but keeps `parentId` null. */
  lemma CreateInActiveFolderKeepsNullParent(s: AppState, kind: NodeType, id: string, now: int)
    requires Truthy(s.activeNodeId) && Find(s.nodes, s.activeNodeId.value).Some?
    requires Find(s.nodes, s.activeNodeId.value).value.kind == Types.Folder
    ensures NewNode(kind, None, EmptyPatch, id, now).parentId.None?
    ensures Find(CreateNode(s, kind, None, EmptyPatch, id, now).nodes, s.activeNodeId.value).Some?
    ensures NewNode(kind, None, EmptyPatch, id, now) in Find(CreateNode(s, kind, None, EmptyPatch, id, now).nodes, s.activeNodeId.value).value.children
  {
    NewNodeOverrides(kind, None, EmptyPatch, id, now);
    CreatePlacement(s, kind, None, EmptyPatch, id, now);
    var p := Find(s.nodes, s.activeNodeId.value).value;
    var n := NewNode(kind, None, EmptyPatch, id, now);
    assert (p.children + [n])[|p.children|] == n;
  }

  // ---------------------------------------------------------------------
  // handleDeleteNode
  // ---------------------------------------------------------------------

  /** `handleDeleteNode`: the subtree goes; the active node and the view
      are reset only when the deleted node itself was active. */
  function DeleteNode(s: AppState, id: string): (r: AppState)
    ensures id !in AllIds(r.nodes)
    ensures s.activeNodeId == Some(id) ==> r.activeNodeId.None? && r.currentView == Dashboard
    ensures s.activeNodeId != Some(id) ==> r.activeNodeId == s.activeNodeId && r.currentView == s.currentView
    ensures r.expandedNodeIds == s.expandedNodeIds && r.session == s.session
    ensures r.nodes == Delete(s.nodes, id)
    ensures r.(nodes := s.nodes, activeNodeId := s.activeNodeId, currentView := s.currentView) == s
  {
    DeleteRemoves(s.nodes, id);
    s.(nodes := Delete(s.nodes, id),
       activeNodeId := if s.activeNodeId == Some(id) then None else s.activeNodeId,
       currentView := if s.activeNodeId == Some(id) then Dashboard else s.currentView)
  }

  /** Deleting an ancestor of the active node leaves `activeNodeId`
      pointing at a node that is gone. */
  lemma DeleteAncestorLeavesActive(s: AppState, id: string, active: string)
    requires s.activeNodeId == Some(active) && active != id
    requires Occurs(s.nodes, active) == 1 && active in AllIds(Removed(s.nodes, id))
    ensures DeleteNode(s, id).activeNodeId == Some(active)
    ensures Find(DeleteNode(s, id).nodes, active).None?
  {
    DeletePartition(s.nodes, id);
    assert multiset(AllIds(Removed(s.nodes, id)))[active] >= 1;
    assert multiset(AllIds(Delete(s.nodes, id)))[active] == 0;
  }

  // ---------------------------------------------------------------------
  // Sessions
  // ---------------------------------------------------------------------

  /** `toggleSession`: pause keeps the count; resume back-dates the start
      so that the ticking count continues from `elapsed`. */
  function ToggleSession(s: AppState, now: int): (r: AppState)
    ensures r.session.isActive == !s.session.isActive
    ensures r.session.elapsed == s.session.elapsed && r.session.linkedNodeId == s.session.linkedNodeId
    ensures s.session.isActive ==> r.session.startTime == s.session.startTime
    ensures !s.session.isActive ==> r.session.startTime == Some(now - s.session.elapsed * 1000)
    ensures r.nodes == s.nodes
    ensures r.(session := s.session) == s
  {
    if s.session.isActive then s.(session := s.session.(isActive := false))
    else s.(session := s.session.(isActive := true, startTime := Some(now - s.session.elapsed * 1000)))
  }

  /** Pausing and resuming keeps the elapsed seconds and the link. */
  lemma PauseResume(s: AppState, now1: int, now2: int)
    requires s.session.isActive
    ensures ToggleSession(ToggleSession(s, now1), now2).session ==
            s.session.(startTime := Some(now2 - s.session.elapsed * 1000))
  {
  }

  /** The saved session's content. */
  function SessionContent(duration: int): string {
    "### Summary\nFocused for " + IntToString(duration / 60) + " minutes.\n\n### Key Takeaways\n- "
  }

  /** The session node of `stopAndSaveSession`; `dateLabel` stands for
      `new Date().toLocaleDateString()`. */
  function SessionNode(s: AppState, id: string, dateLabel: string, now: int): (r: Node)
    ensures r.kind == Session && r.sessionDuration == Some(s.session.elapsed) && r.children == []
  {
    var parent := if Truthy(s.session.linkedNodeId) then s.session.linkedNodeId else None;
    Node(id, parent, Session, "Session: " + dateLabel, SessionContent(s.session.elapsed), [],
         None, now, now, ["session"], Some(s.session.elapsed), None, None, None, None, None, None, None, None, None)
  }

  /** `stopAndSaveSession`. */
  function StopAndSaveSession(s: AppState, id: string, dateLabel: string, now: int): (r: AppState)
    ensures r.session == SessionData(false, None, 0, None)
    ensures r.activeNodeId == Some(id) && r.currentView == Browser
    ensures r.nodes == AddChild(s.nodes, if Truthy(s.session.linkedNodeId) then s.session.linkedNodeId else None,
                                SessionNode(s, id, dateLabel, now), now)
    ensures r.(nodes := s.nodes, activeNodeId := s.activeNodeId, currentView := s.currentView, session := s.session) == s
  {
    var target := if Truthy(s.session.linkedNodeId) then s.session.linkedNodeId else None;
    s.(nodes := AddChild(s.nodes, target, SessionNode(s, id, dateLabel, now), now),
       activeNodeId := Some(id),
       currentView := Browser,
       session := SessionData(false, None, 0, None))
  }

  /** The session is filed under the linked node when it is in the tree,
      at the root when there is no link, carrying its duration; its
      `parentId` matches where it went. */
  lemma StopFilesSession(s: AppState, id: string, dateLabel: string, now: int)
    ensures !Truthy(s.session.linkedNodeId) ==>
      StopAndSaveSession(s, id, dateLabel, now).nodes == s.nodes + [SessionNode(s, id, dateLabel, now)] &&
      SessionNode(s, id, dateLabel, now).parentId.None?
    ensures Truthy(s.session.linkedNodeId) && Find(s.nodes, s.session.linkedNodeId.value).Some? ==>
      Find(StopAndSaveSession(s, id, dateLabel, now).nodes, s.session.linkedNodeId.value) ==
      Some(Find(s.nodes, s.session.linkedNodeId.value).value.(
        children := Find(s.nodes, s.session.linkedNodeId.value).value.children + [SessionNode(s, id, dateLabel, now)],
        updatedAt := now)) &&
      SessionNode(s, id, dateLabel, now).parentId == s.session.linkedNodeId
  {
    if Truthy(s.session.linkedNodeId) && Find(s.nodes, s.session.linkedNodeId.value).Some? {
      FindAfterAdd(s.nodes, s.session.linkedNodeId.value, SessionNode(s, id, dateLabel, now), now);
    }
  }

  // ---------------------------------------------------------------------
  // handleOpenDailyJournal
  // ---------------------------------------------------------------------

  /** The `Journal` folder created when there is none. */
  function JournalFolder(id: string, now: int): Node {
    Node(id, None, Types.Folder, "Journal", "", [], None, now, now, ["journal"],
         None, None, None, None, None, None, None, None, None, None)
  }

  function DailyContent(dateTitle: string): string {
    "# Daily Log: " + dateTitle + "\n\n## \U{1F3AF} Focus for Today\n- \n\n## \U{1F4DD} Notes\n"
  }

  function DailyNote(id: string, journalId: string, dateTitle: string, now: int): Node {
    Node(id, Some(journalId), Note, dateTitle, DailyContent(dateTitle), [], None, now, now, ["daily"],
         None, None, None, None, None, None, None, None, None, None)
  }

  /** The outcome of the first half of the handler: the forest, the
      journal's id and the expanded list. */
  datatype JournalStep = JournalStep(nodes: seq<Node>, journalId: string, expanded: seq<string>)

  /** Find the root `Journal` folder, creating it with `folderId` when
      there is none, and expand it. */
  function FindOrCreateJournal(nodes: seq<Node>, expanded: seq<string>, folderId: string, now: int): JournalStep {
    match FindChildByTitle(nodes, None, "Journal")
    case None => JournalStep(AddChild(nodes, None, JournalFolder(folderId, now), now), folderId, expanded + [folderId])
    case Some(j) => JournalStep(nodes, j.id, if j.id in expanded then expanded else expanded + [j.id])
  }

  /** The outcome of the second half: the forest and the daily note's id. */
  datatype NoteStep = NoteStep(nodes: seq<Node>, noteId: string)

  /** Reuse the journal's child titled `dateTitle`, or add one with `noteId`. */
  function FindOrCreateNote(nodes: seq<Node>, journalId: string, dateTitle: string, noteId: string, now: int): NoteStep {
    var existing := if Find(nodes, journalId).Some? then First(Find(nodes, journalId).value.children, Titled(dateTitle))
                    else None;
    if existing.Some? then NoteStep(nodes, existing.value.id)
    else NoteStep(AddChild(nodes, Some(journalId), DailyNote(noteId, journalId, dateTitle, now), now), noteId)
  }

  /** The reducer of `handleOpenDailyJournal` as a function.  `folderId`
      and `noteId` are the two ids `generateId` would give, `wide` is
      `window.innerWidth >= 768`. */
  function DailyJournal(s: AppState, dateTitle: string, folderId: string, noteId: string, now: int, wide: bool): AppState {
    var j := FindOrCreateJournal(s.nodes, s.expandedNodeIds, folderId, now);
    var d := FindOrCreateNote(j.nodes, j.journalId, dateTitle, noteId, now);
    s.(nodes := d.nodes, expandedNodeIds := j.expanded, activeNodeId := Some(d.noteId),
       currentView := Browser, sidebarOpen := wide)
  }

  /** The handler as written: it reassigns `currentNodes`, `journalId`
      and `dailyNoteId` and pushes onto a copy of the expanded list. */
  method OpenDailyJournal(prev: AppState, dateTitle: string, folderId: string, noteId: string, now: int, wide: bool)
    returns (next: AppState)
    ensures next == DailyJournal(prev, dateTitle, folderId, noteId, now, wide)
  {
    var currentNodes := prev.nodes;
    var expanded := prev.expandedNodeIds;
    var journalFolder := FindChildByTitle(currentNodes, None, "Journal");
    var journalId: string;
    if journalFolder.None? {
      var newFolder := JournalFolder(folderId, now);
      currentNodes := AddChild(currentNodes, None, newFolder, now);
      journalId := newFolder.id;
      expanded := expanded + [journalId];
    } else {
      journalId := journalFolder.value.id;
      if journalId !in expanded {
        expanded := expanded + [journalId];
      }
    }
    var dailyNoteId: string;
    var freshJournal := FindNode(currentNodes, journalId);
    var existingDaily := if freshJournal.Some? then First(freshJournal.value.children, Titled(dateTitle)) else None;
    if existingDaily.Some? {
      dailyNoteId := existingDaily.value.id;
    } else {
      var newNote := DailyNote(noteId, journalId, dateTitle, now);
      currentNodes := AddChild(currentNodes, Some(journalId), newNote, now);
      dailyNoteId := newNote.id;
    }
    next := prev.(nodes := currentNodes, expandedNodeIds := expanded, activeNodeId := Some(dailyNoteId),
                  currentView := Browser, sidebarOpen := wide);
  }

  /** With unique ids and a fresh folder id, the first half leaves exactly
      one node with the journal's id and adds at most the new folder. */
  lemma JournalIds(nodes: seq<Node>, expanded: seq<string>, folderId: string, now: int)
    requires UniqueIds(nodes) && folderId !in AllIds(nodes)
    ensures var j := FindOrCreateJournal(nodes, expanded, folderId, now);
      Occurs(j.nodes, j.journalId) == 1 &&
      multiset(AllIds(nodes)) <= multiset(AllIds(j.nodes)) <= multiset(AllIds(nodes)) + multiset{folderId}
  {
    match FindChildByTitle(nodes, None, "Journal")
    case None =>
      var folder := JournalFolder(folderId, now);
      AllIdsAppend(nodes, [folder]);
      AllIdsCons([folder]);
      assert [folder][1..] == [];
    case Some(f) =>
      var i :| 0 <= i < |nodes| && nodes[i] == f;
      RootInAllIds(nodes, i);
      assert multiset(AllIds(nodes))[f.id] <= 1;
  }

  /** With one node of the journal's id, the second half adds at most the
      new note. */
  lemma NoteIds(nodes: seq<Node>, journalId: string, dateTitle: string, noteId: string, now: int)
    requires Occurs(nodes, journalId) == 1
    ensures var d := FindOrCreateNote(nodes, journalId, dateTitle, noteId, now);
      multiset(AllIds(nodes)) <= multiset(AllIds(d.nodes)) <= multiset(AllIds(nodes)) + multiset{noteId}
  {
    var d := FindOrCreateNote(nodes, journalId, dateTitle, noteId, now);
    if d.nodes != nodes {
      var note := DailyNote(noteId, journalId, dateTitle, now);
      AddUnderIds(nodes, journalId, note, now);
      AllIdsCons([note]);
      assert [note][1..] == [];
    }
  }

  /** Opening the daily journal creates at most one folder and one note:
      no id is lost, and the only ids gained are the two fresh ones. */
  lemma DailyJournalGrowth(s: AppState, dateTitle: string, folderId: string, noteId: string, now: int, wide: bool)
    requires UniqueIds(s.nodes) && folderId !in AllIds(s.nodes)
    ensures var r := DailyJournal(s, dateTitle, folderId, noteId, now, wide);
      multiset(AllIds(s.nodes)) <= multiset(AllIds(r.nodes)) <= multiset(AllIds(s.nodes)) + multiset{folderId, noteId}
    ensures |AllIds(DailyJournal(s, dateTitle, folderId, noteId, now, wide).nodes)| <= |AllIds(s.nodes)| + 2
  {
    var j := FindOrCreateJournal(s.nodes, s.expandedNodeIds, folderId, now);
    JournalIds(s.nodes, s.expandedNodeIds, folderId, now);
    NoteIds(j.nodes, j.journalId, dateTitle, noteId, now);
    var r := DailyJournal(s, dateTitle, folderId, noteId, now, wide);
    assert multiset(AllIds(r.nodes)) <= multiset(AllIds(s.nodes)) + multiset{folderId, noteId};
    SubMultisetSize(multiset(AllIds(r.nodes)), multiset(AllIds(s.nodes)) + multiset{folderId, noteId});
  }

  /** Adding under a parent leaves every root's id, parent and title
      alone, so the root search gives a folder with the same id. */
  lemma {:induction false} RootSearchAfterAdd(ns: seq<Node>, pid: string, x: Node, now: int, title: string)
    ensures First(AddUnder(ns, pid, x, now), RootTitled(title)).Some? == First(ns, RootTitled(title)).Some?
    ensures First(ns, RootTitled(title)).Some? ==>
      First(AddUnder(ns, pid, x, now), RootTitled(title)).value.id == First(ns, RootTitled(title)).value.id
  {
    if ns != [] {
      var r := AddUnder(ns, pid, x, now);
      assert r[0].id == ns[0].id && r[0].parentId == ns[0].parentId && r[0].title == ns[0].title;
      assert r[1..] == AddUnder(ns[1..], pid, x, now);
      RootSearchAfterAdd(ns[1..], pid, x, now, title);
    }
  }

  /** After the first half, the journal is found at the root under the
      same id, it is expanded and it is in the forest. */
  lemma JournalReady(nodes: seq<Node>, expanded: seq<string>, folderId: string, now: int)
    ensures var j := FindOrCreateJournal(nodes, expanded, folderId, now);
      FindChildByTitle(j.nodes, None, "Journal").Some? &&
      FindChildByTitle(j.nodes, None, "Journal").value.id == j.journalId &&
      j.journalId in j.expanded && Find(j.nodes, j.journalId).Some?
  {
    var j := FindOrCreateJournal(nodes, expanded, folderId, now);
    match FindChildByTitle(nodes, None, "Journal")
    case None =>
      var folder := JournalFolder(folderId, now);
      FirstAppend(nodes, [folder], RootTitled("Journal"));
      assert [folder][1..] == [];
      FindAppend(nodes, [folder], folderId);
      FindCons([folder], folderId);
    case Some(f) =>
      var i :| 0 <= i < |nodes| && nodes[i] == f;
      RootInAllIds(nodes, i);
  }

  /** Running the first half again on the forest the handler produced, or
      on one with a node added under some parent, changes nothing. */
  lemma JournalAgain(j: JournalStep, nodes: seq<Node>, folderId: string, now: int)
    requires FindChildByTitle(nodes, None, "Journal").Some?
    requires FindChildByTitle(nodes, None, "Journal").value.id == j.journalId
    requires j.journalId in j.expanded
    ensures FindOrCreateJournal(nodes, j.expanded, folderId, now) == JournalStep(nodes, j.journalId, j.expanded)
  {
  }

  /** After the second half the journal holds a child titled with the
      date whose id is the active one, and the second half run again
      changes nothing. */
  lemma NoteAgain(nodes: seq<Node>, journalId: string, dateTitle: string, noteId: string, now: int,
                  noteId2: string, now2: int)
    requires Find(nodes, journalId).Some?
    ensures var d := FindOrCreateNote(nodes, journalId, dateTitle, noteId, now);
      FindOrCreateNote(d.nodes, journalId, dateTitle, noteId2, now2) == d
  {
    var journal := Find(nodes, journalId).value;
    var d := FindOrCreateNote(nodes, journalId, dateTitle, noteId, now);
    if First(journal.children, Titled(dateTitle)).None? {
      var note := DailyNote(noteId, journalId, dateTitle, now);
      FindAfterAdd(nodes, journalId, note, now);
      FirstAppend(journal.children, [note], Titled(dateTitle));
      assert First([note], Titled(dateTitle)) == Some(note);
    }
  }

  /** The daily journal is idempotent: opening it a second time, with
      whatever ids and time, leaves the state as the first opening left
      it. */
  lemma DailyJournalIdempotent(s: AppState, dateTitle: string, folderId: string, noteId: string, now: int, wide: bool,
                               folderId2: string, noteId2: string, now2: int)
    ensures DailyJournal(DailyJournal(s, dateTitle, folderId, noteId, now, wide), dateTitle, folderId2, noteId2, now2, wide) ==
            DailyJournal(s, dateTitle, folderId, noteId, now, wide)
  {
    var j := FindOrCreateJournal(s.nodes, s.expandedNodeIds, folderId, now);
    JournalReady(s.nodes, s.expandedNodeIds, folderId, now);
    var d := FindOrCreateNote(j.nodes, j.journalId, dateTitle, noteId, now);
    NoteAgain(j.nodes, j.journalId, dateTitle, noteId, now, noteId2, now2);
    if d.nodes != j.nodes {
      var note := DailyNote(noteId, j.journalId, dateTitle, now);
      assert d.nodes == AddUnder(j.nodes, j.journalId, note, now);
      RootSearchAfterAdd(j.nodes, j.journalId, note, now, "Journal");
    }
    JournalAgain(j, d.nodes, folderId2, now2);
  }
}
