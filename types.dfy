/** The records of the application (types.ts) as datatypes.  A field the
    source marks optional (`field?: T`) is an `Option<T>`; a field typed
    `T | null` is an `Option<T>` too, with None for null. */
module Types {
  import opened Wrappers

  /** The four kinds of node. */
  datatype NodeType = Folder | Note | Todo | Session

  /** The four todo priorities. */
  datatype Priority = Low | Medium | High | Urgent

  datatype Subtask = Subtask(id: string, title: string, completed: bool)

  datatype Frequency = Daily | Weekly | Monthly | Yearly

  datatype RecurringConfig = RecurringConfig(frequency: Frequency, interval: int, endDate: Option<string>)

  /** A node of the knowledge tree; it owns the ordered list of its children.
      The source's field `type` is called `kind` here. */
  datatype Node = Node(
    id: string,
    parentId: Option<string>,
    kind: NodeType,
    title: string,
    content: string,
    children: seq<Node>,
    completed: Option<bool>,
    createdAt: int,
    updatedAt: int,
    tags: seq<string>,
    sessionDuration: Option<int>,
    priority: Option<Priority>,
    dueDate: Option<string>,
    dueTime: Option<string>,
    completedAt: Option<int>,
    estimatedMinutes: Option<int>,
    actualMinutes: Option<int>,
    subtasks: Option<seq<Subtask>>,
    notes: Option<string>,
    recurring: Option<RecurringConfig>)

  /** A `Partial<KnowledgeNode>` as handed to the update and create helpers.
      For a required field, None means the key is absent.  For an optional
      field the outer Option says whether the key is present at all and the
      inner one holds its value, so `Some(None)` is a key explicitly set to
      `undefined`, which object spread copies over the old value. */
  datatype Patch = Patch(
    id: Option<string>,
    parentId: Option<Option<string>>,
    kind: Option<NodeType>,
    title: Option<string>,
    content: Option<string>,
    children: Option<seq<Node>>,
    completed: Option<Option<bool>>,
    createdAt: Option<int>,
    updatedAt: Option<int>,
    tags: Option<seq<string>>,
    sessionDuration: Option<Option<int>>,
    priority: Option<Option<Priority>>,
    dueDate: Option<Option<string>>,
    dueTime: Option<Option<string>>,
    completedAt: Option<Option<int>>,
    estimatedMinutes: Option<Option<int>>,
    actualMinutes: Option<Option<int>>,
    subtasks: Option<Option<seq<Subtask>>>,
    notes: Option<Option<string>>,
    recurring: Option<Option<RecurringConfig>>)

  /** The object literal `{}`. */
  const EmptyPatch := Patch(None, None, None, None, None, None, None, None, None, None,
                            None, None, None, None, None, None, None, None, None, None)

  function Pick<T>(update: Option<T>, current: T): T {
    if update.Some? then update.value else current
  }

  /** `{ ...node, ...patch }`: every key present in the patch wins. */
  function Merge(n: Node, p: Patch): (r: Node)
    ensures p.title.None? ==> r.title == n.title
    ensures p.children.None? ==> r.children == n.children
    ensures p.id.Some? ==> r.id == p.id.value
  {
    Node(Pick(p.id, n.id), Pick(p.parentId, n.parentId), Pick(p.kind, n.kind),
         Pick(p.title, n.title), Pick(p.content, n.content), Pick(p.children, n.children),
         Pick(p.completed, n.completed), Pick(p.createdAt, n.createdAt),
         Pick(p.updatedAt, n.updatedAt), Pick(p.tags, n.tags),
         Pick(p.sessionDuration, n.sessionDuration), Pick(p.priority, n.priority),
         Pick(p.dueDate, n.dueDate), Pick(p.dueTime, n.dueTime),
         Pick(p.completedAt, n.completedAt), Pick(p.estimatedMinutes, n.estimatedMinutes),
         Pick(p.actualMinutes, n.actualMinutes), Pick(p.subtasks, n.subtasks),
         Pick(p.notes, n.notes), Pick(p.recurring, n.recurring))
  }

  lemma MergeEmpty(n: Node)
    ensures Merge(n, EmptyPatch) == n
  {
  }

  /** JavaScript truthiness of a `string | null | undefined`: present and non-empty. */
  predicate Truthy(s: Option<string>) {
    s.Some? && s.value != ""
  }

  /** JavaScript truthiness of `completed?: boolean`. */
  predicate IsCompleted(n: Node) {
    n.completed == Some(true)
  }

  datatype SessionData = SessionData(isActive: bool, startTime: Option<int>, elapsed: int,
                                     linkedNodeId: Option<string>)

  datatype View = Dashboard | Browser | SearchView | Todos

  datatype Theme = Light | Dark

  datatype AppState = AppState(
    nodes: seq<Node>,
    activeNodeId: Option<string>,
    expandedNodeIds: seq<string>,
    sidebarOpen: bool,
    currentView: View,
    session: SessionData,
    theme: Theme,
    searchQuery: string)
}
