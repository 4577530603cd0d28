/** The to-do helpers of utils/todoHelpers.ts: collecting the to-dos of the
    tree, the six list filters, the three sort orders and the counters. */
module Todos {
  import opened Wrappers
  import opened Seqs
  import opened Strs
  import opened Types
  import opened Tree

  function IsTodo(): Node -> bool {
    (n: Node) => n.kind == Todo
  }

  /** `getAllTodos`: the to-do nodes of the forest, in pre-order. */
  function GetAllTodos(ns: seq<Node>): (r: seq<Node>)
    ensures IsSubsequence(r, Flatten(ns))
  {
    Filter(Flatten(ns), IsTodo())
  }

  /** A node is listed exactly when it is a to-do somewhere in the tree. */
  lemma AllTodosMembers(ns: seq<Node>, m: Node)
    ensures m in GetAllTodos(ns) <==> Reachable(ns, m) && m.kind == Todo
  {
    FlattenMembers(ns, m);
  }

  /** The filters of the to-do view. */
  datatype FilterType = All | Today | Upcoming | Overdue | Completed | NoDate

  /** The test of each filter.  `today` is the `YYYY-MM-DD` prefix of the
      current ISO time; dates compare as strings. */
  predicate Keeps(filter: FilterType, today: string, t: Node) {
    match filter
    case All => !IsCompleted(t)
    case Completed => IsCompleted(t)
    case Today => !IsCompleted(t) && t.dueDate == Some(today)
    case Overdue => !IsCompleted(t) && Truthy(t.dueDate) && Less(t.dueDate.value, today)
    case Upcoming => !IsCompleted(t) && Truthy(t.dueDate) && Less(today, t.dueDate.value)
    case NoDate => !IsCompleted(t) && !Truthy(t.dueDate)
  }

  function KeepsBy(filter: FilterType, today: string): Node -> bool {
    (t: Node) => Keeps(filter, today, t)
  }

  /** `filterTodos`: the to-dos the filter keeps, in their original order. */
  function FilterTodos(todos: seq<Node>, filter: FilterType, today: string): (r: seq<Node>)
    ensures forall i :: 0 <= i < |r| ==> r[i] in todos && Keeps(filter, today, r[i])
    ensures forall i :: 0 <= i < |todos| && Keeps(filter, today, todos[i]) ==> todos[i] in r
    ensures IsSubsequence(r, todos)
  {
    Filter(todos, KeepsBy(filter, today))
  }

  /** The open and the completed lists split the to-dos between them. */
  lemma OpenOrCompleted(todos: seq<Node>, today: string)
    ensures multiset(FilterTodos(todos, All, today)) + multiset(FilterTodos(todos, Completed, today)) == multiset(todos)
    ensures |FilterTodos(todos, All, today)| + |FilterTodos(todos, Completed, today)| == |todos|
  {
    FilterSplit(todos, KeepsBy(All, today), KeepsBy(Completed, today));
  }

  /** Each open to-do is due today, overdue, upcoming or undated, and only
      one of these (for a non-empty `today`, as the ISO date always is). */
  lemma OneDateFilter(today: string, t: Node)
    requires today != "" && !IsCompleted(t)
    ensures (if Keeps(Today, today, t) then 1 else 0) + (if Keeps(Overdue, today, t) then 1 else 0) +
            (if Keeps(Upcoming, today, t) then 1 else 0) + (if Keeps(NoDate, today, t) then 1 else 0) == 1
  {
    if Truthy(t.dueDate) {
      LessTrichotomy(t.dueDate.value, today);
      if t.dueDate.value == today { LessIrreflexive(today); }
    }
  }

  /** The four date filters partition the open list. */
  lemma {:induction false} DateFiltersPartition(todos: seq<Node>, today: string)
    requires today != ""
    ensures |FilterTodos(todos, Today, today)| + |FilterTodos(todos, Overdue, today)| +
            |FilterTodos(todos, Upcoming, today)| + |FilterTodos(todos, NoDate, today)| ==
            |FilterTodos(todos, All, today)|
  {
    if todos != [] {
      DateFiltersPartition(todos[1..], today);
      if !IsCompleted(todos[0]) { OneDateFilter(today, todos[0]); }
    }
  }

  /** The sort orders of the to-do view. */
  datatype SortBy = ByPriority | ByDate | ByCreated

  /** `priorityWeight`. */
  function Weight(p: Option<Priority>): (r: int)
    ensures 0 <= r <= 4 && (r == 0 <==> p.None?)
  {
    match p
    case Some(Urgent) => 4
    case Some(High) => 3
    case Some(Medium) => 2
    case Some(Low) => 1
    case None => 0
  }

  /** `a.localeCompare(b)`, taken as code-unit order. */
  function LocaleCompare(a: string, b: string): (r: int)
    ensures r < 0 <==> Less(a, b)
    ensures r == 0 <==> a == b
  {
    if a == b then (LessIrreflexive(a); 0) else if Less(a, b) then -1 else 1
  }

  function OrElse(s: Option<string>, d: string): string {
    if Truthy(s) then s.value else d
  }

  /** The comparator handed to `sort`: negative places `a` first. */
  function Compare(sortBy: SortBy, a: Node, b: Node): int {
    match sortBy
    case ByPriority =>
      var weightDiff := Weight(b.priority) - Weight(a.priority);
      if weightDiff != 0 then weightDiff else LocaleCompare(OrElse(a.dueDate, "9999"), OrElse(b.dueDate, "9999"))
    case ByDate => LocaleCompare(OrElse(a.dueDate, "9999-99-99"), OrElse(b.dueDate, "9999-99-99"))
    case ByCreated => b.createdAt - a.createdAt
  }

  lemma LocaleCompareFlip(a: string, b: string)
    ensures LocaleCompare(a, b) >= 0 ==> LocaleCompare(b, a) <= 0
  {
    LessTrichotomy(a, b);
  }

  lemma LocaleCompareTrans(a: string, b: string, c: string)
    requires LocaleCompare(a, b) <= 0 && LocaleCompare(b, c) <= 0
    ensures LocaleCompare(a, c) <= 0
  {
    if a != b && b != c { LessTransitive(a, b, c); }
  }

  /** Swapping the arguments of a comparison that does not put `a` first
      puts `b` first or ties. */
  lemma CompareFlip(sortBy: SortBy, a: Node, b: Node)
    ensures Compare(sortBy, a, b) >= 0 ==> Compare(sortBy, b, a) <= 0
  {
    LocaleCompareFlip(OrElse(a.dueDate, "9999"), OrElse(b.dueDate, "9999"));
    LocaleCompareFlip(OrElse(a.dueDate, "9999-99-99"), OrElse(b.dueDate, "9999-99-99"));
  }

  /** The comparator orders consistently, as `Array.prototype.sort` needs. */
  lemma CompareTrans(sortBy: SortBy, a: Node, b: Node, c: Node)
    requires Compare(sortBy, a, b) <= 0 && Compare(sortBy, b, c) <= 0
    ensures Compare(sortBy, a, c) <= 0
  {
    match sortBy
    case ByPriority =>
      if Weight(a.priority) == Weight(b.priority) == Weight(c.priority) {
        LocaleCompareTrans(OrElse(a.dueDate, "9999"), OrElse(b.dueDate, "9999"), OrElse(c.dueDate, "9999"));
      }
    case ByDate =>
      LocaleCompareTrans(OrElse(a.dueDate, "9999-99-99"), OrElse(b.dueDate, "9999-99-99"), OrElse(c.dueDate, "9999-99-99"));
    case ByCreated =>
  }

  /** Every pair of positions is in comparator order. */
  ghost predicate Sorted(sortBy: SortBy, s: seq<Node>) {
    forall i, j :: 0 <= i < j < |s| ==> Compare(sortBy, s[i], s[j]) <= 0
  }

  /** Insertion of `x` after every element it does not precede, so that
      elements that tie keep their order. */
  function Insert(sortBy: SortBy, x: Node, s: seq<Node>): (r: seq<Node>)
    ensures multiset(r) == multiset(s) + multiset{x}
    ensures |r| == |s| + 1
  {
    if s == [] then [x]
    else if Compare(sortBy, x, s[0]) < 0 then [x] + s
    else
      assert s == [s[0]] + s[1..];
      [s[0]] + Insert(sortBy, x, s[1..])
  }

  lemma {:induction false} InsertSorted(sortBy: SortBy, x: Node, s: seq<Node>)
    requires Sorted(sortBy, s)
    ensures Sorted(sortBy, Insert(sortBy, x, s))
  {
    if s == [] {
    } else if Compare(sortBy, x, s[0]) < 0 {
      forall j | 0 <= j < |s| ensures Compare(sortBy, x, s[j]) <= 0 {
        if j > 0 { CompareTrans(sortBy, x, s[0], s[j]); }
      }
      ConsSorted(sortBy, x, s);
    } else {
      CompareFlip(sortBy, x, s[0]);
      InsertSorted(sortBy, x, s[1..]);
      var t := Insert(sortBy, x, s[1..]);
      forall j | 0 <= j < |t| ensures Compare(sortBy, s[0], t[j]) <= 0 {
        assert t[j] in multiset(s[1..]) + multiset{x};
        if t[j] != x {
          assert t[j] in s[1..];
          var k :| 0 <= k < |s[1..]| && s[1..][k] == t[j];
          assert s[k + 1] == t[j];
        }
      }
      ConsSorted(sortBy, s[0], t);
    }
  }

  /** An element that comes before every element of a sorted list can be
      put in front of it. */
  lemma ConsSorted(sortBy: SortBy, x: Node, t: seq<Node>)
    requires Sorted(sortBy, t)
    requires forall j :: 0 <= j < |t| ==> Compare(sortBy, x, t[j]) <= 0
    ensures Sorted(sortBy, [x] + t)
  {
    var r := [x] + t;
    forall i, j | 0 <= i < j < |r| ensures Compare(sortBy, r[i], r[j]) <= 0 {
      if i > 0 { assert r[i] == t[i - 1] && r[j] == t[j - 1]; }
      else { assert r[j] == t[j - 1]; }
    }
  }

  /** `[...todos].sort(comparator)`: a stable sort of a copy, here an
      insertion sort that inserts the elements in their original order. */
  function SortTodos(todos: seq<Node>, sortBy: SortBy): (r: seq<Node>)
    ensures multiset(r) == multiset(todos)
    ensures |r| == |todos|
    ensures Sorted(sortBy, r)
    decreases |todos|
  {
    if todos == [] then []
    else
      var init := todos[..|todos| - 1];
      assert todos == init + [todos[|todos| - 1]];
      var sorted := SortTodos(init, sortBy);
      InsertSorted(sortBy, todos[|todos| - 1], sorted);
      Insert(sortBy, todos[|todos| - 1], sorted)
  }

  /** What each sort order means for two positions of a sorted list:
      priority weight never rises, ties on it keep the due dates in order,
      due dates never fall, and creation times never rise. */
  lemma SortedOrder(sortBy: SortBy, s: seq<Node>, i: nat, j: nat)
    requires Sorted(sortBy, s) && i < j < |s|
    ensures sortBy == ByPriority ==> Weight(s[i].priority) >= Weight(s[j].priority)
    ensures sortBy == ByPriority && Weight(s[i].priority) == Weight(s[j].priority) ==>
      !Less(OrElse(s[j].dueDate, "9999"), OrElse(s[i].dueDate, "9999"))
    ensures sortBy == ByDate ==> !Less(OrElse(s[j].dueDate, "9999-99-99"), OrElse(s[i].dueDate, "9999-99-99"))
    ensures sortBy == ByCreated ==> s[i].createdAt >= s[j].createdAt
  {
    var a, b := s[i], s[j];
    assert Compare(sortBy, a, b) <= 0;
    LessTrichotomy(OrElse(a.dueDate, "9999"), OrElse(b.dueDate, "9999"));
    LessTrichotomy(OrElse(a.dueDate, "9999-99-99"), OrElse(b.dueDate, "9999-99-99"));
  }

  /** What the dashboard and the view show: totals over the given to-dos. */
  datatype TodoStats = TodoStats(total: nat, completed: nat, overdue: nat, today: nat)

  /** `getTodoStats`. */
  function GetTodoStats(todos: seq<Node>, today: string): (r: TodoStats)
    ensures r.total == |todos| && r.completed <= r.total
  {
    TodoStats(|todos|, |FilterTodos(todos, Completed, today)|,
              |FilterTodos(todos, Overdue, today)|, |FilterTodos(todos, Today, today)|)
  }

  /** The counters agree with the lists the filters show: the open list
      holds every to-do not counted as completed, and the overdue and
      due-today lists are no longer than it. */
  lemma StatsMatchFilters(todos: seq<Node>, today: string)
    requires today != ""
    ensures GetTodoStats(todos, today).total - GetTodoStats(todos, today).completed == |FilterTodos(todos, All, today)|
    ensures GetTodoStats(todos, today).overdue + GetTodoStats(todos, today).today <= |FilterTodos(todos, All, today)|
  {
    OpenOrCompleted(todos, today);
    DateFiltersPartition(todos, today);
  }
}
