/** The statistics and the task columns of components/Dashboard.tsx.  The
    columns are filtered copies sorted in place with `Array.prototype.sort`,
    modelled here by an insertion sort on an array. */
module Dashboard {
  import opened Wrappers
  import opened Seqs
  import opened Strs
  import opened Types
  import opened Tree
  import opened Todos

  function IsKind(k: NodeType): Node -> bool {
    (n: Node) => n.kind == k
  }

  function IsDoneTodo(): Node -> bool {
    (n: Node) => n.kind == Todo && IsCompleted(n)
  }

  function IsDone(): Node -> bool {
    (n: Node) => IsCompleted(n)
  }

  /** `n.sessionDuration || 0`. */
  function Duration(n: Node): int {
    if n.sessionDuration.Some? then n.sessionDuration.value else 0
  }

  /** A session node with a truthy duration. */
  function IsTimedSession(): Node -> bool {
    (n: Node) => n.kind == Session && n.sessionDuration.Some? && n.sessionDuration.value != 0
  }

  /** The `reduce` adding up `curr.sessionDuration || 0`. */
  function SumDurations(s: seq<Node>): int {
    if s == [] then 0 else Duration(s[0]) + SumDurations(s[1..])
  }

  /** The reference total: every node's duration counted when it is a
      session, nothing otherwise. */
  function SessionTime(s: seq<Node>): int {
    if s == [] then 0 else (if s[0].kind == Session then Duration(s[0]) else 0) + SessionTime(s[1..])
  }

  datatype Stats = Stats(totalNotes: nat, totalTodos: nat, completedTodos: nat,
                         totalSessions: nat, totalDuration: int)

  /** The counts of the overview tab, all over the flattened tree. */
  function DashboardStats(ns: seq<Node>): (r: Stats)
    ensures r.totalTodos == |GetAllTodos(ns)|
    ensures r.completedTodos <= r.totalTodos
    ensures r.totalDuration == SessionTime(Flatten(ns))
  {
    var all := Flatten(ns);
    CompletedAreTodos(all);
    TimedSessionsTotal(all);
    Stats(|Filter(all, IsKind(Note))|, |Filter(all, IsKind(Todo))|, |Filter(all, IsDoneTodo())|,
          |Filter(all, IsKind(Session))|, SumDurations(Filter(all, IsTimedSession())))
  }

  /** The completed to-dos are the completed ones among the to-dos. */
  lemma CompletedAreTodos(all: seq<Node>)
    ensures Filter(all, IsDoneTodo()) == Filter(Filter(all, IsKind(Todo)), IsDone())
    ensures |Filter(all, IsDoneTodo())| <= |Filter(all, IsKind(Todo))|
  {
    FilterFilter(all, IsKind(Todo), IsDone(), IsDoneTodo());
  }

  /** Leaving out the sessions whose duration is 0 or missing does not
      change the total. */
  lemma {:induction false} TimedSessionsTotal(s: seq<Node>)
    ensures SumDurations(Filter(s, IsTimedSession())) == SessionTime(s)
  {
    if s != [] {
      TimedSessionsTotal(s[1..]);
      if IsTimedSession()(s[0]) {
        assert ([s[0]] + Filter(s[1..], IsTimedSession()))[1..] == Filter(s[1..], IsTimedSession());
      }
    }
  }

  /** With durations that are not negative, the total is not negative and
      covers each session's own duration. */
  lemma {:induction false} SessionTimeBounds(s: seq<Node>, i: nat)
    requires forall k :: 0 <= k < |s| ==> Duration(s[k]) >= 0
    requires i < |s| && s[i].kind == Session
    ensures SessionTime(s) >= Duration(s[i]) >= 0
  {
    if i > 0 {
      SessionTimeBounds(s[1..], i - 1);
    } else {
      SessionTimeNonNegative(s[1..]);
    }
  }

  lemma {:induction false} SessionTimeNonNegative(s: seq<Node>)
    requires forall k :: 0 <= k < |s| ==> Duration(s[k]) >= 0
    ensures SessionTime(s) >= 0
  {
    if s != [] { SessionTimeNonNegative(s[1..]); }
  }

  /** `Math.round(completed / total * 100)` on exact numbers, 0 with no
      to-dos: the whole percentage nearest the ratio, halves rounded up. */
  function CompletionRate(completed: nat, total: nat): (r: int)
    ensures total == 0 ==> r == 0
  {
    if total > 0 then (200 * completed + total) / (2 * total) else 0
  }

  /** The rate is the nearest whole percentage: `r - 1/2 <= 100 c / t < r + 1/2`. */
  lemma CompletionRateNearest(completed: nat, total: nat)
    requires total > 0
    ensures var r := CompletionRate(completed, total);
      2 * total * r <= 200 * completed + total < 2 * total * (r + 1)
  {
    var t := 2 * total;
    var x := 200 * completed + total;
    var q, m := x / t, x % t;
    assert x == t * q + m && 0 <= m < t;
    assert t * (q + 1) == t * q + t;
  }

  /** The rate is a percentage: 0 with nothing done, 100 with everything
      done.  (With more than 200 to-dos, one left open also rounds to 100.) */
  lemma CompletionRateBounds(completed: nat, total: nat)
    requires completed <= total
    ensures 0 <= CompletionRate(completed, total) <= 100
    ensures completed == 0 ==> CompletionRate(completed, total) == 0
    ensures total > 0 && completed == total ==> CompletionRate(completed, total) == 100
  {
    if total > 0 {
      var t := 2 * total;
      var x := 200 * completed + total;
      var r := x / t;
      assert CompletionRate(completed, total) == r;
      assert 0 <= r by { DivAtLeast(x, t, 0); }
      assert r < 101 by { DivBelow(x, t, 101); }
      if completed == total {
        assert r >= 100 by { DivAtLeast(x, t, 100); }
      }
      if completed == 0 {
        assert r < 1 by { DivBelow(x, t, 1); }
      }
    }
  }

  /** Rounding can report everything done while a to-do is still open. */
  lemma CompletionRateRoundsUp()
    ensures CompletionRate(200, 201) == 100
  {
  }

  lemma DivBelow(x: int, t: int, k: int)
    requires t > 0 && x < t * k
    ensures x / t < k
  {
    var q, m := x / t, x % t;
    assert x == t * q + m && 0 <= m;
    ScaledOrder(t, k, q);
  }

  lemma DivAtLeast(x: int, t: int, k: int)
    requires t > 0 && t * k <= x
    ensures x / t >= k
  {
    var q, m := x / t, x % t;
    assert x == t * q + m && m < t;
    ScaledOrder(t, q, k - 1);
    assert t * (k - 1) == t * k - t;
  }

  /** Scaling by a positive factor keeps order. */
  lemma ScaledOrder(t: int, a: int, b: int)
    requires t > 0
    ensures (t * a < t * b) == (a < b)
    ensures (t * a <= t * b) == (a <= b)
  {
    assert t * a - t * b == t * (a - b);
    if a < b { assert t * (b - a) > 0; } else { assert t * (a - b) >= 0; }
  }

  /** `out(a, b)` holds when the comparator places `b` before `a`. */
  ghost predicate SortedBy<T>(s: seq<T>, out: (T, T) -> bool) {
    forall i, j :: 0 <= i < j < |s| ==> !out(s[i], s[j])
  }

  /** What `sort` asks of a comparator: it never puts each of two elements
      before the other, and "not after" chains. */
  ghost predicate Consistent<T(!new)>(out: (T, T) -> bool) {
    (forall x, y :: out(x, y) ==> !out(y, x)) &&
    (forall x, y, z :: !out(x, y) && !out(y, z) ==> !out(x, z))
  }

  /** `Array.prototype.sort` with a comparator: an insertion sort that moves
      each element left past the elements that must follow it, so that
      elements that tie keep their order. */
  method SortInPlace<T(!new)>(a: array<T>, out: (T, T) -> bool)
    requires Consistent(out)
    modifies a
    ensures multiset(a[..]) == multiset(old(a[..]))
    ensures SortedBy(a[..], out)
  {
    var i := 0;
    while i < a.Length
      invariant 0 <= i <= a.Length
      invariant forall k, l :: 0 <= k < l < i ==> !out(a[k], a[l])
      invariant multiset(a[..]) == multiset(old(a[..]))
    {
      var j := i;
      while j > 0 && out(a[j - 1], a[j])
        invariant 0 <= j <= i
        invariant forall k, l :: 0 <= k < l <= i && k != j && l != j ==> !out(a[k], a[l])
        invariant forall l :: j < l <= i ==> !out(a[j], a[l])
        invariant multiset(a[..]) == multiset(old(a[..]))
      {
        a[j - 1], a[j] := a[j], a[j - 1];
        j := j - 1;
      }
      forall k | 0 <= k < j ensures !out(a[k], a[j]) {
        if k < j - 1 { assert !out(a[k], a[j - 1]); }
      }
      i := i + 1;
    }
  }

  /** A sorted copy of `s`, as `filter(..).sort(..)` gives. */
  method SortedCopy<T(!new)>(s: seq<T>, out: (T, T) -> bool) returns (r: seq<T>)
    requires Consistent(out)
    ensures multiset(r) == multiset(s)
    ensures SortedBy(r, out)
  {
    var a := new T[|s|](i requires 0 <= i < |s| => s[i]);
    assert a[..] == s;
    SortInPlace(a, out);
    r := a[..];
  }

  /** `sortByPriority`: `b` goes first when its weight is higher. */
  function ByWeight(): (Node, Node) -> bool {
    (a: Node, b: Node) => Weight(b.priority) - Weight(a.priority) > 0
  }

  /** `(a.dueDate || '').localeCompare(b.dueDate || '')`. */
  function ByDue(): (Node, Node) -> bool {
    (a: Node, b: Node) => LocaleCompare(OrElse(a.dueDate, ""), OrElse(b.dueDate, "")) > 0
  }

  lemma ByWeightConsistent()
    ensures Consistent(ByWeight())
  {
  }

  lemma ByDueConsistent()
    ensures Consistent(ByDue())
  {
    forall x: Node, y: Node | ByDue()(x, y) ensures !ByDue()(y, x) {
      LocaleCompareFlip(OrElse(x.dueDate, ""), OrElse(y.dueDate, ""));
    }
    forall x: Node, y: Node, z: Node | !ByDue()(x, y) && !ByDue()(y, z) ensures !ByDue()(x, z) {
      LocaleCompareTrans(OrElse(x.dueDate, ""), OrElse(y.dueDate, ""), OrElse(z.dueDate, ""));
    }
  }

  function IsOpenTodo(): Node -> bool {
    (n: Node) => n.kind == Todo && !IsCompleted(n)
  }

  /** The to-dos that are not completed, in pre-order. */
  function OpenTodos(ns: seq<Node>): (r: seq<Node>)
    ensures forall i :: 0 <= i < |r| ==> r[i].kind == Todo && !IsCompleted(r[i])
    ensures IsSubsequence(r, Flatten(ns))
  {
    Filter(Flatten(ns), IsOpenTodo())
  }

  /** The dashboard's open to-dos are the to-do view's "All" list. */
  lemma OpenTodosAreAll(ns: seq<Node>, today: string)
    ensures OpenTodos(ns) == FilterTodos(GetAllTodos(ns), All, today)
  {
    FilterFilter(Flatten(ns), IsTodo(), KeepsBy(All, today), IsOpenTodo());
  }

  /** The four columns.  `dueToday` tests `dueDate === today` alone, which
      among open to-dos is the to-do view's "Today" test. */
  datatype Groups = Groups(overdue: seq<Node>, dueToday: seq<Node>, upcoming: seq<Node>, noDate: seq<Node>)

  /** The members of a column before sorting. */
  function Column(ns: seq<Node>, filter: FilterType, today: string): seq<Node> {
    Filter(OpenTodos(ns), KeepsBy(filter, today))
  }

  /** `taskGroups`: the open to-dos split by due date, the overdue, today's
      and undated columns by falling priority weight and the upcoming one by
      rising due date. */
  method TaskGroups(ns: seq<Node>, today: string) returns (g: Groups)
    ensures multiset(g.overdue) == multiset(Column(ns, Overdue, today))
    ensures multiset(g.dueToday) == multiset(Column(ns, Today, today))
    ensures multiset(g.upcoming) == multiset(Column(ns, Upcoming, today))
    ensures multiset(g.noDate) == multiset(Column(ns, NoDate, today))
    ensures forall i, j :: 0 <= i < j < |g.overdue| ==> Weight(g.overdue[i].priority) >= Weight(g.overdue[j].priority)
    ensures forall i, j :: 0 <= i < j < |g.dueToday| ==> Weight(g.dueToday[i].priority) >= Weight(g.dueToday[j].priority)
    ensures forall i, j :: 0 <= i < j < |g.noDate| ==> Weight(g.noDate[i].priority) >= Weight(g.noDate[j].priority)
    ensures forall i, j :: 0 <= i < j < |g.upcoming| ==>
      !Less(OrElse(g.upcoming[j].dueDate, ""), OrElse(g.upcoming[i].dueDate, ""))
  {
    var overdue := SortByPriority(Column(ns, Overdue, today));
    var dueToday := SortByPriority(Column(ns, Today, today));
    var upcoming := SortByDue(Column(ns, Upcoming, today));
    var noDate := SortByPriority(Column(ns, NoDate, today));
    g := Groups(overdue, dueToday, upcoming, noDate);
  }

  /** `column.sort(sortByPriority)`. */
  method SortByPriority(s: seq<Node>) returns (r: seq<Node>)
    ensures multiset(r) == multiset(s)
    ensures forall i, j :: 0 <= i < j < |r| ==> Weight(r[i].priority) >= Weight(r[j].priority)
  {
    ByWeightConsistent();
    r := SortedCopy(s, ByWeight());
    assert forall i, j :: 0 <= i < j < |r| ==> !ByWeight()(r[i], r[j]);
  }

  /** The upcoming column's sort by due date. */
  method SortByDue(s: seq<Node>) returns (r: seq<Node>)
    ensures multiset(r) == multiset(s)
    ensures forall i, j :: 0 <= i < j < |r| ==> !Less(OrElse(r[j].dueDate, ""), OrElse(r[i].dueDate, ""))
  {
    ByDueConsistent();
    r := SortedCopy(s, ByDue());
    forall i, j | 0 <= i < j < |r|
      ensures !Less(OrElse(r[j].dueDate, ""), OrElse(r[i].dueDate, ""))
    {
      assert !ByDue()(r[i], r[j]);
      LessTrichotomy(OrElse(r[i].dueDate, ""), OrElse(r[j].dueDate, ""));
    }
  }

  /** Among open to-dos, for a non-empty `today`, the four columns share
      out the list: each to-do lands in exactly one of them. */
  lemma ColumnsPartition(s: seq<Node>, today: string)
    requires today != ""
    requires forall i :: 0 <= i < |s| ==> !IsCompleted(s[i])
    ensures multiset(Filter(s, KeepsBy(Overdue, today))) + multiset(Filter(s, KeepsBy(Today, today))) +
            multiset(Filter(s, KeepsBy(Upcoming, today))) + multiset(Filter(s, KeepsBy(NoDate, today))) == multiset(s)
  {
    forall i | 0 <= i < |s|
      ensures (if KeepsBy(Overdue, today)(s[i]) then 1 else 0) + (if KeepsBy(Today, today)(s[i]) then 1 else 0) +
              (if KeepsBy(Upcoming, today)(s[i]) then 1 else 0) + (if KeepsBy(NoDate, today)(s[i]) then 1 else 0) == 1
    {
      OneDateFilter(today, s[i]);
    }
    FilterFour(s, KeepsBy(Overdue, today), KeepsBy(Today, today), KeepsBy(Upcoming, today), KeepsBy(NoDate, today));
  }

  /** The columns together hold every open to-do of the tree exactly once. */
  lemma GroupsPartition(ns: seq<Node>, today: string)
    requires today != ""
    ensures multiset(Column(ns, Overdue, today)) + multiset(Column(ns, Today, today)) +
            multiset(Column(ns, Upcoming, today)) + multiset(Column(ns, NoDate, today)) == multiset(OpenTodos(ns))
  {
    ColumnsPartition(OpenTodos(ns), today);
  }

  /** With the empty string for today, which the ISO date never is, an
      undated to-do given an empty `dueDate` would sit in two columns. */
  lemma EmptyTodayOverlaps(t: Node)
    requires t.dueDate == Some("") && !IsCompleted(t)
    ensures Keeps(Today, "", t) && Keeps(NoDate, "", t)
  {
  }
}
