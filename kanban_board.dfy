/**
 * How the board derives what it shows from the task list
 * (client/src/Components/KanbanBoard.jsx): the text search, the split into
 * four status lists, which columns have matches, which columns are visible
 * under the priority filter, and the record each column receives.
 */
module KanbanBoard {
  import opened Js
  import opened Text
  import opened ClientTask

  /** `Array.prototype.filter`: the elements satisfying `p`, in order. */
  function Filter<T(!new)>(s: seq<T>, p: T -> bool): (r: seq<T>)
    ensures |r| <= |s|
    ensures forall x :: x in r <==> x in s && p(x)
    ensures forall i :: 0 <= i < |r| ==> p(r[i])
    decreases |s|
  {
    if s == [] then [] else (if p(s[0]) then [s[0]] else []) + Filter(s[1..], p)
  }

  /** Filtering keeps the relative order: it distributes over concatenation. */
  lemma {:induction false} FilterAppend<T(!new)>(a: seq<T>, b: seq<T>, p: T -> bool)
    ensures Filter(a + b, p) == Filter(a, p) + Filter(b, p)
    decreases |a|
  {
    if a != [] {
      assert (a + b)[1..] == a[1..] + b;
      FilterAppend(a[1..], b, p);
    } else {
      assert a + b == b;
    }
  }

  /** Filtering with a predicate every element satisfies changes nothing. */
  lemma {:induction false} FilterKeepsAll<T(!new)>(s: seq<T>, p: T -> bool)
    requires forall i :: 0 <= i < |s| ==> p(s[i])
    ensures Filter(s, p) == s
    decreases |s|
  {
    if s != [] {
      FilterKeepsAll(s[1..], p);
    }
  }

  /** The search test of one task: the lowercased title contains the
      lowercased query, or the task has a (truthy) string description whose
      lowercased form contains it. */
  predicate MatchesQuery(t: Task, q: string): (ok: bool)
    ensures q == "" ==> ok
    ensures Contains(Lower(t.title), Lower(q)) ==> ok
  {
    || Contains(Lower(t.title), Lower(q))
    || (t.description.Str? && t.description.s != "" && Contains(Lower(t.description.s), Lower(q)))
  }

  /** The same test in terms of an index at which the query occurs. */
  lemma MatchesQueryIff(t: Task, q: string)
    ensures MatchesQuery(t, q) <==>
              || (exists i :: OccursAt(Lower(t.title), Lower(q), i))
              || (t.description.Str? && t.description.s != ""
                  && exists i :: OccursAt(Lower(t.description.s), Lower(q), i))
  {
    ContainsIff(Lower(t.title), Lower(q));
    if t.description.Str? {
      ContainsIff(Lower(t.description.s), Lower(q));
    }
  }

  /** The list the board works on: all tasks for an empty query, otherwise
      those that match it, in their original order. */
  function SearchTasks(tasks: seq<Task>, q: string): (r: seq<Task>)
    ensures q == "" ==> r == tasks
    ensures forall t :: t in r <==> t in tasks && (q == "" || MatchesQuery(t, q))
    ensures |r| <= |tasks|
  {
    if q != "" then Filter(tasks, (t: Task) => MatchesQuery(t, q)) else tasks
  }

  /** The search keeps order: searching a concatenation is concatenating
      the searches. */
  lemma SearchKeepsOrder(a: seq<Task>, b: seq<Task>, q: string)
    ensures SearchTasks(a + b, q) == SearchTasks(a, q) + SearchTasks(b, q)
  {
    if q != "" {
      FilterAppend(a, b, (t: Task) => MatchesQuery(t, q));
    }
  }

  const ColumnStatuses: seq<string> := ["To Do", "On Progress", "Done", "Timeout"]

  predicate KnownStatus(t: Task)
  {
    t.status.Str? && t.status.s in ColumnStatuses
  }

  function WithStatus(tasks: seq<Task>, status: string): seq<Task>
  {
    Filter(tasks, (t: Task) => t.status == Str(status))
  }

  /** `todoTasks`, `inProgressTasks`, `doneTasks` and `timeoutTasks`. */
  datatype StatusLists = StatusLists(todo: seq<Task>, inProgress: seq<Task>,
                                     done: seq<Task>, timeout: seq<Task>)

  function SplitByStatus(filtered: seq<Task>): (c: StatusLists)
    ensures forall t :: t in c.todo <==> t in filtered && t.status == Str("To Do")
    ensures forall t :: t in c.inProgress <==> t in filtered && t.status == Str("On Progress")
    ensures forall t :: t in c.done <==> t in filtered && t.status == Str("Done")
    ensures forall t :: t in c.timeout <==> t in filtered && t.status == Str("Timeout")
  {
    StatusLists(WithStatus(filtered, "To Do"), WithStatus(filtered, "On Progress"),
                WithStatus(filtered, "Done"), WithStatus(filtered, "Timeout"))
  }

  /** Each status list keeps the order of the filtered list: splitting a
      concatenation gives the concatenation of the splits. */
  lemma SplitKeepsOrder(a: seq<Task>, b: seq<Task>)
    ensures var c, ca, cb := SplitByStatus(a + b), SplitByStatus(a), SplitByStatus(b);
            && c.todo == ca.todo + cb.todo && c.inProgress == ca.inProgress + cb.inProgress
            && c.done == ca.done + cb.done && c.timeout == ca.timeout + cb.timeout
  {
    FilterAppend(a, b, (t: Task) => t.status == Str("To Do"));
    FilterAppend(a, b, (t: Task) => t.status == Str("On Progress"));
    FilterAppend(a, b, (t: Task) => t.status == Str("Done"));
    FilterAppend(a, b, (t: Task) => t.status == Str("Timeout"));
  }

  function Unsorted(filtered: seq<Task>): seq<Task>
  {
    Filter(filtered, (t: Task) => !KnownStatus(t))
  }

  /** Every filtered task with one of the four statuses lands in exactly
      one list, and one with any other status in none: the four lists and
      the unsorted rest add up to the filtered list. */
  lemma {:induction false} SplitCounts(filtered: seq<Task>)
    ensures var c := SplitByStatus(filtered);
            |c.todo| + |c.inProgress| + |c.done| + |c.timeout| + |Unsorted(filtered)| == |filtered|
    decreases |filtered|
  {
    if filtered != [] {
      SplitCounts(filtered[1..]);
    }
  }

  /** A task is in at most one of the lists, and in one exactly when its
      status is one of the four. */
  lemma AtMostOneList(filtered: seq<Task>, t: Task)
    requires t in filtered
    ensures var c := SplitByStatus(filtered);
            (if t in c.todo then 1 else 0) + (if t in c.inProgress then 1 else 0)
            + (if t in c.done then 1 else 0) + (if t in c.timeout then 1 else 0)
            == if KnownStatus(t) then 1 else 0
  {
  }

  /** `filtered.some(task => task.status === status)`. */
  predicate SomeWithStatus(tasks: seq<Task>, status: string)
  {
    exists i :: 0 <= i < |tasks| && tasks[i].status == Str(status)
  }

  lemma SomeIffListNonEmpty(tasks: seq<Task>, status: string)
    ensures SomeWithStatus(tasks, status) <==> WithStatus(tasks, status) != []
  {
    var l := WithStatus(tasks, status);
    if l != [] {
      assert l[0] in tasks;
    }
    if SomeWithStatus(tasks, status) {
      var i :| 0 <= i < |tasks| && tasks[i].status == Str(status);
      assert tasks[i] in l;
    }
  }

  /** `columnsWithMatches`. */
  datatype Matches = Matches(todo: bool, inProgress: bool, done: bool, timeout: bool)

  /** Each flag says whether the corresponding status list is non-empty. */
  function ColumnsWithMatches(filtered: seq<Task>): (m: Matches)
    ensures var c := SplitByStatus(filtered);
            && (m.todo <==> c.todo != []) && (m.inProgress <==> c.inProgress != [])
            && (m.done <==> c.done != []) && (m.timeout <==> c.timeout != [])
  {
    SomeIffListNonEmpty(filtered, "To Do");
    SomeIffListNonEmpty(filtered, "On Progress");
    SomeIffListNonEmpty(filtered, "Done");
    SomeIffListNonEmpty(filtered, "Timeout");
    Matches(SomeWithStatus(filtered, "To Do"), SomeWithStatus(filtered, "On Progress"),
            SomeWithStatus(filtered, "Done"), SomeWithStatus(filtered, "Timeout"))
  }

  /** `showToDoColumn`, `showInProgressColumn`, `showDoneColumn`, `showTimeoutColumn`. */
  datatype Visibility = Visibility(todo: bool, inProgress: bool, done: bool, timeout: bool)

  /** To Do shows under "All" and "Low Priority", On Progress under "All"
      and "High Priority", Done and Timeout only under "All"; with a
      non-empty query a column also needs a match. */
  function ShowColumns(filter: string, query: string, m: Matches): (v: Visibility)
    ensures v.todo ==> filter == "All" || filter == "Low Priority"
    ensures v.inProgress ==> filter == "All" || filter == "High Priority"
    ensures v.done || v.timeout ==> filter == "All"
    ensures query != "" ==> (v.todo ==> m.todo) && (v.inProgress ==> m.inProgress)
                            && (v.done ==> m.done) && (v.timeout ==> m.timeout)
    ensures query == "" ==> v.todo == (filter == "All" || filter == "Low Priority")
                            && v.inProgress == (filter == "All" || filter == "High Priority")
                            && v.done == (filter == "All") && v.timeout == (filter == "All")
    ensures query != "" && filter == "All" ==> v == Visibility(m.todo, m.inProgress, m.done, m.timeout)
    ensures query != "" && filter == "Low Priority" ==> v == Visibility(m.todo, false, false, false)
    ensures query != "" && filter == "High Priority" ==> v == Visibility(false, m.inProgress, false, false)
  {
    Visibility((filter == "All" || filter == "Low Priority") && (query == "" || m.todo),
               (filter == "All" || filter == "High Priority") && (query == "" || m.inProgress),
               filter == "All" && (query == "" || m.done),
               filter == "All" && (query == "" || m.timeout))
  }

  predicate NoColumnsVisible(v: Visibility)
  {
    !v.todo && !v.inProgress && !v.done && !v.timeout
  }

  /** Under "All" with an empty query all four columns show, so the
      "No matching tasks" message is not shown. */
  lemma AllFilterShowsEverything(m: Matches)
    ensures ShowColumns("All", "", m) == Visibility(true, true, true, true)
    ensures !NoColumnsVisible(ShowColumns("All", "", m))
  {
  }

  /** A filter value other than the three the header offers hides every column. */
  lemma UnknownFilterHidesAll(filter: string, query: string, m: Matches)
    requires filter != "All" && filter != "Low Priority" && filter != "High Priority"
    ensures NoColumnsVisible(ShowColumns(filter, query, m))
  {
  }

  /** One entry of `mapTasksToColumnFormat`: a falsy deadline becomes
      "Not set", a falsy duration 0 and a falsy `startedAt` null. */
  function ToCard(t: Task): (c: Card)
    ensures c.id == t.id && c.title == t.title && c.description == t.description && c.status == t.status
    ensures Truthy(c.deadline) && (Truthy(t.deadline) ==> c.deadline == t.deadline)
    ensures !Truthy(t.deadline) ==> c.deadline == Str("Not set")
    ensures c.duration == if Truthy(t.duration) then t.duration else Num(0)
    ensures c.startedAt == if Truthy(t.startedAt) then t.startedAt else Null
  {
    Card(t.id, t.title, t.description, Or(t.deadline, Str("Not set")),
         Or(t.duration, Num(0)), Or(t.startedAt, Null), t.status)
  }

  /** `mapTasksToColumnFormat`: one card per task, in the same order. */
  function MapToCards(tasks: seq<Task>): (r: seq<Card>)
    ensures |r| == |tasks|
    ensures forall i :: 0 <= i < |tasks| ==> r[i] == ToCard(tasks[i])
  {
    seq(|tasks|, i requires 0 <= i < |tasks| => ToCard(tasks[i]))
  }

  /** A column the board renders: its title, the count badge and its cards. */
  datatype Column = Column(title: string, count: nat, cards: seq<Card>)

  /** What the board renders: the "No matching tasks found" message, or the
      visible columns from left to right. */
  datatype BoardView = NoMatches | Columns(columns: seq<Column>)

  function ColumnOf(title: string, tasks: seq<Task>): (c: Column)
    ensures c.count == |c.cards|
  {
    Column(title, |tasks|, MapToCards(tasks))
  }

  /** The place of a column title on the board, counted from the left. */
  function ColumnRank(title: string): nat
  {
    if title == "To Do" then 0 else if title == "On Progress" then 1
    else if title == "Done" then 2 else 3
  }

  /** Columns ranked strictly increasing from left to right. */
  predicate Ascending(cs: seq<Column>)
  {
    forall i, j :: 0 <= i < j < |cs| ==> ColumnRank(cs[i].title) < ColumnRank(cs[j].title)
  }

  /** `show && <KanbanColumn .../>` in front of the columns to its right. */
  function ShowBefore(show: bool, c: Column, rest: seq<Column>): (r: seq<Column>)
    requires Ascending(rest)
    requires forall x :: x in rest ==> ColumnRank(c.title) < ColumnRank(x.title)
    ensures Ascending(r)
    ensures |r| == |rest| + (if show then 1 else 0)
    ensures forall x :: x in r <==> (show && x == c) || x in rest
  {
    if show then
      var r := [c] + rest;
      assert forall j :: 0 < j < |r| ==> r[j] == rest[j - 1];
      r
    else rest
  }

  /** The visible columns from left to right, each with its status list:
      exactly the flagged ones, each once, in the order To Do, On Progress,
      Done, Timeout. */
  function VisibleColumns(v: Visibility, lists: StatusLists): (cs: seq<Column>)
    ensures |cs| == (if v.todo then 1 else 0) + (if v.inProgress then 1 else 0)
                    + (if v.done then 1 else 0) + (if v.timeout then 1 else 0)
    ensures cs == [] <==> NoColumnsVisible(v)
    ensures v.todo ==> ColumnOf("To Do", lists.todo) in cs
    ensures v.inProgress ==> ColumnOf("On Progress", lists.inProgress) in cs
    ensures v.done ==> ColumnOf("Done", lists.done) in cs
    ensures v.timeout ==> ColumnOf("Timeout", lists.timeout) in cs
    ensures Ascending(cs)
    ensures forall c :: c in cs ==>
              || (v.todo && c == ColumnOf("To Do", lists.todo))
              || (v.inProgress && c == ColumnOf("On Progress", lists.inProgress))
              || (v.done && c == ColumnOf("Done", lists.done))
              || (v.timeout && c == ColumnOf("Timeout", lists.timeout))
  {
    var c0, c1 := ColumnOf("To Do", lists.todo), ColumnOf("On Progress", lists.inProgress);
    var c2, c3 := ColumnOf("Done", lists.done), ColumnOf("Timeout", lists.timeout);
    assert ColumnRank(c0.title) == 0 && ColumnRank(c1.title) == 1;
    assert ColumnRank(c2.title) == 2 && ColumnRank(c3.title) == 3;
    var timeout := ShowBefore(v.timeout, c3, []);
    var done := ShowBefore(v.done, c2, timeout);
    var inProgress := ShowBefore(v.inProgress, c1, done);
    ShowBefore(v.todo, c0, inProgress)
  }

  /** The board for a task list, a query and a filter, with the match flags
      computed from the same search. */
  function RenderBoard(tasks: seq<Task>, query: string, filter: string): (r: BoardView)
    ensures var filtered := SearchTasks(tasks, query);
            var v := ShowColumns(filter, query, ColumnsWithMatches(filtered));
            && (r.NoMatches? <==> NoColumnsVisible(v))
            && (r.Columns? ==> r.columns == VisibleColumns(v, SplitByStatus(filtered)) && r.columns != [])
  {
    var filtered := SearchTasks(tasks, query);
    var v := ShowColumns(filter, query, ColumnsWithMatches(filtered));
    if NoColumnsVisible(v) then NoMatches else Columns(VisibleColumns(v, SplitByStatus(filtered)))
  }

  /** With every flag set, the four columns show in their fixed order. */
  lemma AllFlagsShowAll(lists: StatusLists)
    ensures VisibleColumns(Visibility(true, true, true, true), lists)
            == [ColumnOf("To Do", lists.todo), ColumnOf("On Progress", lists.inProgress),
                ColumnOf("Done", lists.done), ColumnOf("Timeout", lists.timeout)]
  {
    var c0, c1 := ColumnOf("To Do", lists.todo), ColumnOf("On Progress", lists.inProgress);
    var c2, c3 := ColumnOf("Done", lists.done), ColumnOf("Timeout", lists.timeout);
    var d := ShowBefore(true, c3, []);
    assert d == [c3];
    var c := ShowBefore(true, c2, d);
    assert c == [c2, c3];
    var b := ShowBefore(true, c1, c);
    assert b == [c1, c2, c3];
    assert ShowBefore(true, c0, b) == [c0, c1, c2, c3];
  }

  /** Under "All" with no query the board shows the four columns in order,
      and their counts add up to the number of tasks with a known status. */
  lemma BoardWithoutQuery(tasks: seq<Task>)
    ensures RenderBoard(tasks, "", "All").Columns?
    ensures var cs := RenderBoard(tasks, "", "All").columns;
            && |cs| == 4
            && cs[0].title == "To Do" && cs[1].title == "On Progress"
            && cs[2].title == "Done" && cs[3].title == "Timeout"
            && cs[0].count + cs[1].count + cs[2].count + cs[3].count + |Unsorted(tasks)| == |tasks|
  {
    var lists := SplitByStatus(tasks);
    var v := ShowColumns("All", "", ColumnsWithMatches(tasks));
    assert v == Visibility(true, true, true, true);
    AllFlagsShowAll(lists);
    SplitCounts(tasks);
  }

  /** With a query, every column the board shows has at least one card. */
  lemma ShownColumnsMatchQuery(tasks: seq<Task>, query: string, filter: string)
    requires query != ""
    requires RenderBoard(tasks, query, filter).Columns?
    ensures forall c :: c in RenderBoard(tasks, query, filter).columns ==> c.count > 0 && |c.cards| == c.count
  {
    var filtered := SearchTasks(tasks, query);
    var m := ColumnsWithMatches(filtered);
    var v := ShowColumns(filter, query, m);
    var lists := SplitByStatus(filtered);
    assert (v.todo ==> lists.todo != []) && (v.inProgress ==> lists.inProgress != [])
           && (v.done ==> lists.done != []) && (v.timeout ==> lists.timeout != []);
    FlaggedListsGiveCards(v, lists);
  }

  /** When every flagged column has a non-empty list, every rendered column
      has at least one card. */
  lemma FlaggedListsGiveCards(v: Visibility, lists: StatusLists)
    requires (v.todo ==> lists.todo != []) && (v.inProgress ==> lists.inProgress != [])
             && (v.done ==> lists.done != []) && (v.timeout ==> lists.timeout != [])
    ensures forall c :: c in VisibleColumns(v, lists) ==> c.count > 0 && |c.cards| == c.count
  {
    forall c | c in VisibleColumns(v, lists) ensures c.count > 0 && |c.cards| == c.count {
      assert c.count == |c.cards|;
    }
  }

  /** Under "All" with a query, the message appears exactly when no task
      with one of the four statuses matches the query. */
  lemma NoMatchesIff(tasks: seq<Task>, query: string)
    requires query != ""
    ensures RenderBoard(tasks, query, "All") == NoMatches <==>
              forall t :: t in tasks && MatchesQuery(t, query) ==> !KnownStatus(t)
  {
    var filtered := SearchTasks(tasks, query);
    var m := ColumnsWithMatches(filtered);
    assert ShowColumns("All", query, m) == Visibility(m.todo, m.inProgress, m.done, m.timeout);
    ListsEmptyIff(filtered);
  }

  /** The four status lists are all empty exactly when no task of the list
      has one of the four statuses. */
  lemma ListsEmptyIff(filtered: seq<Task>)
    ensures var c := SplitByStatus(filtered);
            (c.todo == [] && c.inProgress == [] && c.done == [] && c.timeout == []) <==>
              forall t :: t in filtered ==> !KnownStatus(t)
  {
    var c := SplitByStatus(filtered);
    if c.todo != [] || c.inProgress != [] || c.done != [] || c.timeout != [] {
      var l := if c.todo != [] then c.todo
               else if c.inProgress != [] then c.inProgress
               else if c.done != [] then c.done
               else c.timeout;
      assert l != [] && l[0] in l;
      assert l[0] in filtered && KnownStatus(l[0]);
    } else {
      forall t | t in filtered ensures !KnownStatus(t) {
        assert t !in c.todo && t !in c.inProgress && t !in c.done && t !in c.timeout;
      }
    }
  }
}
