/**
 * The statistics of the dashboard (client/src/Components/TaskDashboard.jsx):
 * one pass over the fetched tasks that sorts each into completed, timed out
 * or active, and counts the active tasks whose deadline has passed.
 */
module TaskDashboard {
  import opened Js
  import opened Wrappers
  import opened ClientTask

  /** The `taskStats` state. */
  datatype Stats = Stats(expired: nat, active: nat, completed: nat, timedOut: nat, total: nat)

  /** The statistics before the first fetch. */
  const InitialStats: Stats := Stats(0, 0, 0, 0, 0)

  /** The branch of the loop body a task takes. */
  datatype Bucket = Completed | TimedOut | Active

  /** `task.status === 'Done'`, then `'Timeout'`, else active. */
  function BucketOf(t: Task): (b: Bucket)
    ensures b == Completed <==> t.status == Str("Done")
    ensures b == TimedOut <==> t.status == Str("Timeout")
    ensures b == Active <==> t.status != Str("Done") && t.status != Str("Timeout")
  {
    if t.status == Str("Done") then Completed
    else if t.status == Str("Timeout") then TimedOut
    else Active
  }

  /** An active task with a truthy deadline that denotes an instant strictly
      before `now`. `parseDate` stands for `new Date(deadline)`, `None` for an
      invalid date (every comparison with NaN is false). */
  predicate Expired(t: Task, now: int, parseDate: JsValue -> Option<int>): (ok: bool)
    ensures ok ==> t.status != Str("Done") && t.status != Str("Timeout")
    ensures ok ==> Truthy(t.deadline) && parseDate(t.deadline).Some? && parseDate(t.deadline).value < now
  {
    BucketOf(t) == Active && Truthy(t.deadline)
    && parseDate(t.deadline).Some? && parseDate(t.deadline).value < now
  }

  /** The number of tasks in bucket `b`. */
  function CountBucket(s: seq<Task>, b: Bucket): (n: nat)
    ensures n <= |s|
  {
    if s == [] then 0
    else CountBucket(s[..|s| - 1], b) + (if BucketOf(s[|s| - 1]) == b then 1 else 0)
  }

  /** The number of expired tasks. */
  function CountExpired(s: seq<Task>, now: int, parseDate: JsValue -> Option<int>): (n: nat)
    ensures n <= |s|
  {
    if s == [] then 0
    else CountExpired(s[..|s| - 1], now, parseDate) + (if Expired(s[|s| - 1], now, parseDate) then 1 else 0)
  }

  /** The statistics of a task list: the three buckets partition it, and
      the expired tasks are among the active ones. */
  function StatsOf(tasks: seq<Task>, now: int, parseDate: JsValue -> Option<int>): (r: Stats)
    ensures r.completed + r.timedOut + r.active == r.total == |tasks|
    ensures r.expired <= r.active
    ensures r.completed == CountBucket(tasks, Completed) && r.timedOut == CountBucket(tasks, TimedOut)
    ensures r.active == CountBucket(tasks, Active) && r.expired == CountExpired(tasks, now, parseDate)
  {
    BucketsPartition(tasks);
    ExpiredAmongActive(tasks, now, parseDate);
    Stats(CountExpired(tasks, now, parseDate), CountBucket(tasks, Active),
          CountBucket(tasks, Completed), CountBucket(tasks, TimedOut), |tasks|)
  }

  /** No tasks, no counts: the statistics of an empty list are the initial ones. */
  lemma EmptyListStats(now: int, parseDate: JsValue -> Option<int>)
    ensures StatsOf([], now, parseDate) == InitialStats
  {
  }

  /** The three buckets partition the list. */
  lemma {:induction false} BucketsPartition(s: seq<Task>)
    ensures CountBucket(s, Completed) + CountBucket(s, TimedOut) + CountBucket(s, Active) == |s|
  {
    if s != [] {
      BucketsPartition(s[..|s| - 1]);
    }
  }

  /** Only active tasks are counted as expired. */
  lemma {:induction false} ExpiredAmongActive(s: seq<Task>, now: int, parseDate: JsValue -> Option<int>)
    ensures CountExpired(s, now, parseDate) <= CountBucket(s, Active)
  {
    if s != [] {
      ExpiredAmongActive(s[..|s| - 1], now, parseDate);
    }
  }

  /** A Done or Timeout task is never expired, whatever its deadline; nor is
      a task without a deadline, one whose deadline is not a valid date, or
      one whose deadline is at or after `now`. Every other task, an active
      one whose deadline parses to an instant before `now`, is expired. */
  lemma NotExpired(t: Task, now: int, parseDate: JsValue -> Option<int>)
    ensures BucketOf(t) != Active ==> !Expired(t, now, parseDate)
    ensures !Truthy(t.deadline) ==> !Expired(t, now, parseDate)
    ensures parseDate(t.deadline).None? ==> !Expired(t, now, parseDate)
    ensures parseDate(t.deadline).Some? && parseDate(t.deadline).value >= now ==> !Expired(t, now, parseDate)
    ensures (BucketOf(t) == Active && Truthy(t.deadline) && parseDate(t.deadline).Some?
             && parseDate(t.deadline).value < now) ==> Expired(t, now, parseDate)
  {
  }

  /** When no task is expired one by one, none is counted. */
  lemma {:induction false} NoneExpired(s: seq<Task>, now: int, parseDate: JsValue -> Option<int>)
    requires forall i :: 0 <= i < |s| ==> !Expired(s[i], now, parseDate)
    ensures CountExpired(s, now, parseDate) == 0
  {
    if s != [] {
      NoneExpired(s[..|s| - 1], now, parseDate);
    }
  }

  /** `updateTaskStats` after `fetchTasks` has returned `tasks` and `new
      Date()` has returned `now`: the `forEach` loop with its four counters. */
  method UpdateTaskStats(tasks: seq<Task>, now: int, parseDate: JsValue -> Option<int>) returns (stats: Stats)
    ensures stats == StatsOf(tasks, now, parseDate)
    ensures stats.completed + stats.timedOut + stats.active == stats.total == |tasks|
    ensures stats.expired <= stats.active
  {
    var expired, active, completed, timedOut := 0, 0, 0, 0;
    var i := 0;
    while i < |tasks|
      invariant 0 <= i <= |tasks|
      invariant completed == CountBucket(tasks[..i], Completed)
      invariant timedOut == CountBucket(tasks[..i], TimedOut)
      invariant active == CountBucket(tasks[..i], Active)
      invariant expired == CountExpired(tasks[..i], now, parseDate)
    {
      var task := tasks[i];
      assert tasks[..i + 1][..i] == tasks[..i];
      if task.status == Str("Done") {
        completed := completed + 1;
      } else if task.status == Str("Timeout") {
        timedOut := timedOut + 1;
      } else {
        active := active + 1;
        if Truthy(task.deadline) {
          var deadlineDate := parseDate(task.deadline);
          if deadlineDate.Some? && deadlineDate.value < now {
            expired := expired + 1;
          }
        }
      }
      i := i + 1;
    }
    assert tasks[..i] == tasks;
    stats := Stats(expired, active, completed, timedOut, |tasks|);
  }
}
