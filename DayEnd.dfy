/** The day-end archiver's arithmetic: completion statistics of a task list,
    the rounded percentage, and the rolling most-recent-first history log. */
module DayEnd {
  import opened Tasks

  /** Most entries the history log keeps. */
  const HistoryLimit := 30

  /** One archived day. */
  datatype Entry = Entry(date: string, total: nat, completed: nat, percentage: nat)

  /** What the progress panel shows for the current list and what an archived
      entry records. */
  datatype Stats = Stats(total: nat, completed: nat, percentage: nat)

  /** Length of the list of completed tasks. */
  function CompletedCount(tasks: seq<Task>): (n: nat)
    ensures n <= |tasks|
  {
    if tasks == [] then 0
    else (if tasks[0].completed then 1 else 0) + CompletedCount(tasks[1..])
  }

  predicate AllCompleted(tasks: seq<Task>) {
    forall i :: 0 <= i < |tasks| ==> tasks[i].completed
  }

  predicate NoneCompleted(tasks: seq<Task>) {
    forall i :: 0 <= i < |tasks| ==> !tasks[i].completed
  }

  /** The count reaches the list's length exactly when every task is done, and
      is zero exactly when none is. */
  lemma {:induction false} CompletedCountExtremes(tasks: seq<Task>)
    ensures CompletedCount(tasks) == |tasks| <==> AllCompleted(tasks)
    ensures CompletedCount(tasks) == 0 <==> NoneCompleted(tasks)
  {
    if tasks != [] {
      CompletedCountExtremes(tasks[1..]);
      assert AllCompleted(tasks) <==> tasks[0].completed && AllCompleted(tasks[1..]) by {
        if tasks[0].completed && AllCompleted(tasks[1..]) {
          forall i | 1 <= i < |tasks|
            ensures tasks[i].completed
          {
            assert tasks[i] == tasks[1..][i - 1];
          }
        }
      }
      assert NoneCompleted(tasks) <==> !tasks[0].completed && NoneCompleted(tasks[1..]) by {
        if !tasks[0].completed && NoneCompleted(tasks[1..]) {
          forall i | 1 <= i < |tasks|
            ensures !tasks[i].completed
          {
            assert tasks[i] == tasks[1..][i - 1];
          }
        }
      }
    }
  }

  /** `completed / total * 100` rounded half up to an integer, computed
      exactly; 0 for an empty list. */
  function Percentage(completed: nat, total: nat): nat {
    if total > 0 then (200 * completed + total) / (2 * total) else 0
  }

  /** For a non-empty list the percentage is the integer nearest to
      100 * completed / total, halves going up. */
  lemma PercentageIsNearest(completed: nat, total: nat)
    requires total > 0
    ensures var p := Percentage(completed, total);
            2 * total * p - total <= 200 * completed < 2 * total * p + total
  {
    var p := Percentage(completed, total);
    var n, d := 200 * completed + total, 2 * total;
    assert n == d * p + n % d && 0 <= n % d < d;
  }

  lemma MulMonotone(x: nat, a: int, b: int)
    requires a <= b
    ensures x * a <= x * b
  {
    assert x * b - x * a == x * (b - a);
  }

  /** The percentage of a valid count lies in 0..100, is 0 for an empty list or
      when nothing is done, and 100 when everything is done. */
  lemma PercentageBounds(completed: nat, total: nat)
    requires completed <= total
    ensures Percentage(completed, total) <= 100
    ensures total == 0 || completed == 0 ==> Percentage(completed, total) == 0
    ensures 0 < total == completed ==> Percentage(completed, total) == 100
  {
    if total > 0 {
      var p := Percentage(completed, total);
      PercentageIsNearest(completed, total);
      MulMonotone(200, completed, total);
      if p > 100 {
        MulMonotone(2 * total, 101, p);
      }
      if completed == 0 && p > 0 {
        MulMonotone(2 * total, 1, p);
      }
      if completed == total && p < 100 {
        MulMonotone(2 * total, p, 99);
      }
    }
  }

  /** Counts and percentage of a task list, as shown for today and as archived
      at day end. */
  function StatsOf(tasks: seq<Task>): (s: Stats)
    ensures s.total == |tasks| && s.completed <= s.total && s.percentage <= 100
    ensures s.total == 0 || NoneCompleted(tasks) ==> s.completed == 0 && s.percentage == 0
    ensures s.total > 0 && AllCompleted(tasks) ==> s.completed == s.total && s.percentage == 100
  {
    var completed := CompletedCount(tasks);
    CompletedCountExtremes(tasks);
    PercentageBounds(completed, |tasks|);
    Stats(|tasks|, completed, Percentage(completed, |tasks|))
  }

  function Min(a: int, b: int): int {
    if a < b then a else b
  }

  /** The first HistoryLimit entries of a log (all of them if it is shorter):
      a prefix of the log, never longer than the cap, the whole log when it
      fits and exactly HistoryLimit entries when it does not. */
  function Window(log: seq<Entry>): (r: seq<Entry>)
    ensures r <= log && |r| <= HistoryLimit
    ensures |log| <= HistoryLimit ==> r == log
    ensures |log| >= HistoryLimit ==> |r| == HistoryLimit
  {
    log[..Min(|log|, HistoryLimit)]
  }

  /** The log after a day end: the new entry first, then the older entries in
      order, capped at HistoryLimit so the oldest ones fall off the end. */
  function Archived(log: seq<Entry>, entry: Entry): (r: seq<Entry>)
    ensures |r| == Min(|log| + 1, HistoryLimit) <= HistoryLimit
    ensures r[0] == entry
    ensures r[1..] == log[..Min(|log|, HistoryLimit - 1)]
  {
    Window([entry] + log)
  }

  function Reversed(s: seq<Entry>): seq<Entry> {
    if s == [] then [] else Reversed(s[1..]) + [s[0]]
  }

  /** The log after archiving `days` one by one, oldest first. */
  function ArchivedAll(log: seq<Entry>, days: seq<Entry>): seq<Entry>
    decreases days
  {
    if days == [] then log else ArchivedAll(Archived(log, days[0]), days[1..])
  }

  /** Capping twice is capping once. */
  lemma WindowAbsorbs(front: seq<Entry>, log: seq<Entry>)
    ensures Window(front + Window(log)) == Window(front + log)
  {
    if |log| > HistoryLimit {
      var a, b := front + Window(log), front + log;
      assert |Window(a)| == |Window(b)| == HistoryLimit;
      forall k | 0 <= k < HistoryLimit
        ensures Window(a)[k] == Window(b)[k]
      {
        if k >= |front| {
          assert a[k] == log[k - |front|];
        }
      }
    }
  }

  /** The log is a rolling window: after any run of day ends it holds the most
      recent HistoryLimit entries, newest first, with the older log behind them. */
  lemma {:induction false} ArchivedAllIsWindow(log: seq<Entry>, days: seq<Entry>)
    requires days != [] || |log| <= HistoryLimit
    ensures ArchivedAll(log, days) == Window(Reversed(days) + log)
    decreases days
  {
    if days == [] {
      assert Reversed(days) + log == log;
    } else {
      var next := Archived(log, days[0]);
      ArchivedAllIsWindow(next, days[1..]);
      WindowAbsorbs(Reversed(days[1..]), [days[0]] + log);
      assert Reversed(days[1..]) + ([days[0]] + log) == Reversed(days) + log;
    }
  }
}
