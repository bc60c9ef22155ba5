/** The `DailyTodoApp` component's state and handlers, over a key-value store
    that holds the two persisted records as structured values. */
module App {
  import opened JsText
  import opened Tasks
  import opened DayEnd

  /** The record persisted under the "daily-tasks" key: the day a task list
      belongs to, as a YYYY-MM-DD string, and the list itself. */
  datatype DailyState = DailyState(date: string, tasks: seq<Task>)

  /** What reading a key and parsing its value yields: nothing stored, a value
      that does not parse, or the parsed value. */
  datatype Slot<T> = Absent | Corrupt | Present(value: T)

  /** The persistent store, restricted to the two keys the component uses. */
  class Store {
    var dailyTasks: Slot<DailyState>
    var dailyHistory: Slot<seq<Entry>>

    constructor (dailyTasks: Slot<DailyState>, dailyHistory: Slot<seq<Entry>>)
      ensures this.dailyTasks == dailyTasks && this.dailyHistory == dailyHistory
    {
      this.dailyTasks := dailyTasks;
      this.dailyHistory := dailyHistory;
    }
  }

  /** The component. Dates and new ids are the clock readings the handlers
      would take, and each `ok` flag says whether the corresponding store
      write succeeded; a failed write is swallowed and leaves the in-memory
      state changed. */
  class DailyTodoApp {
    var tasks: seq<Task>
    var newTask: string
    var dailyHistory: seq<Entry>
    var showProgress: bool
    const store: Store

    /** The store's task record is today's list, exactly as held in memory. */
    ghost predicate InSync(today: string)
      reads this, store
    {
      store.dailyTasks == Present(DailyState(today, tasks))
    }

    /** Mounting: every piece of state starts empty. */
    constructor (store: Store)
      ensures this.store == store
      ensures tasks == [] && newTask == [] && dailyHistory == [] && !showProgress
    {
      this.store := store;
      tasks, newTask, dailyHistory, showProgress := [], [], [], false;
    }

    /** Startup load. `readOk` says whether both key reads succeeded; if one
        failed, nothing is loaded. A stored list is taken only when it is dated
        today; a stored log is taken unless the task record failed to parse
        first, which abandons the load. Nothing is written back. */
    method LoadData(today: string, readOk: bool)
      modifies this
      ensures tasks == if readOk && store.dailyTasks.Present? && store.dailyTasks.value.date == today
                       then store.dailyTasks.value.tasks else old(tasks)
      ensures dailyHistory == if readOk && !store.dailyTasks.Corrupt? && store.dailyHistory.Present?
                              then store.dailyHistory.value else old(dailyHistory)
      ensures newTask == old(newTask) && showProgress == old(showProgress)
    {
      if !readOk {
        return;
      }
      match store.dailyTasks {
        case Corrupt =>
          return;
        case Present(data) =>
          if data.date == today {
            tasks := data.tasks;
          }
        case Absent =>
      }
      if store.dailyHistory.Present? {
        dailyHistory := store.dailyHistory.value;
      }
    }

    /** Writes today's record for `updated` under "daily-tasks". */
    method SaveTasks(updated: seq<Task>, today: string, ok: bool)
      modifies store
      ensures store.dailyTasks == if ok then Present(DailyState(today, updated)) else old(store.dailyTasks)
      ensures store.dailyHistory == old(store.dailyHistory)
    {
      if ok {
        store.dailyTasks := Present(DailyState(today, updated));
      }
    }

    /** Writes `log` under "daily-history". */
    method SaveHistory(log: seq<Entry>, ok: bool)
      modifies store
      ensures store.dailyHistory == if ok then Present(log) else old(store.dailyHistory)
      ensures store.dailyTasks == old(store.dailyTasks)
    {
      if ok {
        store.dailyHistory := Present(log);
      }
    }

    /** Typing into the input box. */
    method EditNewTask(text: string)
      modifies this
      ensures newTask == text
      ensures tasks == old(tasks) && dailyHistory == old(dailyHistory) && showProgress == old(showProgress)
    {
      newTask := text;
    }

    /** Adds the input, as typed and untrimmed, as a new open task at the end of
        the list, unless the input is blank; a blank input changes nothing. */
    method AddTask(id: int, today: string, ok: bool)
      modifies this, store
      ensures AllTrimmable(old(newTask)) ==>
                tasks == old(tasks) && newTask == old(newTask) && unchanged(store)
      ensures !AllTrimmable(old(newTask)) ==>
                tasks == old(tasks) + [Task(id, old(newTask), false)] && newTask == []
                && (ok ==> InSync(today))
                && (!ok ==> store.dailyTasks == old(store.dailyTasks))
                && store.dailyHistory == old(store.dailyHistory)
      ensures dailyHistory == old(dailyHistory) && showProgress == old(showProgress)
    {
      TrimEmptyIffBlank(newTask);
      if Trim(newTask) != [] {
        var updated := tasks + [Task(id, newTask, false)];
        tasks := updated;
        SaveTasks(updated, today, ok);
        newTask := [];
      }
    }

    /** Flips `completed` on every task carrying `id`; an unknown id leaves
        the list as it is (and still rewrites the record). */
    method ToggleTask(id: int, today: string, ok: bool)
      modifies this, store
      ensures tasks == Toggled(old(tasks), id)
      ensures |tasks| == |old(tasks)|
      ensures ok ==> InSync(today)
      ensures !ok ==> store.dailyTasks == old(store.dailyTasks)
      ensures store.dailyHistory == old(store.dailyHistory)
      ensures newTask == old(newTask) && dailyHistory == old(dailyHistory) && showProgress == old(showProgress)
    {
      ToggledPointwise(tasks, id);
      var updated := Toggled(tasks, id);
      tasks := updated;
      SaveTasks(updated, today, ok);
    }

    /** Removes every task carrying `id`, keeping the rest in order. */
    method DeleteTask(id: int, today: string, ok: bool)
      modifies this, store
      ensures tasks == Without(old(tasks), id)
      ensures !HasId(tasks, id) && |tasks| <= |old(tasks)|
      ensures ok ==> InSync(today)
      ensures !ok ==> store.dailyTasks == old(store.dailyTasks)
      ensures store.dailyHistory == old(store.dailyHistory)
      ensures newTask == old(newTask) && dailyHistory == old(dailyHistory) && showProgress == old(showProgress)
    {
      WithoutRemovesId(tasks, id);
      var updated := Without(tasks, id);
      tasks := updated;
      SaveTasks(updated, today, ok);
    }

    /** Archives today's statistics at the head of the log, capped at
        HistoryLimit entries, saves the log, clears and saves the task list,
        and opens the progress view. The clock is read twice: `entryDate`
        dates the archived entry, and `saveDate` is read inside the task save,
        after the history write has been awaited, so the two differ when the
        UTC date changes in between. */
    method EndDay(entryDate: string, saveDate: string, historyOk: bool, tasksOk: bool)
      modifies this, store
      ensures var s := StatsOf(old(tasks));
              dailyHistory == Archived(old(dailyHistory), Entry(entryDate, s.total, s.completed, s.percentage))
      ensures dailyHistory[0].date == entryDate
      ensures |dailyHistory| <= HistoryLimit
      ensures dailyHistory[0].total == |old(tasks)| && dailyHistory[0].completed <= dailyHistory[0].total
      ensures dailyHistory[0].percentage <= 100
      ensures dailyHistory[1..] == old(dailyHistory)[..Min(|old(dailyHistory)|, HistoryLimit - 1)]
      ensures store.dailyHistory == if historyOk then Present(dailyHistory) else old(store.dailyHistory)
      ensures tasks == [] && showProgress
      ensures store.dailyTasks == if tasksOk then Present(DailyState(saveDate, [])) else old(store.dailyTasks)
      ensures newTask == old(newTask)
    {
      var s := StatsOf(tasks);
      var entry := Entry(entryDate, s.total, s.completed, s.percentage);
      var updated := Archived(dailyHistory, entry);
      dailyHistory := updated;
      SaveHistory(updated, historyOk);
      tasks := [];
      SaveTasks([], saveDate, tasksOk);
      showProgress := true;
    }

    /** The figures the progress panel shows for the current list. */
    function TodayStats(): (s: Stats)
      reads this
      ensures s.total == |tasks| && s.completed <= s.total && s.percentage <= 100
      ensures s.total == 0 ==> s.percentage == 0
      ensures s.total > 0 && AllCompleted(tasks) ==> s.percentage == 100
    {
      StatsOf(tasks)
    }
  }

  /** Ending a day (with no change of date between its two clock readings)
      and reloading on that date brings back no tasks, while the archived
      entry is reloaded at the head of the log. */
  method EndDayThenReload(app: DailyTodoApp, today: string) returns (reloaded: DailyTodoApp)
    modifies app, app.store
    ensures reloaded.tasks == []
    ensures reloaded.dailyHistory == app.dailyHistory && |reloaded.dailyHistory| <= HistoryLimit
    ensures |reloaded.dailyHistory| > 0 && reloaded.dailyHistory[0].date == today
  {
    app.EndDay(today, today, true, true);
    reloaded := new DailyTodoApp(app.store);
    reloaded.LoadData(today, true);
  }
}
