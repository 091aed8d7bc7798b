/**
 * The configuration store: the four JSON files under `data/` (tasks, logs,
 * settings, calendar overrides), how each is loaded with its defaults, and
 * the read-modify-write operations on them. Writing goes through the atomic
 * writer, modelled separately; here a saved value simply becomes the file's
 * content.
 */
module Store {
  import opened Wrappers
  import opened Text
  import opened Calendar
  import opened Strptime
  import opened Records
  import opened Seqs

  // ---------------------------------------------------------------------------
  // Files and loading
  // ---------------------------------------------------------------------------

  /** What a JSON file holds on disk: nothing, text `json.load` rejects, or a document. */
  datatype Stored<T> = Missing | Corrupt | Present(doc: T)

  /** Settings: the keys of `settings.json` with their boolean values. */
  type Settings = map<string, bool>

  /** Overrides: month key `YYYY-MM` to date key `YYYY-MM-DD` to "counted". */
  type Overrides = map<string, map<string, bool>>

  const ExcludeWeekendsKey: string := "exclude_weekends"

  const DefaultSettings: Settings := map[ExcludeWeekendsKey := false]

  /**
   * The four files. A tasks or logs document may lack its list key
   * (`data.get("tasks", [])`), hence the inner `Option`.
   */
  datatype Files = Files(
    tasks: Stored<Option<seq<Task>>>,
    logs: Stored<Option<seq<LogEntry>>>,
    settings: Stored<Settings>,
    overrides: Stored<Overrides>)

  /**
   * `load_tasks` and `load_logs`: the file's list; a missing file, text that is not JSON
   * file or a missing key gives `[]`.
   */
  function LoadList<T>(f: Stored<Option<seq<T>>>): (r: seq<T>)
    ensures f.Present? && f.doc.Some? ==> r == f.doc.value
    ensures !(f.Present? && f.doc.Some?) ==> r == []
  {
    if f.Present? && f.doc.Some? then f.doc.value else []
  }

  /** `load_tasks`: the `tasks` list of `tasks.json`. */
  function LoadTasks(f: Stored<Option<seq<Task>>>): (r: seq<Task>)
    ensures f.Present? && f.doc.Some? ==> r == f.doc.value
    ensures f.Missing? || f.Corrupt? || f.doc.None? ==> r == []
  {
    LoadList(f)
  }

  /** `load_logs`: the `logs` list of `logs.json`. */
  function LoadLogs(f: Stored<Option<seq<LogEntry>>>): (r: seq<LogEntry>)
    ensures f.Present? && f.doc.Some? ==> r == f.doc.value
    ensures f.Missing? || f.Corrupt? || f.doc.None? ==> r == []
  {
    LoadList(f)
  }

  /** `load_settings`: a missing file or one that is not JSON reads as `{"exclude_weekends": False}`. */
  function LoadSettings(f: Stored<Settings>): (r: Settings)
    ensures f.Present? ==> r == f.doc
    ensures !f.Present? ==> r == DefaultSettings
  {
    if f.Present? then f.doc else DefaultSettings
  }

  /** `load_calendar_overrides`: a missing file or one that is not JSON reads as `{}`. */
  function LoadOverrides(f: Stored<Overrides>): (r: Overrides)
    ensures f.Present? ==> r == f.doc
    ensures !f.Present? ==> r == map[]
  {
    if f.Present? then f.doc else map[]
  }

  /** `_save_tasks` writes `{"tasks": tasks}`: a readable document holding the list. */
  function SaveTasks(tasks: seq<Task>): (r: Stored<Option<seq<Task>>>)
    ensures r.Present? && r.doc.Some?
    ensures LoadTasks(r) == tasks
  {
    Present(Some(tasks))
  }

  /** `_save_logs` writes `{"logs": logs}`: a readable document holding the list. */
  function SaveLogs(logs: seq<LogEntry>): (r: Stored<Option<seq<LogEntry>>>)
    ensures r.Present? && r.doc.Some?
    ensures LoadLogs(r) == logs
  {
    Present(Some(logs))
  }

  /** Saving and loading are inverse: what was saved is read back. */
  lemma SaveLoadRoundTrip(tasks: seq<Task>, logs: seq<LogEntry>, s: Settings, o: Overrides)
    ensures LoadTasks(SaveTasks(tasks)) == tasks
    ensures LoadLogs(SaveLogs(logs)) == logs
    ensures LoadSettings(Present(s)) == s
    ensures LoadOverrides(Present(o)) == o
  {
  }

  /**
   * `_init_files`: each missing file is created with its empty default; a
   * file that exists, even one that is not JSON, is left alone.
   */
  function InitFiles(f: Files): (r: Files)
    ensures !r.tasks.Missing? && !r.logs.Missing? && !r.settings.Missing? && !r.overrides.Missing?
    ensures !f.tasks.Missing? ==> r.tasks == f.tasks
    ensures !f.logs.Missing? ==> r.logs == f.logs
    ensures !f.settings.Missing? ==> r.settings == f.settings
    ensures !f.overrides.Missing? ==> r.overrides == f.overrides
  {
    Files(
      if f.tasks.Missing? then SaveTasks([]) else f.tasks,
      if f.logs.Missing? then SaveLogs([]) else f.logs,
      if f.settings.Missing? then Present(DefaultSettings) else f.settings,
      if f.overrides.Missing? then Present(map[]) else f.overrides)
  }

  /** Creating the default files changes nothing any loader reports. */
  lemma InitPreservesLoads(f: Files)
    ensures LoadTasks(InitFiles(f).tasks) == LoadTasks(f.tasks)
    ensures LoadLogs(InitFiles(f).logs) == LoadLogs(f.logs)
    ensures LoadSettings(InitFiles(f).settings) == LoadSettings(f.settings)
    ensures LoadOverrides(InitFiles(f).overrides) == LoadOverrides(f.overrides)
  {
  }

  /** Initialising twice is the same as initialising once. */
  lemma InitIdempotent(f: Files)
    ensures InitFiles(InitFiles(f)) == InitFiles(f)
  {
  }

  // ---------------------------------------------------------------------------
  // Tasks
  // ---------------------------------------------------------------------------

  const TaskIdPrefix: string := "task_"

  /** The id `f"task_{n:03d}"`. */
  function TaskId(n: nat): string {
    TaskIdPrefix + Padded(n, 3)
  }

  /** The number an id of the form `task_<digits>` carries. */
  function IdNumber(id: string): Option<nat> {
    if StartsWith(id, TaskIdPrefix) then ParseDecimal(id[|TaskIdPrefix|..]) else None
  }

  /** Every generated id carries its number back. */
  lemma TaskIdNumber(n: nat)
    ensures IdNumber(TaskId(n)) == Some(n)
  {
    var id := TaskId(n);
    assert id[..|TaskIdPrefix|] == TaskIdPrefix;
    assert id[|TaskIdPrefix|..] == Padded(n, 3);
    PaddedParses(n, 3);
  }

  /** Distinct numbers give distinct ids. */
  lemma TaskIdInjective(a: nat, b: nat)
    ensures TaskId(a) == TaskId(b) <==> a == b
  {
    TaskIdNumber(a);
    TaskIdNumber(b);
  }

  /** The task `add_task` appends. */
  function NewTask(id: string, time: string, names: seq<string>, enabled: bool, today: Date): Task
    requires ValidDate(today)
  {
    Task(id, Some(time), names, Some(enabled), Some(DateString(today)), None)
  }

  /**
   * `add_task` as written: the new id is `task_` and one more than the
   * number of tasks, zero-padded to three digits.
   */
  function AddTaskAsWritten(tasks: seq<Task>, time: string, names: seq<string>, enabled: bool, today: Date): (r: (seq<Task>, string))
    requires ValidDate(today)
    ensures r.1 == TaskId(|tasks| + 1)
    ensures r.0 == tasks + [NewTask(r.1, time, names, enabled, today)]
  {
    var id := TaskId(|tasks| + 1);
    (tasks + [NewTask(id, time, names, enabled, today)], id)
  }

  /** Two additions to an empty list, as written, give the ids `task_001` and `task_002`. */
  lemma TwoAddsFromEmpty(time1: string, names1: seq<string>, time2: string, names2: seq<string>, enabled: bool, today: Date)
    requires ValidDate(today)
    ensures var first := AddTaskAsWritten([], time1, names1, enabled, today).0;
      var second := AddTaskAsWritten(first, time2, names2, enabled, today).0;
      |second| == 2 && second[0].id == TaskId(1) && second[1].id == TaskId(2)
  {
    var a := NewTask(TaskId(1), time1, names1, enabled, today);
    AddedAsWritten([], time1, names1, enabled, today, 1);
    AddedAsWritten([a], time2, names2, enabled, today, 2);
  }

  /**
   * After deleting `task_001` from such a list, the count-based id of the
   * next task is `task_002` again, the id of the task still in the list.
   */
  lemma AddAfterDeleteRepeatsId(tasks: seq<Task>, time: string, names: seq<string>, enabled: bool, today: Date)
    requires ValidDate(today)
    requires |tasks| == 2 && tasks[0].id == TaskId(1) && tasks[1].id == TaskId(2)
    ensures var r := AddTaskAsWritten(DeleteTask(tasks, TaskId(1)), time, names, enabled, today);
      |r.0| == 2 && r.1 == TaskId(2) && r.0[0].id == r.0[1].id == r.1
  {
    assert tasks == [tasks[0], tasks[1]];
    DeleteFirstOfTwo(tasks[0], tasks[1], 1, 2);
    AddedAsWritten([tasks[1]], time, names, enabled, today, 2);
  }

  /** `add_task` as written on a list of `n - 1` tasks appends a task with id number `n`. */
  lemma AddedAsWritten(tasks: seq<Task>, time: string, names: seq<string>, enabled: bool, today: Date, n: nat)
    requires ValidDate(today) && |tasks| + 1 == n
    ensures AddTaskAsWritten(tasks, time, names, enabled, today) == (tasks + [NewTask(TaskId(n), time, names, enabled, today)], TaskId(n))
  {
  }

  /** Deleting the id of the first of two tasks with different id numbers leaves the second. */
  lemma DeleteFirstOfTwo(a: Task, b: Task, i: nat, j: nat)
    requires a.id == TaskId(i) && b.id == TaskId(j) && i != j
    ensures DeleteTask([a, b], TaskId(i)) == [b]
  {
    TaskIdInjective(i, j);
    assert [a, b][1..][1..] == [];
  }

  /** The largest number carried by any id of the form `task_<digits>`, or 0. */
  function MaxIdNumber(tasks: seq<Task>): (n: nat)
    ensures forall k :: 0 <= k < |tasks| && IdNumber(tasks[k].id).Some? ==> IdNumber(tasks[k].id).value <= n
  {
    if |tasks| == 0 then 0
    else
      var rest := MaxIdNumber(tasks[..|tasks| - 1]);
      var last := IdNumber(tasks[|tasks| - 1].id);
      if last.Some? && last.value > rest then last.value else rest
  }

  /** The corrected id rule: one more than the largest number in use. */
  function FreshId(tasks: seq<Task>): (id: string)
    ensures forall k :: 0 <= k < |tasks| ==> tasks[k].id != id
  {
    var n := MaxIdNumber(tasks) + 1;
    TaskIdNumber(n);
    TaskId(n)
  }

  /**
   * `add_task` with the id rule corrected: the new task's id is used by no
   * existing task.
   */
  function AddTask(tasks: seq<Task>, time: string, names: seq<string>, enabled: bool, today: Date): (r: (seq<Task>, string))
    requires ValidDate(today)
    ensures forall k :: 0 <= k < |tasks| ==> tasks[k].id != r.1
    ensures r.0 == tasks + [NewTask(r.1, time, names, enabled, today)]
  {
    var id := FreshId(tasks);
    (tasks + [NewTask(id, time, names, enabled, today)], id)
  }

  /** Ids numbered `task_001`, `task_002`, ... in order: what a history of additions alone produces. */
  predicate NumberedInOrder(tasks: seq<Task>) {
    forall k :: 0 <= k < |tasks| ==> tasks[k].id == TaskId(k + 1)
  }

  /** Without deletions the corrected rule picks the same id as the original one. */
  lemma {:induction false} AddTaskAgreesWithoutDeletes(tasks: seq<Task>)
    requires NumberedInOrder(tasks)
    ensures MaxIdNumber(tasks) == |tasks|
    ensures FreshId(tasks) == TaskId(|tasks| + 1)
  {
    if |tasks| > 0 {
      var init := tasks[..|tasks| - 1];
      assert NumberedInOrder(init) by {
        forall k | 0 <= k < |init| ensures init[k].id == TaskId(k + 1) {
          assert init[k] == tasks[k];
        }
      }
      AddTaskAgreesWithoutDeletes(init);
      TaskIdNumber(|tasks|);
    }
  }

  /** Adding to a numbered list keeps it numbered. */
  lemma AddKeepsNumbered(tasks: seq<Task>, time: string, names: seq<string>, enabled: bool, today: Date)
    requires ValidDate(today) && NumberedInOrder(tasks)
    ensures NumberedInOrder(AddTask(tasks, time, names, enabled, today).0)
  {
    AddTaskAgreesWithoutDeletes(tasks);
    var id := FreshId(tasks);
    assert AddTask(tasks, time, names, enabled, today).0 == tasks + [NewTask(id, time, names, enabled, today)];
    SnocNumbered(tasks, NewTask(id, time, names, enabled, today));
  }

  /** A task numbered one past a numbered list extends it. */
  lemma SnocNumbered(tasks: seq<Task>, t: Task)
    requires NumberedInOrder(tasks) && t.id == TaskId(|tasks| + 1)
    ensures NumberedInOrder(tasks + [t])
  {
    forall k | 0 <= k < |tasks| + 1
      ensures (tasks + [t])[k].id == TaskId(k + 1)
    {
      if k < |tasks| {
        assert (tasks + [t])[k] == tasks[k];
      }
    }
  }

  /** Updates requested by `update_task`; an absent field is left as it is. */
  function ApplyUpdate(t: Task, time: Option<string>, names: Option<seq<string>>, enabled: Option<bool>): Task {
    t.(
      time := if time.Some? then time else t.time,
      names := names.GetOr(t.names),
      enabled := if enabled.Some? then enabled else t.enabled)
  }

  /** The index of the first task with `id`, or -1. */
  function FirstTaskWithId(tasks: seq<Task>, id: string): (i: int)
    ensures -1 <= i < |tasks|
    ensures i >= 0 ==> tasks[i].id == id && forall k :: 0 <= k < i ==> tasks[k].id != id
    ensures i == -1 ==> forall k :: 0 <= k < |tasks| ==> tasks[k].id != id
  {
    FirstIndex(tasks, (t: Task) => t.id == id)
  }

  /**
   * `update_task`: only the first task with the id changes (the loop
   * breaks); an unknown id leaves the list as it was.
   */
  function UpdateTask(tasks: seq<Task>, id: string, time: Option<string>, names: Option<seq<string>>, enabled: Option<bool>): (r: seq<Task>)
    ensures |r| == |tasks|
    ensures var i := FirstTaskWithId(tasks, id);
      forall k :: 0 <= k < |tasks| ==> r[k] == if k == i then ApplyUpdate(tasks[k], time, names, enabled) else tasks[k]
  {
    var i := FirstTaskWithId(tasks, id);
    if i < 0 then tasks else tasks[i := ApplyUpdate(tasks[i], time, names, enabled)]
  }

  /** Updating never changes an id, so the set of ids is preserved. */
  lemma UpdateKeepsIds(tasks: seq<Task>, id: string, time: Option<string>, names: Option<seq<string>>, enabled: Option<bool>)
    ensures forall k :: 0 <= k < |tasks| ==> UpdateTask(tasks, id, time, names, enabled)[k].id == tasks[k].id
  {
  }

  /** An update that supplies nothing changes nothing. */
  lemma EmptyUpdateIsIdentity(tasks: seq<Task>, id: string)
    ensures UpdateTask(tasks, id, None, None, None) == tasks
  {
    var r := UpdateTask(tasks, id, None, None, None);
    assert forall k :: 0 <= k < |tasks| ==> r[k] == tasks[k];
  }

  /** `delete_task`: every task with the id goes, the others stay in order. */
  function DeleteTask(tasks: seq<Task>, id: string): (r: seq<Task>)
    ensures forall t :: t in r <==> t in tasks && t.id != id
    ensures forall t: Task :: t.id != id ==> multiset(r)[t] == multiset(tasks)[t]
  {
    FilterCounts(tasks, (t: Task) => t.id != id);
    Filter(tasks, (t: Task) => t.id != id)
  }

  /** Deleting the task just added with a fresh id gives back the original list. */
  lemma DeleteUndoesAdd(tasks: seq<Task>, time: string, names: seq<string>, enabled: bool, today: Date)
    requires ValidDate(today)
    ensures var (added, id) := AddTask(tasks, time, names, enabled, today);
      DeleteTask(added, id) == tasks
  {
    var (added, id) := AddTask(tasks, time, names, enabled, today);
    var p := (t: Task) => t.id != id;
    FilterAppend(tasks, [NewTask(id, time, names, enabled, today)], p);
    FilterAll(tasks, p);
    assert Filter([NewTask(id, time, names, enabled, today)], p) == [];
  }

  // ---------------------------------------------------------------------------
  // Logs
  // ---------------------------------------------------------------------------

  /** The log entry `add_log` appends at instant `now`. */
  function NewLog(id: string, name: string, completed: bool, now: int): LogEntry
    requires InRange(now)
  {
    LogEntry(DateString(DateOf(now)), ClockString(now), id, name, completed)
  }

  /** `add_log`: one entry appended, stamped with today's date and the current `HH:MM`. */
  function AddLog(logs: seq<LogEntry>, id: string, name: string, completed: bool, now: int): (r: seq<LogEntry>)
    requires InRange(now)
    ensures |r| == |logs| + 1 && r[..|logs|] == logs
    ensures r[|logs|].date == DateString(DateOf(now)) && r[|logs|].time == ClockString(now)
    ensures r[|logs|].taskId == id && r[|logs|].taskName == name && r[|logs|].completed == completed
  {
    logs + [NewLog(id, name, completed, now)]
  }

  /** `get_logs_by_date`: the entries whose date text equals `date`, in file order. */
  function LogsByDate(logs: seq<LogEntry>, date: string): (r: seq<LogEntry>)
    ensures forall e :: e in r <==> e in logs && e.date == date
    ensures forall e: LogEntry :: e.date == date ==> multiset(r)[e] == multiset(logs)[e]
  {
    FilterCounts(logs, (e: LogEntry) => e.date == date);
    Filter(logs, (e: LogEntry) => e.date == date)
  }

  /** `get_logs_by_month`: the entries whose date text starts with `YYYY-MM`. */
  function LogsByMonth(logs: seq<LogEntry>, year: nat, month: nat): (r: seq<LogEntry>)
    ensures forall e :: e in r <==> e in logs && StartsWith(e.date, MonthKey(year, month))
    ensures forall e: LogEntry :: StartsWith(e.date, MonthKey(year, month)) ==> multiset(r)[e] == multiset(logs)[e]
  {
    FilterCounts(logs, (e: LogEntry) => StartsWith(e.date, MonthKey(year, month)));
    Filter(logs, (e: LogEntry) => StartsWith(e.date, MonthKey(year, month)))
  }

  /** A log added now is the last entry of today's logs. */
  lemma AddLogShowsToday(logs: seq<LogEntry>, id: string, name: string, completed: bool, now: int)
    requires InRange(now)
    ensures var date := DateString(DateOf(now));
      LogsByDate(AddLog(logs, id, name, completed, now), date) == LogsByDate(logs, date) + [NewLog(id, name, completed, now)]
  {
    SnocOnDate(logs, NewLog(id, name, completed, now), DateString(DateOf(now)));
  }

  /** An entry appended with a given date is the last of that date's entries. */
  lemma SnocOnDate(logs: seq<LogEntry>, e: LogEntry, date: string)
    requires e.date == date
    ensures LogsByDate(logs + [e], date) == LogsByDate(logs, date) + [e]
  {
    FilterSnoc(logs, e, (x: LogEntry) => x.date == date);
  }

  /** Every log of a day of the month is among that month's logs. */
  lemma DayLogsInMonth(logs: seq<LogEntry>, year: nat, month: nat, day: nat)
    ensures forall e :: e in LogsByDate(logs, DayKey(year, month, day)) ==> e in LogsByMonth(logs, year, month)
  {
  }

  /** The entries of the task's own logs, in file order. */
  function LogsOfTask(logs: seq<LogEntry>, id: string): (r: seq<LogEntry>)
    ensures forall e :: e in r <==> e in logs && e.taskId == id
    ensures forall e: LogEntry :: e.taskId == id ==> multiset(r)[e] == multiset(logs)[e]
  {
    FilterCounts(logs, (e: LogEntry) => e.taskId == id);
    Filter(logs, (e: LogEntry) => e.taskId == id)
  }

  /** The least date text in a non-empty list, by Python's string order. */
  function MinDate(logs: seq<LogEntry>): (r: string)
    requires |logs| > 0
    ensures exists k :: 0 <= k < |logs| && logs[k].date == r
    ensures forall k :: 0 <= k < |logs| ==> LexLe(r, logs[k].date)
  {
    if |logs| == 1 then
      LexLeRefl(logs[0].date);
      logs[0].date
    else
      var rest := MinDate(logs[1..]);
      LexLeTotal(logs[0].date, rest);
      if LexLe(logs[0].date, rest) then
        LexLeRefl(logs[0].date);
        forall k | 1 <= k < |logs| ensures LexLe(logs[0].date, logs[k].date) {
          assert logs[1..][k - 1] == logs[k];
          LexLeTrans(logs[0].date, rest, logs[k].date);
        }
        logs[0].date
      else
        assert logs[1..][0] == logs[1];
        assert forall k :: 1 <= k < |logs| ==> logs[1..][k - 1] == logs[k];
        rest
  }

  /**
   * `get_task_created_date`: a non-empty stored creation date; otherwise
   * the earliest date among the task's logs (the first after sorting by
   * date); otherwise today.
   */
  function CreatedDate(task: Task, logs: seq<LogEntry>, today: Date): (r: string)
    requires ValidDate(today)
    ensures task.createdDate.Some? && task.createdDate.value != "" ==> r == task.createdDate.value
    ensures !(task.createdDate.Some? && task.createdDate.value != "") && |LogsOfTask(logs, task.id)| > 0 ==>
      (exists e :: e in logs && e.taskId == task.id && e.date == r)
      && forall e :: e in logs && e.taskId == task.id ==> LexLe(r, e.date)
    ensures !(task.createdDate.Some? && task.createdDate.value != "") && |LogsOfTask(logs, task.id)| == 0 ==>
      r == DateString(today)
  {
    if task.createdDate.Some? && task.createdDate.value != "" then task.createdDate.value
    else
      var own := LogsOfTask(logs, task.id);
      if |own| > 0 then
        var r := MinDate(own);
        assert forall e :: e in own ==> exists k :: 0 <= k < |own| && own[k] == e;
        r
      else DateString(today)
  }

  /** The creation date of a task added today is today's date, whatever the logs say. */
  lemma AddedTaskCreatedToday(tasks: seq<Task>, time: string, names: seq<string>, enabled: bool, today: Date, logs: seq<LogEntry>)
    requires ValidDate(today)
    ensures var (added, id) := AddTask(tasks, time, names, enabled, today);
      CreatedDate(added[|tasks|], logs, today) == DateString(today)
  {
    var (added, id) := AddTask(tasks, time, names, enabled, today);
    MatchDashDate(DateString(today), today);
  }

  // ---------------------------------------------------------------------------
  // Settings and calendar overrides
  // ---------------------------------------------------------------------------

  /** `settings.get("exclude_weekends", False)` */
  function GetExcludeWeekends(s: Settings): (r: bool)
    ensures ExcludeWeekendsKey in s ==> r == s[ExcludeWeekendsKey]
    ensures ExcludeWeekendsKey !in s ==> !r
  {
    if ExcludeWeekendsKey in s then s[ExcludeWeekendsKey] else false
  }

  /** `set_exclude_weekends`: the flag is replaced, every other setting kept. */
  function SetExcludeWeekends(s: Settings, exclude: bool): (r: Settings)
    ensures forall k :: k in s && k != ExcludeWeekendsKey ==> k in r && r[k] == s[k]
    ensures r.Keys == s.Keys + {ExcludeWeekendsKey}
  {
    s[ExcludeWeekendsKey := exclude]
  }

  /** Reading the flag back gives what was set. */
  lemma SetThenGetExcludeWeekends(s: Settings, exclude: bool)
    ensures GetExcludeWeekends(SetExcludeWeekends(s, exclude)) == exclude
  {
  }

  /** `get_month_overrides`: the month's day map, empty when the month has none. */
  function GetMonthOverrides(o: Overrides, year: nat, month: nat): (r: map<string, bool>)
    ensures MonthKey(year, month) in o ==> r == o[MonthKey(year, month)]
    ensures MonthKey(year, month) !in o ==> r == map[]
  {
    if MonthKey(year, month) in o then o[MonthKey(year, month)] else map[]
  }

  /** `set_day_override`: records the day under its month, creating the month's map when needed. */
  function SetDayOverride(o: Overrides, year: nat, month: nat, day: nat, included: bool): (r: Overrides)
    ensures MonthKey(year, month) in r
    ensures DayKey(year, month, day) in r[MonthKey(year, month)] && r[MonthKey(year, month)][DayKey(year, month, day)] == included
  {
    o[MonthKey(year, month) := GetMonthOverrides(o, year, month)[DayKey(year, month, day) := included]]
  }

  /** Setting an override adds the day under its month and keeps every other month and every other day of the month. */
  lemma SetDayOverrideKeeps(o: Overrides, year: nat, month: nat, day: nat, included: bool)
    ensures var r := SetDayOverride(o, year, month, day, included);
      r.Keys == o.Keys + {MonthKey(year, month)}
      && (forall k :: k in o && k != MonthKey(year, month) ==> r[k] == o[k])
    ensures var days := SetDayOverride(o, year, month, day, included)[MonthKey(year, month)];
      DayKey(year, month, day) in days && days[DayKey(year, month, day)] == included
      && forall k :: k in GetMonthOverrides(o, year, month) && k != DayKey(year, month, day) ==>
           k in days && days[k] == GetMonthOverrides(o, year, month)[k]
  {
  }

  /** `clear_month_overrides`: the month's entry is removed; other months are untouched. */
  function ClearMonthOverrides(o: Overrides, year: nat, month: nat): (r: Overrides)
    ensures MonthKey(year, month) !in r
    ensures forall k :: k in o && k != MonthKey(year, month) <==> k in r
    ensures forall k :: k in r ==> r[k] == o[k]
  {
    o - {MonthKey(year, month)}
  }

  /** The rule for a day without an override: weekdays only when weekends are excluded, otherwise every day. */
  predicate DefaultIncluded(s: Settings, d: Date)
    requires ValidDate(d)
  {
    !GetExcludeWeekends(s) || Weekday(ToOrdinal(d)) < 5
  }

  /**
   * `is_date_included`: an override recorded for the date under its month
   * decides; otherwise the default rule does.
   */
  function IsDateIncluded(o: Overrides, s: Settings, d: Date): (r: bool)
    requires ValidDate(d)
    ensures DateString(d) in GetMonthOverrides(o, d.year as nat, d.month as nat) ==>
      r == GetMonthOverrides(o, d.year as nat, d.month as nat)[DateString(d)]
    ensures !r ==> (DateString(d) in GetMonthOverrides(o, d.year as nat, d.month as nat)
                    || (GetExcludeWeekends(s) && Weekday(ToOrdinal(d)) >= 5))
    ensures !GetExcludeWeekends(s) && DateString(d) !in GetMonthOverrides(o, d.year as nat, d.month as nat) ==> r
  {
    var days := GetMonthOverrides(o, d.year as nat, d.month as nat);
    if DateString(d) in days then days[DateString(d)]
    else if GetExcludeWeekends(s) then Weekday(ToOrdinal(d)) < 5
    else true
  }

  /** A stored date key names exactly one day of its month. */
  lemma DayKeyInjective(year: nat, month: nat, a: nat, b: nat)
    requires ValidDate(Date(year, month, a)) && ValidDate(Date(year, month, b))
    ensures DayKey(year, month, a) == DayKey(year, month, b) <==> a == b
  {
    ParseDateString(Date(year, month, a));
    ParseDateString(Date(year, month, b));
  }

  /** After setting an override the day reads back exactly as set. */
  lemma SetOverrideDecides(o: Overrides, s: Settings, d: Date, included: bool)
    requires ValidDate(d)
    ensures IsDateIncluded(SetDayOverride(o, d.year as nat, d.month as nat, d.day as nat, included), s, d) == included
  {
  }

  /** Setting an override for one day leaves every other day of every month as it was. */
  lemma SetOverrideLocal(o: Overrides, s: Settings, d: Date, other: Date, included: bool)
    requires ValidDate(d) && ValidDate(other) && other != d
    ensures IsDateIncluded(SetDayOverride(o, d.year as nat, d.month as nat, d.day as nat, included), s, other)
         == IsDateIncluded(o, s, other)
  {
    if other.year == d.year && other.month == d.month {
      DayKeyInjective(d.year as nat, d.month as nat, d.day as nat, other.day as nat);
    } else {
      MonthKeyInjective(d, other);
    }
  }

  /** Two dates in different months have different month keys. */
  lemma MonthKeyInjective(a: Date, b: Date)
    requires ValidDate(a) && ValidDate(b)
    requires a.year != b.year || a.month != b.month
    ensures MonthKey(a.year as nat, a.month as nat) != MonthKey(b.year as nat, b.month as nat)
  {
    var ka := MonthKey(a.year as nat, a.month as nat);
    var kb := MonthKey(b.year as nat, b.month as nat);
    if ka == kb {
      var a1 := Date(a.year, a.month, 1);
      var b1 := Date(b.year, b.month, 1);
      assert DateString(a1) == ka + "-" + Padded(1, 2);
      assert DateString(b1) == kb + "-" + Padded(1, 2);
      ParseDateString(a1);
      ParseDateString(b1);
      assert false;
    }
  }

  /** Clearing a month's overrides returns each of its days to the default rule. */
  lemma ClearRestoresDefault(o: Overrides, s: Settings, d: Date)
    requires ValidDate(d)
    ensures IsDateIncluded(ClearMonthOverrides(o, d.year as nat, d.month as nat), s, d) == DefaultIncluded(s, d)
  {
  }

  /** With weekends excluded and no override, Saturday and Sunday are not counted. */
  lemma WeekendsExcluded(o: Overrides, s: Settings, d: Date)
    requires ValidDate(d) && GetExcludeWeekends(s)
    requires DateString(d) !in GetMonthOverrides(o, d.year as nat, d.month as nat)
    ensures IsDateIncluded(o, s, d) <==> Weekday(ToOrdinal(d)) < 5
  {
  }
}
