/**
 * The task dialog of the settings window: the list of sub-item names the
 * user builds with the add and remove buttons, and the validation the OK
 * button performs before the dialog hands back `(time, names, enabled)`.
 */
module SettingsDialog {
  import opened Wrappers
  import opened Text
  import opened Calendar
  import opened Records
  import opened Schedule
  import opened Store

  // ---------------------------------------------------------------------------
  // The sub-item list
  // ---------------------------------------------------------------------------

  /**
   * `_add_task_name`: the entry text, stripped, is appended to the list and
   * the entry cleared; blank text changes nothing. The result is the new
   * list and the new entry text.
   */
  function AddName(names: seq<string>, entry: string): (r: (seq<string>, string))
    ensures Strip(entry) != "" ==> r.0 == names + [Strip(entry)] && r.1 == ""
    ensures Strip(entry) == "" ==> r == (names, entry)
  {
    var name := Strip(entry);
    if name != "" then (names + [name], "") else (names, entry)
  }

  /**
   * `_remove_task_name`: the first selected row is deleted; with nothing
   * selected the list is unchanged. The listbox only reports rows it has.
   */
  function RemoveName(names: seq<string>, selection: seq<int>): (r: seq<string>)
    requires forall k :: 0 <= k < |selection| ==> 0 <= selection[k] < |names|
    ensures selection == [] ==> r == names
    ensures selection != [] ==> |r| == |names| - 1
    ensures selection != [] ==> forall k :: 0 <= k < |r| ==> r[k] == if k < selection[0] then names[k] else names[k + 1]
  {
    if selection == [] then names
    else names[..selection[0]] + names[selection[0] + 1..]
  }

  /** Removing a row takes exactly that one name out of the list. */
  lemma RemoveNameMultiset(names: seq<string>, i: int)
    requires 0 <= i < |names|
    ensures multiset(RemoveName(names, [i])) + multiset{names[i]} == multiset(names)
  {
    assert names == names[..i] + [names[i]] + names[i + 1..];
  }

  /** Adding a name and then removing the row it landed in gives back the original list. */
  lemma AddThenRemove(names: seq<string>, entry: string)
    requires Strip(entry) != ""
    ensures RemoveName(AddName(names, entry).0, [|names|]) == names
  {
    var added := AddName(names, entry).0;
    assert added[..|names|] == names;
  }

  /** Every name the add button puts in the list is non-blank and has no surrounding whitespace. */
  lemma AddedNameStripped(names: seq<string>, entry: string)
    requires Strip(entry) != ""
    ensures var added := AddName(names, entry).0;
      added[|names|] != "" && Strip(added[|names|]) == added[|names|]
  {
    StripNoSpace(Strip(entry));
  }

  // ---------------------------------------------------------------------------
  // The OK button
  // ---------------------------------------------------------------------------

  /** Why the OK button refuses to close the dialog (each shows an error box). */
  datatype DialogError = EmptyTime | BadTimeFormat | NoNames

  /** What the dialog hands back: the time text, the sub-item names and the enabled flag. */
  datatype DialogResult = DialogResult(time: string, names: seq<string>, enabled: bool)

  /**
   * `TaskDialog._ok_clicked`: the time text is stripped; it must be
   * non-empty, then split at `:` into exactly two `int()` values with the
   * hour in 0..23 and the minute in 0..59, and the list must hold at least
   * one name. The checks run in that order and the first failure is reported.
   */
  function OkClicked(timeText: string, names: seq<string>, enabled: bool): (r: Result<DialogResult, DialogError>)
    ensures r.Ok? <==> Strip(timeText) != "" && ValidClock(Strip(timeText)) && names != []
    ensures r == Err(EmptyTime) <==> Strip(timeText) == ""
    ensures r == Err(BadTimeFormat) <==> Strip(timeText) != "" && !ValidClock(Strip(timeText))
    ensures r.Ok? ==> r.value == DialogResult(Strip(timeText), names, enabled)
  {
    var time := Strip(timeText);
    if time == "" then Err(EmptyTime)
    else if !ValidClock(time) then Err(BadTimeFormat)
    else if names == [] then Err(NoNames)
    else Ok(DialogResult(time, names, enabled))
  }

  /** A time the dialog accepts is one the schedule calculator accepts: the task gets a base time every day. */
  lemma AcceptedTimeSchedules(timeText: string, names: seq<string>, enabled: bool, task: Task, now: int)
    requires InRange(now)
    requires OkClicked(timeText, names, enabled).Ok?
    requires task.time == Some(OkClicked(timeText, names, enabled).value.time)
    ensures BaseTime(task, now).Some?
  {
  }

  /** The dialog accepts a time exactly when it is non-blank and the schedule calculator would accept it once stripped. */
  lemma AcceptedIffSchedulable(timeText: string, names: seq<string>, enabled: bool, task: Task, now: int)
    requires InRange(now) && names != []
    requires task.time == Some(Strip(timeText))
    ensures OkClicked(timeText, names, enabled).Ok? <==> BaseTime(task, now).Some?
  {
  }

  /** The time handed back is already stripped, so validating it again gives the same answer. */
  lemma ResultTimeStable(timeText: string, names: seq<string>, enabled: bool)
    requires OkClicked(timeText, names, enabled).Ok?
    ensures var res := OkClicked(timeText, names, enabled).value;
      OkClicked(res.time, res.names, res.enabled) == Ok(res)
  {
    StripNoSpace(Strip(timeText));
  }

  /** Every zero-padded `HH:MM` time with at least one name is accepted as typed. */
  lemma PaddedTimeAccepted(h: nat, m: nat, names: seq<string>, enabled: bool)
    requires h <= 23 && m <= 59 && names != []
    ensures var text := Padded(h, 2) + ":" + Padded(m, 2);
      OkClicked(text, names, enabled) == Ok(DialogResult(text, names, enabled))
  {
    PaddedClockAccepted(h, m);
    PaddedClockStripped(h, m);
    AcceptedAsTyped(Padded(h, 2) + ":" + Padded(m, 2), names, enabled);
  }

  /** A padded `HH:MM` text has no surrounding whitespace. */
  lemma PaddedClockStripped(h: nat, m: nat)
    requires h <= 23 && m <= 59
    ensures var text := Padded(h, 2) + ":" + Padded(m, 2);
      text != "" && Strip(text) == text
  {
    var a, b := Padded(h, 2), Padded(m, 2);
    var text := a + ":" + b;
    PaddedExact(h, 2);
    PaddedExact(m, 2);
    assert text[0] == a[0];
    assert text[|text| - 1] == b[1];
    StripNoSpace(text);
  }

  /** A valid time without surrounding whitespace, with at least one name, is accepted exactly as typed. */
  lemma AcceptedAsTyped(text: string, names: seq<string>, enabled: bool)
    requires text != "" && Strip(text) == text && ValidClock(text) && names != []
    ensures OkClicked(text, names, enabled) == Ok(DialogResult(text, names, enabled))
  {
  }

  /**
   * `SettingsWindow._add_task`: an accepted dialog adds the task through
   * `add_task` as written, so the new id is one more than the number of
   * tasks; a refused one leaves the task list as it was.
   */
  function AddFromDialog(tasks: seq<Task>, timeText: string, names: seq<string>, enabled: bool, today: Date): (r: seq<Task>)
    requires ValidDate(today)
    ensures OkClicked(timeText, names, enabled).Err? ==> r == tasks
    ensures OkClicked(timeText, names, enabled).Ok? ==> |r| == |tasks| + 1 && r[..|tasks|] == tasks
    ensures OkClicked(timeText, names, enabled).Ok? ==>
      && r[|tasks|].id == TaskId(|tasks| + 1)
      && r[|tasks|].time == Some(Strip(timeText)) && r[|tasks|].names == names && r[|tasks|].enabled == Some(enabled)
  {
    match OkClicked(timeText, names, enabled)
    case Err(_) => tasks
    case Ok(res) => AddTaskAsWritten(tasks, res.time, res.names, res.enabled, today).0
  }

  /** The dialog addition built on the corrected id rule: the new id is used by no existing task. */
  function CorrectedAddFromDialog(tasks: seq<Task>, timeText: string, names: seq<string>, enabled: bool, today: Date): (r: seq<Task>)
    requires ValidDate(today)
    ensures OkClicked(timeText, names, enabled).Err? ==> r == tasks
    ensures OkClicked(timeText, names, enabled).Ok? ==> |r| == |tasks| + 1 && r[..|tasks|] == tasks
    ensures OkClicked(timeText, names, enabled).Ok? ==>
      && (forall k :: 0 <= k < |tasks| ==> tasks[k].id != r[|tasks|].id)
      && r[|tasks|].time == Some(Strip(timeText)) && r[|tasks|].names == names && r[|tasks|].enabled == Some(enabled)
  {
    match OkClicked(timeText, names, enabled)
    case Err(_) => tasks
    case Ok(res) => AddTask(tasks, res.time, res.names, res.enabled, today).0
  }

  /** On a list built by additions alone the two dialog additions give the same list. */
  lemma DialogAddsAgree(tasks: seq<Task>, timeText: string, names: seq<string>, enabled: bool, today: Date)
    requires ValidDate(today) && NumberedInOrder(tasks)
    ensures AddFromDialog(tasks, timeText, names, enabled, today) == CorrectedAddFromDialog(tasks, timeText, names, enabled, today)
  {
    AddTaskAgreesWithoutDeletes(tasks);
  }

  /** A task added through the dialog is always scheduled: it has a base time and at least one sub-item. */
  lemma AddedTaskSchedulable(tasks: seq<Task>, timeText: string, names: seq<string>, enabled: bool, today: Date, now: int)
    requires ValidDate(today) && InRange(now)
    requires OkClicked(timeText, names, enabled).Ok?
    ensures var r := AddFromDialog(tasks, timeText, names, enabled, today);
      |r| == |tasks| + 1 && BaseTime(r[|tasks|], now).Some? && |r[|tasks|].names| > 0
  {
    var r := AddFromDialog(tasks, timeText, names, enabled, today);
    AcceptedTimeSchedules(timeText, names, enabled, r[|tasks|], now);
  }
}
