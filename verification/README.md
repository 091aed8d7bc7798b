# Daily task reminder: a Dafny model

This project models the logic of a desktop daily-task reminder written in
Python with Tkinter, together with the helper scripts that ship with it.

- **Tasks.** Each task has an `HH:MM` time and an optional schedule of minute
  offsets. From these it gets three instants: a pre-notice, the main notice
  and a warning (`Schedule`).
- **Monitor.** A polling monitor checks every enabled task against the clock.
  It fires each notice at most once, keeping a history of fired keys
  `id_YYYY-MM-DD_HH:MM_kind`. A day's history is pruned down to that day's
  keys, and the warning is suppressed for a task whose sub-items have all been
  completed (`Monitor`).
- **Store.** Tasks, completion logs, settings and per-day calendar overrides
  live in JSON files (`Store`). The files are written through a
  backup-and-rename writer (`AtomicWrite`).
- **Windows.** The reminder window shows the task and records completions
  (`Reminder`). The settings dialog edits the task list (`SettingsDialog`).
  The log window shows a month grid of achievement rates, weekday and
  month-end presets for the calendar overrides, and a twelve-month graph
  (`LogWindow`).
- **Scripts.**
  - A roadmap generator turns a plan of items into a Markdown checklist and a
    Mermaid Gantt chart (`Roadmap`).
  - The portfolio generator's helpers:
    - a `git log` output parser with grouping by day and file categories
      (`GitHistory`);
    - the text transforms (`ContentGenerator`);
    - the semantic-search query and result handling (`SemanticSearch`);
    - the configuration loader (`PortfolioConfig`).
- **Shared modules.**
  - `Wrappers` (Option/Result) and `Seqs` (filter and map).
  - `Text`: Python's `split`, `join`, `strip`, `lower`, `int()` and string
    comparison.
  - `Calendar`: the proleptic Gregorian calendar of Python's `datetime`,
    years 1 to 9999. Instants are microseconds since 0001-01-01 00:00.
  - `Strptime`: the `strptime`/`strftime` directives the program uses.

The clock, the file system and the user's clicks are parameters: every
operation takes `now`, the current files or the user's choice as an
argument and returns the new state. Failures the code catches (a bad time
text, a missing file, a failed copy) are modelled as `Option`/`Result`
values or as explicit fault flags, not excluded by preconditions.

Three points of the code that the model follows closely:
- the callback slots are named `pre_notification`, `main_notification` and
  `warning_notification`; any other name is ignored;
- completion counts every completed log entry of the day, duplicates
  included;
- history pruning keeps a key when today's stamp occurs anywhere in it,
  because the code uses a regular-expression search.

## Model

| member | source | states |
|---|---|---|
| AtomicWrite.Backup | utils/file_io.py:39-46 | an existing file is copied to the backup unless the copy fails; a failed copy is only logged and leaves the backup as it was or holding a prefix of the file, and never touches the file itself |
| AtomicWrite.Take | utils/file_io.py:42 | a prefix of the text of the requested length, or the whole text when it is shorter |
| AtomicWrite.CopyOver | utils/file_io.py:42 | a copy that works gives the destination the source text; a failed one leaves the destination as it was or holding a prefix of the source |
| AtomicWrite.TryWrite | utils/file_io.py:48-64 | the write succeeds exactly when opening the temporary file, encoding and dumping the data, closing it and the rename all work; then the file holds the new text, no temporary file is left and the backup is gone unless its delete failed; on failure the file and the backup are untouched |
| AtomicWrite.DropTemp | utils/file_io.py:67-73 | the error handler removes the temporary file unless that delete fails, touching nothing else |
| AtomicWrite.Restore | utils/file_io.py:76-79 | the backup is copied over the file; a failed copy leaves the file as it was or holding a prefix of the backup; the backup and the temporary file are untouched |
| AtomicWrite.WriteAsWritten | utils/file_io.py:16-85 | the whole writer as written: success exactly as for TryWrite; on failure the temporary file is gone unless its delete failed and whatever backup exists afterwards (made now, left behind earlier or cut short by a failed copy) is copied over the file, so the file holds that backup, or after a failed restore its old content or a prefix of the backup |
| AtomicWrite.StaleBackupRestored | utils/file_io.py:39-79 | a backup left by an earlier call is copied over newer content when this call's own backup copy fails and the write then fails |
| AtomicWrite.SuccessCanLeaveBackup | utils/file_io.py:58-64 | a successful write whose backup delete fails leaves the old content behind as a backup |
| AtomicWrite.PartialBackupRestored | utils/file_io.py:39-79 | a backup copy that fails after two characters leaves `ol`, and a failed write then copies `ol` over the file `old` |
| AtomicWrite.Write | utils/file_io.py:16-85 | the corrected writer: success as before; on failure the file keeps its content from before the call, or a prefix of it when the restore copy itself fails; the temporary file is gone unless its delete failed, and the backup is as this call left it |
| AtomicWrite.PartialBackupIgnored | utils/file_io.py:39-79 | on the same run the corrected writer keeps `old` |
| AtomicWrite.WriteAgreesWithOwnBackup | utils/file_io.py:39-79 | whenever this call makes its own backup, or no backup exists before or after the backup step, the writer as written and the corrected one agree |
| AtomicWrite.CleanWrite | utils/file_io.py:28-32 | with no failure the file holds exactly the new text and neither backup nor temporary file remains |
| AtomicWrite.NeverPartial | utils/file_io.py:28-33 | whatever fails, the file holds its old content or the complete new text, except that a restore copy failing part-way leaves exactly a prefix of the old content |
| AtomicWrite.FailedRestoreTruncates | utils/file_io.py:76-79 | a restore copy that fails after one character leaves the file holding `o`, in both writers |
| Schedule.GetScheduleConfig | utils/schedule.py:15-37 | each offset is the task's own value when present and the 5-minute default otherwise |
| Schedule.EmptyScheduleDefaults | utils/schedule.py:10-37 | a task without a schedule, or with an empty one, gets 5 minutes for every offset |
| Schedule.OffsetsIndependent | utils/schedule.py:31-37 | changing one key of the schedule changes only that offset |
| Schedule.ParseClock | utils/schedule.py:56 | the time text is accepted exactly when it splits on `:` into two parts that both parse as Python integers, and the result is those two integers |
| Schedule.BaseTime | utils/schedule.py:40-62 | a base time exists exactly when the task has a non-empty time whose hour is 0..23 and minute 0..59; it is on today's date, at that hour and minute, with no seconds |
| Schedule.WholeMinute | utils/schedule.py:60 | an instant built from a date, an hour and a minute has zero seconds and microseconds |
| Schedule.PaddedClockAccepted | utils/schedule.py:56-58 | every zero-padded `HH:MM` text with a valid hour and minute parses to that hour and minute |
| Schedule.PaddedIsInt | utils/schedule.py:56 | a zero-padded decimal numeral parses with `int` back to its number |
| Schedule.TimesFrom | utils/schedule.py:90-101 | no base time gives three absent instants; otherwise the main instant is the base, the pre-notice is the base minus its offset and the warning the base plus its offset, and the call fails exactly when one of these leaves the `datetime` range |
| Schedule.NotificationTimes | utils/schedule.py:65-101 | a given base time is used as it is; an absent one is computed from the task's time and today's date |
| Schedule.NoBaseNoTimes | utils/schedule.py:90-91 | a task without a usable time gets no instants at all |
| Schedule.TimesOrdered | utils/schedule.py:96-101 | with non-negative offsets the pre-notice comes no later than the main notice and the warning no earlier |
| Schedule.ZeroOffsetsCoincide | utils/schedule.py:96-101 | zero offsets put all three notices at the base time |
| Schedule.PaddedBaseTime | utils/schedule.py:51-60 | a task whose time is `HH:MM` gets today's date at exactly that hour and minute |
| Monitor.DateStringLayout | task_manager.py:140 | the `%Y-%m-%d` text of a date is ten characters, each a digit or a dash |
| Monitor.ClockStringLayout | task_manager.py:140 | the `%H:%M` text is two digits, a colon and two digits |
| Monitor.Key | task_manager.py:139-141 | a history key begins with the task id, ends with the notification kind, and has more between them |
| Monitor.KeyLayout | task_manager.py:139-141 | where the id, the separators, the date, the clock and the kind sit in a history key |
| Monitor.KeySameMinute | task_manager.py:139-141 | two targets share a key exactly when they fall in the same minute of the same day |
| Monitor.ShouldTrigger | task_manager.py:130-153 | a key already in the history never fires; otherwise the notice fires, and its key is recorded, exactly when the clock is within 60 seconds of the target on either side |
| Monitor.FiresAtMostOnce | task_manager.py:143-151 | a notice that fired once does not fire again at any later instant |
| Monitor.SameMinuteSilenced | task_manager.py:139-145 | once a notice fired, another target in the same minute for the same task and kind is silenced |
| Monitor.HistoryGrows | task_manager.py:143-153 | checking a notice never removes anything from the history |
| Monitor.CompletedLogs | task_manager.py:222-224 | the completed entries of the task are exactly those logs with that task id and the completed flag, each as many times as it was logged |
| Monitor.IsTaskCompleted | task_manager.py:207-241 | a task is completed on a date exactly when the first task with that id has at least one sub-item and at least as many completed logs on that date |
| Monitor.UnknownTaskIncomplete | task_manager.py:228-231 | a task id that no task has is never completed |
| Monitor.NoNamesIncomplete | task_manager.py:233-237 | a task without sub-items is never completed, however many logs it has |
| Monitor.CompletionMonotone | task_manager.py:219-237 | logging one more entry never makes a completed task incomplete |
| Monitor.DuplicateCompletionsCount | task_manager.py:222-237 | the same sub-item completed twice satisfies a task with two sub-items |
| Monitor.RepeatedCompletion | task_manager.py:222-224 | the same completion logged twice on a day counts twice for its task |
| Monitor.ClearHistory | task_manager.py:243-255 | pruning keeps exactly the keys in which today's stamp `_YYYY-MM-DD_dd:dd_` occurs anywhere, and adds none |
| Monitor.ClearIdempotent | task_manager.py:243-255 | pruning twice on the same day is the same as pruning once |
| Monitor.StampIffToday | task_manager.py:243-255 | for an id without `:` and a kind without `_`, a key carries today's stamp exactly when its target is today, so pruning keeps exactly today's keys |
| Monitor.NoStampAt | task_manager.py:247-252 | in a key of that shape the stamp matches nowhere when the key's date is another day |
| Monitor.SetCallback | task_manager.py:33-38 | one of the three names fills its slot and leaves the others; any other name changes nothing |
| Monitor.SetCallbackLastWins | task_manager.py:33-38 | setting a slot twice keeps the later callback |
| Monitor.RegisterWindow | task_manager.py:168-172 | the id now maps to the window, replacing any earlier one, and no other entry changes |
| Monitor.GetWindow | task_manager.py:174-184 | a live window is returned and kept; a missing, `None` or closed one gives `None` and its entry is removed; a probe that raises gives `None` and keeps the entry |
| Monitor.RegisterThenGet | task_manager.py:168-184 | a live window just registered is what the next lookup returns |
| Monitor.GetWindowIdempotent | task_manager.py:174-184 | looking up twice gives the same answer and registry as looking up once |
| Monitor.GetWindowLocal | task_manager.py:179-180 | a lookup removes at most its own id's entry |
| Monitor.TodayTasks | task_manager.py:202-205 | the listed tasks are exactly the enabled ones, a missing flag counting as enabled, each as often as it occurs in the list |
| Monitor.LegacyTaskListed | task_manager.py:205 | a task written before the `enabled` key existed is listed |
| Monitor.KindName | task_manager.py:78-108 | the kind names in history keys contain neither `_` nor `:` |
| Monitor.Check | task_manager.py:79-108 | an absent instant never fires; a present one is decided by the trigger check; afterwards a notice due now has its key recorded, and a notice already recorded stays silent and leaves the history alone |
| Monitor.Notify | task_manager.py:155-190 | the callback of a kind runs exactly when the notice fires and its slot is filled |
| Monitor.Calls | task_manager.py:78-112 | the callbacks run for one task are those whose notice fired and whose slot is filled, and only for that task |
| Monitor.Notices | task_manager.py:78-112 | the three checks of one task in order only add to the history, leave every due notice recorded, change nothing when all were recorded, and never run the warning callback for a task completed today |
| Monitor.ProcessTask | task_manager.py:65-112 | disabled tasks and tasks without a usable time are skipped; an instant outside the `datetime` range abandons the poll; otherwise the three notices are checked with today's completion |
| Monitor.ProcessTaskSound | task_manager.py:65-112 | processing a task never forgets history and only calls back for that task when it is enabled |
| Monitor.Run | task_manager.py:65-118 | the loop over the tasks only adds history, is abandoned exactly when some task's instants overflow, and calls back only for enabled tasks of the list |
| Monitor.OverflowsCons | task_manager.py:65-118 | some remaining task overflows exactly when the first does or one of the rest does |
| Monitor.Poll | task_manager.py:58-118 | one pass of the monitor loop over the loaded tasks, with the properties of Run |
| Monitor.RunAgain | task_manager.py:143-145 | running the rest of a poll again with any history containing the first run's result records nothing and calls nothing |
| Monitor.PollIdempotent | task_manager.py:58-118 | a second poll at the same instant fires nothing new and calls no callback |
| Monitor.CompletedWarningConsumed | task_manager.py:100-112 | a warning that comes due while the task is completed is recorded without calling back, so it cannot fire later that minute |
| Monitor.IncompleteWarningFires | task_manager.py:100-112 | an incomplete task with a filled warning slot gets its warning when it comes due |
| Monitor.WarningStillFires | task_manager.py:78-108 | a due warning whose key is not recorded still fires after the pre-notice and main checks |
| Monitor.WarningKeyUntouched | task_manager.py:78-98 | the pre-notice and main checks never record the warning's key |
| Monitor.CheckKeepsOut | task_manager.py:139-150 | a check never records the key of another kind, or of another task id |
| Monitor.KeysDistinct | task_manager.py:139-141 | keys of different kinds, or of different ids, never collide |
| Monitor.KeyLastChar | task_manager.py:139-141 | a key ends in the last letter of its kind, and the three kinds end in different letters |
| Monitor.KeyIdPrefix | task_manager.py:139-141 | a key is the id followed by eighteen characters and the kind name |
| Monitor.NoticesCalls | task_manager.py:78-112 | a task's pre-notice callback runs iff its check fires and the slot is filled; likewise the main callback after the pre check; the warning callback iff its check fires, the slot is filled and the task is not completed |
| Monitor.NoticeFires | task_manager.py:78-112 | a notice whose instant exists, is within 60 seconds, whose key is unrecorded and whose slot is filled has its callback run (for the warning, unless the task is completed) |
| Monitor.ProcessTaskKeepsOtherKey | task_manager.py:65-112 | processing one task never records a key of another task id |
| Monitor.ProcessTaskFires | task_manager.py:65-112 | an enabled task whose notice is due and unrecorded, with a filled slot, is processed and its callback runs |
| Monitor.RunStep | task_manager.py:65-112 | a poll over a list is the first task's callbacks followed by the rest of the poll on the updated history |
| Monitor.RunDelivers | task_manager.py:65-112 | if every earlier task of the list is processed without recording a key, and the task at that position delivers the call whenever the key is unrecorded, the loop runs that call |
| Monitor.DeliversFirst | task_manager.py:65-112 | a call the first task delivers is among the loop's calls |
| Monitor.PassesFirst | task_manager.py:65-112 | a first task that leaves a key unrecorded hands the rest of the loop a history without it, and the rest's calls are among the loop's |
| Monitor.OtherPasses | task_manager.py:65-112 | a task of another id whose instants do not overflow is processed without recording the key |
| Monitor.RunFires | task_manager.py:65-112 | a due, unrecorded notice with a filled slot for a task preceded only by non-overflowing tasks of other ids has its callback run by the loop |
| Monitor.PollFires | task_manager.py:58-118 | the same for one poll: such a notice is delivered in that poll |
| Store.LoadList | config.py:66-81 | the list stored in the file; a missing file, text that is not JSON or a document without the list key gives the empty list (`load_logs`, config.py lines 92-107, reads its file the same way) |
| Store.LoadTasks | config.py:66-81 | the `tasks` list of a readable document; a missing file, text that is not JSON or a document without the key gives no tasks |
| Store.LoadLogs | config.py:92-107 | the `logs` list of a readable document; a missing file, text that is not JSON or a document without the key gives no logs |
| Store.SaveTasks | config.py:48-51 | the saved document holds the list under `tasks`, so loading it gives the tasks back |
| Store.SaveLogs | config.py:53-56 | the saved document holds the list under `logs`, so loading it gives the logs back |
| Store.LoadSettings | config.py:215-229 | the stored settings; a missing file or text that is not JSON reads as `exclude_weekends` false |
| Store.LoadOverrides | config.py:251-268 | the stored overrides; a missing file or text that is not JSON reads as no overrides |
| Store.SaveLoadRoundTrip | config.py:48-107 | what is saved to each of the four files is read back unchanged |
| Store.InitFiles | config.py:34-46 | afterwards every file exists; a file that existed, even one that is not JSON, is left as it was |
| Store.InitPreservesLoads | config.py:34-46 | creating the default files changes nothing any loader reports |
| Store.InitIdempotent | config.py:34-46 | initialising twice is the same as initialising once |
| Store.TaskIdNumber | config.py:121 | the id `task_NNN` carries its number back |
| Store.TaskIdInjective | config.py:121 | distinct numbers give distinct ids |
| Store.AddTaskAsWritten | config.py:118-137 | as written: the new id is `task_` and one more than the number of tasks, zero-padded to three digits, and the new task is appended with today's creation date |
| Store.TwoAddsFromEmpty | config.py:118-137 | two additions to an empty list give the ids `task_001` and `task_002` |
| Store.AddAfterDeleteRepeatsId | config.py:118-164 | after deleting `task_001` from that list the next addition is given `task_002` again, so two tasks share an id |
| Store.AddedAsWritten | config.py:118-137 | an addition to a list of n-1 tasks appends a task with id number n |
| Store.DeleteFirstOfTwo | config.py:160-164 | deleting the first of two differently numbered tasks leaves the second |
| Store.MaxIdNumber | config.py:121 | a bound on the numbers carried by every `task_<digits>` id in the list |
| Store.FreshId | config.py:121 | the corrected id is used by no task in the list |
| Store.AddTask | config.py:118-137 | the corrected addition appends the new task with an id no existing task has |
| Store.AddTaskAgreesWithoutDeletes | config.py:121 | on a list built by additions alone the corrected rule picks the same id as the original |
| Store.AddKeepsNumbered | config.py:118-137 | adding to a list built by additions keeps it numbered `task_001`, `task_002`, ... in order |
| Store.SnocNumbered | config.py:135 | a task numbered one past a numbered list extends it |
| Store.FirstTaskWithId | config.py:148-149 | the index of the first task with the id, or -1 when no task has it |
| Store.UpdateTask | config.py:139-158 | only the first task with the id changes (the loop breaks), with each supplied field replaced; an unknown id leaves the list as it was |
| Store.UpdateKeepsIds | config.py:148-156 | updating never changes an id |
| Store.EmptyUpdateIsIdentity | config.py:150-155 | an update that supplies nothing changes nothing |
| Store.DeleteTask | config.py:160-164 | every task with the id goes and every other task stays, as often as it occurs |
| Store.DeleteUndoesAdd | config.py:118-164 | deleting the task just added with the corrected id gives back the original list |
| Store.AddLog | config.py:166-180 | exactly one entry is appended, with today's date, the current `HH:MM`, the id, the name and the flag |
| Store.LogsByDate | config.py:182-185 | exactly the entries whose date text equals the date, each as often as it occurs |
| Store.LogsByMonth | config.py:187-191 | exactly the entries whose date text starts with `YYYY-MM`, each as often as it occurs |
| Store.AddLogShowsToday | config.py:166-185 | a log added now is the last of today's entries |
| Store.SnocOnDate | config.py:179-185 | an entry appended with a given date is the last of that date's entries |
| Store.DayLogsInMonth | config.py:182-191 | every log of a day of the month is among that month's logs |
| Store.LogsOfTask | config.py:205 | exactly the entries with the task's id, each as often as it occurs |
| Store.MinDate | config.py:208-210 | the least date text of a non-empty list in Python's string order, which is the first date after sorting |
| Store.CreatedDate | config.py:193-213 | a non-empty stored creation date; otherwise the earliest date among the task's logs; otherwise today |
| Store.AddedTaskCreatedToday | config.py:118-213 | the creation date of a task added today is today, whatever the logs say |
| Store.GetExcludeWeekends | config.py:240-243 | the stored flag, false when absent |
| Store.SetExcludeWeekends | config.py:245-249 | the flag is replaced and every other setting kept |
| Store.SetThenGetExcludeWeekends | config.py:240-249 | reading the flag back gives what was set |
| Store.GetMonthOverrides | config.py:281-285 | the month's day map, empty when the month has none |
| Store.SetDayOverride | config.py:287-297 | afterwards the month is a key and its map holds the day with the given value |
| Store.SetDayOverrideKeeps | config.py:287-297 | setting an override adds the day under its month and keeps every other month and every other day of the month |
| Store.ClearMonthOverrides | config.py:299-305 | the month's entry is removed and the other months are untouched |
| Store.DayKeyInjective | config.py:291 | a stored date key names exactly one day of its month |
| Store.IsDateIncluded | config.py:307-334 | a recorded override decides; a day is excluded only by an override or as a Saturday or Sunday while weekends are excluded; without both it is included |
| Store.SetOverrideDecides | config.py:287-324 | after setting an override the day is counted exactly as set |
| Store.SetOverrideLocal | config.py:287-334 | setting an override for one day leaves whether any other day is counted as it was |
| Store.MonthKeyInjective | config.py:284 | dates in different months have different month keys |
| Store.ClearRestoresDefault | config.py:299-334 | after clearing a month every day of it follows the default rule |
| Store.WeekendsExcluded | config.py:326-331 | with weekends excluded and no override, a day is counted exactly when it is Monday to Friday |
| SettingsDialog.AddName | ui/settings_window.py:281-286 | a non-blank entry is appended stripped and the entry cleared; a blank entry changes nothing |
| SettingsDialog.RemoveName | ui/settings_window.py:288-292 | the first selected row is removed and the rest keep their order; no selection changes nothing |
| SettingsDialog.RemoveNameMultiset | ui/settings_window.py:288-292 | removing a row takes exactly that one name out of the list |
| SettingsDialog.AddThenRemove | ui/settings_window.py:281-292 | adding a name and removing the row it landed in gives back the list |
| SettingsDialog.AddedNameStripped | ui/settings_window.py:283-285 | every name the add button lists is non-blank and has no surrounding whitespace |
| SettingsDialog.OkClicked | ui/settings_window.py:294-318 | the dialog is accepted exactly when the stripped time is non-empty, is a valid `H:M` clock and at least one name is listed; the empty time and the bad format are each reported exactly in their case, in that order; the result is the stripped time, the names and the flag |
| SettingsDialog.AcceptedTimeSchedules | ui/settings_window.py:294-308 | a time the dialog accepts gets a base time from the schedule calculator every day |
| SettingsDialog.AcceptedIffSchedulable | ui/settings_window.py:296-308 | with names listed, the dialog accepts a time exactly when the schedule calculator accepts it stripped |
| SettingsDialog.ResultTimeStable | ui/settings_window.py:296-317 | validating the accepted result again accepts it unchanged |
| SettingsDialog.PaddedTimeAccepted | ui/settings_window.py:294-317 | every zero-padded `HH:MM` time with at least one name is accepted as typed |
| SettingsDialog.PaddedClockStripped | ui/settings_window.py:296 | a padded `HH:MM` text has no surrounding whitespace |
| SettingsDialog.AcceptedAsTyped | ui/settings_window.py:294-317 | a valid time without surrounding whitespace and with names is accepted exactly as typed |
| SettingsDialog.AddFromDialog | ui/settings_window.py:114-121 | as written: an accepted dialog appends one task with the stripped time, the names, the flag and the id numbered one past the list length; a refused one leaves the tasks as they were |
| SettingsDialog.CorrectedAddFromDialog | ui/settings_window.py:114-121 | with the corrected id rule: the same, and the appended task's id differs from every existing id |
| SettingsDialog.DialogAddsAgree | ui/settings_window.py:114-121 | on a list numbered `task_001` upwards in order, the dialog as written and the corrected one add the same task |
| SettingsDialog.AddedTaskSchedulable | ui/settings_window.py:114-121 | a task added through the dialog has a base time and at least one sub-item |
| Reminder.BoxNames | ui/reminder_window.py:177-184 | the names of the boxes, one per box, in order |
| Reminder.FreshBoxes | ui/reminder_window.py:177-184 | one unticked box per sub-item name, in order |
| Reminder.ShowPre | ui/reminder_window.py:52-60 | the pre-notice is an open window with neither boxes nor button |
| Reminder.ShowMain | ui/reminder_window.py:62-67 | the main notice is open with one unticked box per sub-item and the button disabled |
| Reminder.WarningButton | ui/reminder_window.py:235-241 | the warning's button is enabled exactly when some box is ticked |
| Reminder.ShowWarning | ui/reminder_window.py:69-74 | the warning is open with one unticked box per sub-item and therefore a disabled button |
| Reminder.SwitchToWarning | ui/reminder_window.py:34-50 | an open window is rebuilt as a fresh warning for the same task; a closed one is left alone |
| Reminder.CheckCompletion | ui/reminder_window.py:248-264 | in a main notice the button is enabled exactly when every box is ticked, in a warning exactly when some box is; nothing else changes and a pre-notice is untouched |
| Reminder.Toggle | ui/reminder_window.py:180-182 | a click flips exactly that box and leaves the names, kind, task and openness as they were |
| Reminder.ToggleFollows | ui/reminder_window.py:248-264 | after any click the button follows the boxes by the rule of its kind |
| Reminder.ShownWindowsFollow | ui/reminder_window.py:186-241 | a new warning, and a new main notice with at least one sub-item, start with the button following the boxes |
| Reminder.EmptyMainStaysDisabled | ui/reminder_window.py:186-191 | a main notice for a task without sub-items starts disabled although every (absent) box counts as ticked, and has no box to click |
| Reminder.ToggleTwice | ui/reminder_window.py:248-264 | clicking the same box twice gives back the window |
| Reminder.CheckedNames | ui/reminder_window.py:285-288 | the name of every ticked box, one per ticked box and in box order, so a name ticked in two boxes appears twice; a name appears iff some ticked box shows it |
| Reminder.AllCheckedNames | ui/reminder_window.py:279-281 | with every box ticked the ticked names are all the names |
| Reminder.NoneCheckedNames | ui/reminder_window.py:284-293 | there is nothing to log exactly when no box is ticked |
| Reminder.LogCompleted | ui/reminder_window.py:279-288 | one completed entry is appended per name |
| Reminder.LogCompletedEntries | ui/reminder_window.py:279-288 | the old entries stay in front and entry k after them is the completed entry of name k, dated today |
| Reminder.LogCompletedLoop | ui/reminder_window.py:279-281 | the same entries come out of one `add_log` per name, in turn |
| Reminder.Complete | ui/reminder_window.py:266-295 | a main notice with a box unticked, or a warning with none ticked, logs nothing and stays open; otherwise every ticked sub-item is logged completed in order and the window closes |
| Reminder.AppendedCount | ui/reminder_window.py:279-288 | each appended completed entry of the day for the task raises that day's completed count by one |
| Reminder.LoggedAreToday | ui/reminder_window.py:279-288 | the entries logged now count towards today's completion of the task |
| Reminder.MainCompletionCompletes | ui/reminder_window.py:266-281 | completing a main notice with every box ticked closes it and makes the task count as completed today, so its warning is suppressed |
| Reminder.WarningCompletionLogsTicked | ui/reminder_window.py:282-295 | completing a warning with some box ticked closes it, keeps the old entries in front and appends one completed entry per ticked box, in box order |
| Reminder.ParseSize | ui/reminder_window.py:119-121 | the size is read exactly when the text before the first `+` splits at `x` into two integers, and is those integers |
| Reminder.DefaultSize | ui/reminder_window.py:122-129 | the fallback sizes, 300 by 110 for the pre notice, 360 by 260 for the main notice and 380 by 220 for the warning, each passing the above-one-pixel test |
| Reminder.WindowSize | ui/reminder_window.py:113-129 | a measured size with both sides above one pixel is used; otherwise the size read from the geometry text; the kind's default when measuring raises or the text does not parse |
| Reminder.Centre | ui/reminder_window.py:131-133 | the offsets are the floor of half the free space, so twice the offset is the free space or one less |
| Reminder.CentreBalanced | ui/reminder_window.py:131-133 | the margins left and right (and above and below) differ by at most one pixel |
| Reminder.BeforeFirstPlus | ui/reminder_window.py:120 | before the first `+` of `size+rest` lies exactly the size when it has no `+` |
| Reminder.SizeSplits | ui/reminder_window.py:121 | `WxH` in decimal splits at `x` into the two numerals |
| Reminder.ParseSizeRoundTrip | ui/reminder_window.py:119-121 | the geometry text of a W×H window at any position parses back to W and H |
| LogWindow.MonthEndOrdinal | ui/log_window.py:265-270 | the day before the first of the next month, December rolling into January of the next year, is the last day of the month |
| LogWindow.LastDay | ui/log_window.py:265-270 | for a valid year and a month 1..12 the length is computed except for December 9999, whose successor `datetime` rejects, and it is then the month's length, within 28..31 |
| LogWindow.MonthEndDate | ui/log_window.py:265-270 | the date of the day before the first of the next month is the month's last date |
| LogWindow.FirstWeekday | ui/log_window.py:286-287 | the weekday of the 1st is in 0..6, Monday 0 |
| LogWindow.PlaceDays | ui/log_window.py:289-334 | the loop places day d at column `(w0 + d - 1) mod 7` of row `1 + (w0 + d - 1) div 7` |
| LogWindow.CellStep | ui/log_window.py:331-334 | the next day takes the next column, or column 0 of the next row after Sunday |
| LogWindow.ShownIsIncluded | ui/log_window.py:297-311 | a checkbox starts in the state the inclusion rule gives its day |
| LogWindow.DayStates | ui/log_window.py:293-312 | there is one variable per day of the month, each holding that day's inclusion |
| LogWindow.BuildGrid | ui/log_window.py:258-334 | the grid exists exactly when the month length can be computed; it places every day at its cell and starts every box at its day's inclusion |
| LogWindow.ColumnIsWeekday | ui/log_window.py:286-334 | each day sits in the column of its own weekday |
| LogWindow.CellColumn | ui/log_window.py:290-334 | counting on from the weekday of a day lands on the weekday of the later day |
| LogWindow.CellsDistinct | ui/log_window.py:289-334 | no two days share a cell, every column is 0..6 and a month spans at most six rows |
| LogWindow.ToggleEntry | ui/log_window.py:356-373 | afterwards the day has an override exactly when its state differs from the default, holding that state; no other day or month changes, and no month entry is left empty |
| LogWindow.ToggleEntryIdempotent | ui/log_window.py:356-373 | repeating the edit changes nothing more |
| LogWindow.ToggleEntryRoundTrip | ui/log_window.py:356-373 | moving a day without an override away from its default and back restores the file exactly |
| LogWindow.MonthOverridesMap | ui/log_window.py:357 | the month's map as `get_month_overrides` returns it is the map under its month key |
| LogWindow.OnDayToggle | ui/log_window.py:336-374 | with no checkbox for the day nothing changes; otherwise an override exists exactly when the box differs from the default, and the day's inclusion afterwards equals the box |
| LogWindow.ToggleLocal | ui/log_window.py:336-374 | a toggle changes the inclusion of no other day in any month |
| LogWindow.ToggleIdempotent | ui/log_window.py:336-374 | repeating a toggle with the same box state changes nothing more |
| LogWindow.ToggleRoundTrip | ui/log_window.py:336-374 | ticking a day away from its default and back restores the override file exactly |
| LogWindow.PresetVars | ui/log_window.py:390-400 | each day with a checkbox gets the preset's state in its box and every other box is kept |
| LogWindow.ApplyPreset | ui/log_window.py:378-454 | a preset runs exactly when the month length can be computed, and then sets every box of the month to the preset's state |
| LogWindow.PresetStepLocal | ui/log_window.py:397-400 | one step of a preset loop leaves every other day's inclusion alone |
| LogWindow.PresetLocal | ui/log_window.py:378-454 | a day a preset does not write keeps its inclusion |
| LogWindow.PresetDecidesHere | ui/log_window.py:397-400 | the day the loop is on reads as the preset's state once the loop is done |
| LogWindow.PresetDecides | ui/log_window.py:378-454 | every day with a checkbox reads as the preset's state afterwards: weekdays only, all, or none |
| LogWindow.PresetUnfold | ui/log_window.py:390-400 | the preset loop is one step on the first day, then the loop over the rest |
| LogWindow.ResetWeekendExclusion | ui/log_window.py:404-414 | the month's overrides are removed, every other month kept, and the rebuilt grid shows the default rule on every day |
| LogWindow.CreatedOn | ui/log_window.py:497-498 | a creation date that parses is a valid date |
| LogWindow.CreatedDates | ui/log_window.py:495-498 | the parsed creation date of each task, in order |
| LogWindow.DailyTotal | ui/log_window.py:494-502 | the day's total fails exactly when a creation date does not parse, and is at most the number of all sub-items |
| LogWindow.FutureDayEmpty | ui/log_window.py:500-502 | a day after today has nothing due |
| LogWindow.AllActiveTotal | ui/log_window.py:494-502 | when every task is active on the day, all their sub-items are due |
| LogWindow.CompletedCountsEveryTask | ui/log_window.py:505 | a completed log dated that day adds one even when its task id belongs to no task |
| LogWindow.DayStatsOf | ui/log_window.py:476-511 | an excluded day counts nothing; an included day fails exactly when a creation date does not parse, otherwise its total is bounded by all sub-items and its completed count is every completed log of that date |
| LogWindow.Collect | ui/log_window.py:477-511 | the per-day results for the days in order, as many as there are days |
| LogWindow.CollectAt | ui/log_window.py:477-511 | entry k of the collection is the result of day `day + k` |
| LogWindow.CollectFails | ui/log_window.py:477-511 | the collection fails only where one day's result fails |
| LogWindow.MonthTotals | ui/log_window.py:514-515 | the month's totals are the sums of the daily counts, and non-negative when every day's is |
| LogWindow.MonthEmptyIffDaysEmpty | ui/log_window.py:514-516 | the month has nothing due exactly when none of its days has, which is when its rate shows 0 |
| LogWindow.Achievement | ui/log_window.py:456-516 | no month length means the tab raises; otherwise one count per day of the month and the month's totals as their sums |
| LogWindow.AchievementDay | ui/log_window.py:477-511 | row d of the tab holds the counts of day d computed over the enabled tasks and the month's logs |
| LogWindow.AchievementFails | ui/log_window.py:477-511 | for a month with a last day, the tab raises only at a day whose counts raise |
| LogWindow.StatusOf | ui/log_window.py:526-542 | `-` exactly when nothing is due |
| LogWindow.StatusMonotone | ui/log_window.py:528-537 | up to the day's total, more completions never lower the mark |
| LogWindow.StatusMeaning | ui/log_window.py:528-537 | with something due, a tick exactly when completed equals total and a cross exactly below half |
| LogWindow.OverCompletionShowsPartial | ui/log_window.py:505-533 | completions beyond the day's total turn the tick into a triangle |
| LogWindow.DayFailures | ui/log_window.py:575-591 | the day fails exactly when a creation date does not parse; otherwise the total is bounded by all sub-items, the failed count by the total, and an excluded day counts nothing |
| LogWindow.FailedCanBeNegative | ui/log_window.py:587-591 | one active task counts its sub-items as due less one per completed log of its id, so more logs than sub-items make the failed count negative |
| LogWindow.MonthFailuresFrom | ui/log_window.py:575-591 | the sums over the remaining days fail exactly when a creation date does not parse, with failed at most the total |
| LogWindow.MonthFailures | ui/log_window.py:560-593 | one month of the graph fails exactly when a creation date of an enabled task does not parse, with failed at most the total |
| LogWindow.MonthAt | ui/log_window.py:555-558 | the month pair with month number i |
| LogWindow.MonthOfDate | ui/log_window.py:556-558 | the ordinal of a date lies in that date's month |
| LogWindow.GraphMonthAsWritten | ui/log_window.py:555-558 | as written, step i draws the month of the day `30 * i` days before today, and raises where that leaves the `datetime` range |
| LogWindow.StepLandsIn | ui/log_window.py:556-558 | a step landing on a date draws that date's month |
| LogWindow.MarchOrdinals | ui/log_window.py:556 | the ordinals of the 31st of March and of the days 30 and 60 days before it |
| LogWindow.GraphMonthsSkipFebruary | ui/log_window.py:555-596 | on the 31st of March steps 0 and 1 both draw March and step 2 draws January |
| LogWindow.GraphMonthsBeforeJanuary | ui/log_window.py:555-596 | on the 31st of March every later step draws January or earlier, so February never appears |
| LogWindow.MarchEndInJanuary | ui/log_window.py:556 | sixty days before the 31st of March is in January |
| LogWindow.StepNotAfter | ui/log_window.py:556-558 | a step landing on or before a day draws no month after that day's month |
| LogWindow.OrdinalMonthMonotone | ui/log_window.py:556-558 | later days never fall in earlier months |
| LogWindow.MonthStartOrdinal | ui/log_window.py:556-558 | a date's ordinal lies within its month |
| LogWindow.OrdinalsOfMonths | ui/log_window.py:556-558 | every day of an earlier month comes before the first of a later month |
| LogWindow.GraphMonth | ui/log_window.py:546-596 | the corrected step i draws the calendar month i months before the current one, absent before year 1 |
| LogWindow.GraphMonthsConsecutive | ui/log_window.py:546-596 | with the correction, distinct steps draw distinct months, steps k apart drawing months k apart |
| LogWindow.GraphMonthsMarch | ui/log_window.py:546-596 | with the correction, on the 31st of March steps 0, 1 and 2 draw March, February and January |
| LogWindow.GraphMonthsSameYear | ui/log_window.py:555-558 | within the current year, step i draws the month i before this one |
| LogWindow.MonthAtYear | ui/log_window.py:557-558 | month number `12 * y + r` is month `r + 1` of year y |
| Roadmap.Duration | scripts/generate_roadmap.py:30-38 | at least one day; between two `%Y-%m-%d` dates the inclusive day count clamped to 1; exactly 1 when either text is not such a date |
| Roadmap.DurationOfDates | scripts/generate_roadmap.py:33-36 | for an end on or after the start the duration counts both end days and every day between |
| Roadmap.DurationText | scripts/generate_roadmap.py:216 | `{duration:.1f}` of a whole day count: the decimal digits of exactly that count followed by `.0` |
| Roadmap.ProgressText | scripts/generate_roadmap.py:226-227 | nothing iff the progress is missing or zero; otherwise ` (`, the number, `%)` |
| Roadmap.IntText | scripts/generate_roadmap.py:227 | `str(n)`: digits spelling the number, after a minus sign when it is negative |
| Roadmap.DurationBackwards | scripts/generate_roadmap.py:35-36 | an end before the start still gives a one-day duration |
| Roadmap.StatusBucket | scripts/generate_roadmap.py:66-76 | without a category: completed or started-dated items are core, undated items are stretch exactly when the status (default pending) is pending, others are left out |
| Roadmap.BucketAsWritten | scripts/generate_roadmap.py:56-63 | as written: a non-empty category that is neither core nor stretch in any letter case drops the item; no category falls back to the status rule |
| Roadmap.UnknownCategoryDropped | scripts/generate_roadmap.py:56-63 | a completed item with category `future` is dropped although the status rule would put it in core |
| Roadmap.Bucket | scripts/generate_roadmap.py:56-76 | corrected rule: `core`/`stretch` in any letter case decide, any other category falls back to the status rule as the comment on line 62 says |
| Roadmap.BucketAgrees | scripts/generate_roadmap.py:56-63 | the corrected and the as-written rule agree on every item whose category is absent, empty, core or stretch |
| Roadmap.CategorizeBy | scripts/generate_roadmap.py:41-78 | under any placement rule: every item of the first list is placed core, every item of the second stretch, and together they hold no more items than the input |
| Roadmap.Categorize | scripts/generate_roadmap.py:41-78 | the loop as written: every item of the core list has the as-written bucket core, every item of the stretch list stretch, and together the lists hold no more items than the input |
| Roadmap.CorrectedCategorize | scripts/generate_roadmap.py:41-78 | the same loop under the corrected bucket rule, with the same three properties for that rule |
| Roadmap.CategorizeFilters | scripts/generate_roadmap.py:54-78 | under any placement rule the two lists are exactly the items placed core and the items placed stretch, in input order |
| Roadmap.CategorizeMembership | scripts/generate_roadmap.py:54-78 | under any placement rule an input item is in the first list iff it is placed core, and in the second iff it is placed stretch |
| Roadmap.CategorizeAgrees | scripts/generate_roadmap.py:56-63 | on a plan whose categories are all absent, empty, core or stretch, the loop as written and the corrected one give the same lists |
| Roadmap.UnknownCategoryLeavesPlan | scripts/generate_roadmap.py:56-76 | a completed item with category `future` is in neither list as written, and in the core list under the corrected rule |
| Roadmap.RelativeLink | scripts/generate_roadmap.py:139-143 | a path starting with `docs/` loses exactly that prefix; any other path is kept |
| Roadmap.RelativeLinkOnce | scripts/generate_roadmap.py:140 | only one leading `docs/` is removed: `docs/docs/x` becomes `docs/x` |
| Roadmap.DateText | scripts/generate_roadmap.py:102-124 | for either heading, 予定 (planned) or 実績 (actual): no text without a start; start and end joined by 〜 when both are set and differ; the start alone otherwise |
| Roadmap.SingleDayDate | scripts/generate_roadmap.py:106-112 | a range whose start equals its end is written like a start with no end |
| Roadmap.Links | scripts/generate_roadmap.py:136-154 | at most two links; unless the item is completed and has a report, only the spec link (when there is one) appears |
| Roadmap.Checkbox | scripts/generate_roadmap.py:84 | the box is three characters and is `[x]` iff the status is `completed` |
| Roadmap.DepsText | scripts/generate_roadmap.py:94-100 | nothing iff there are no dependencies; otherwise ` 依存: ` followed by the ids joined by `, `, a single id standing alone |
| Roadmap.CoverageText | scripts/generate_roadmap.py:126-129 | nothing when the key is absent; otherwise `／` followed by exactly the target, also when the target is empty |
| Roadmap.MetaText | scripts/generate_roadmap.py:131-158 | nothing iff there is neither a summary nor a link; otherwise a new indented bullet holding the summary, then ` / `, then the links joined by ` / `, leaving out whichever is missing |
| Roadmap.FormatTask | scripts/generate_roadmap.py:81-160 | the line starts with `- `, the checkbox, a space and the title (empty when missing), and ends with the second-line part |
| Roadmap.FormatTaskLayout | scripts/generate_roadmap.py:160 | the line is the head, the dependencies, the planned dates, the actual dates, the coverage and the second line, in that order and with nothing between |
| Roadmap.BareTaskLine | scripts/generate_roadmap.py:81-160 | an item with no dependencies, dates, coverage, summary or shown link is the head line alone |
| Roadmap.CheckboxIffCompleted | scripts/generate_roadmap.py:84-160 | characters 2 to 4 of a task line read `[x]` iff the item is completed |
| Roadmap.ReportOnlyWhenCompleted | scripts/generate_roadmap.py:145-152 | for an item that is not completed the report link has no effect on its line |
| Roadmap.EndCandidates | scripts/generate_roadmap.py:170-183 | every candidate end date of an item is its truthy actual end, its truthy planned end, or today |
| Roadmap.MaxOf | scripts/generate_roadmap.py:176-183 | the running maximum is absent only when nothing was seen and is always the start value or one of the candidates |
| Roadmap.MaxOfIsMax | scripts/generate_roadmap.py:176-183 | the running maximum is lexicographically at or above the start value and every candidate |
| Roadmap.MaxEndDate | scripts/generate_roadmap.py:166-183 | the latest end is absent iff no item has a candidate, and otherwise is a candidate at or above every candidate |
| Roadmap.UnderWayReachesToday | scripts/generate_roadmap.py:181-183 | an item started but not finished makes the latest end at least today |
| Roadmap.Bars | scripts/generate_roadmap.py:206-263 | an item without a title draws nothing; any item draws at most a planned and an actual line |
| Roadmap.UndatedStretchIsComment | scripts/generate_roadmap.py:242-249 | an undated, unstarted stretch item is the comment line `%% title (日付未定)`; the same item in the core section draws nothing |
| Roadmap.SectionBars | scripts/generate_roadmap.py:206-263 | a section has at most two lines per item |
| Roadmap.GanttHeader | scripts/generate_roadmap.py:185-200 | six preamble lines opening the mermaid gantt block; the heading names an end date iff there is one |
| Roadmap.Gantt | scripts/generate_roadmap.py:163-272 | the chart opens a mermaid block on its third line and closes it on its second-to-last |
| Roadmap.Block | scripts/generate_roadmap.py:285-294 | an empty list gives no lines; otherwise each item's task line in order followed by one blank line |
| Roadmap.Chart | scripts/generate_roadmap.py:296-298 | the chart is present iff either list has an item |
| Roadmap.Document | scripts/generate_roadmap.py:282 | the document opens with the `# title` heading and a blank line |
| Roadmap.DocumentBy | scripts/generate_roadmap.py:275-298 | under any placement rule the roadmap opens with the `# title` heading and a blank line |
| Roadmap.RoadmapLines | scripts/generate_roadmap.py:275-298 | the roadmap as written is the document of the as-written core and stretch lists |
| Roadmap.CorrectedRoadmapLines | scripts/generate_roadmap.py:275-298 | the roadmap under the corrected bucket rule is the document of the corrected lists |
| Roadmap.DocumentCoreLines | scripts/generate_roadmap.py:285-288 | line 2+k is the task line of core item k |
| Roadmap.DocumentStretchLines | scripts/generate_roadmap.py:291-294 | the stretch task lines follow the core block, in order |
| Roadmap.DocumentChartPresent | scripts/generate_roadmap.py:296-298 | lines follow the two blocks iff either list is non-empty |
| Roadmap.RoadmapLayout | scripts/generate_roadmap.py:279-294 | under any placement rule the roadmap lists the items placed core and then those placed stretch, each exactly the filtered input in order |
| Roadmap.NothingCategorized | scripts/generate_roadmap.py:54-78 | under any placement rule a plan none of whose items is placed categorizes to two empty lists |
| Roadmap.EmptyRoadmap | scripts/generate_roadmap.py:282-298 | such a plan's roadmap is just the heading and a blank line, with no chart |
| GitHistory.StripAll | scripts/portfolio/git_history.py:106 | one stripped line per output line, in order: the parser strips each line where it reads it |
| GitHistory.FileRun | scripts/portfolio/git_history.py:123-130 | the file lines after a header are the run of non-empty lines up to the first empty one or the end; in the corrected parser a header line also ends the run |
| GitHistory.ParseLines | scripts/portfolio/git_history.py:104-142 | for the loop as written and for the corrected one: no more commits than lines; hash, date and author contain no bar; every listed file is non-empty |
| GitHistory.LogLines | scripts/portfolio/git_history.py:78-85 | the printed log of a non-empty history opens with the first commit's header line; a blank line follows only a commit that changed files |
| GitHistory.HeaderSplits | scripts/portfolio/git_history.py:112-120 | a printable commit's header is its own strip, and splits at the bar into hash, date, author, the message's fields and one empty trailing field |
| GitHistory.HeaderJoins | scripts/portfolio/git_history.py:120 | joining the header's fields back with bars gives the header line |
| GitHistory.HeaderMessage | scripts/portfolio/git_history.py:117-120 | the message the parser rebuilds from a header is the commit's message, with the trailing bar unless it is dropped |
| GitHistory.FileRunOf | scripts/portfolio/git_history.py:125-130 | non-empty file lines followed by an empty line or the end, or in the corrected parser by a header, are read as exactly those files |
| GitHistory.HeaderParsed | scripts/portfolio/git_history.py:112-120 | a printable header has at least four fields and yields the commit's hash, date, author and read-back message |
| GitHistory.ParseOneCommit | scripts/portfolio/git_history.py:112-142 | a header and its files, followed by a blank line, the end or (corrected) a header, parse to the read-back commit followed by the parse of the rest: after the next line as written, right there when corrected |
| GitHistory.ParseHeaderStep | scripts/portfolio/git_history.py:117-142 | one header line with at least four fields consumes its file run; as written it also consumes the line after the run, the corrected loop leaves it |
| GitHistory.LinesReadBack | scripts/portfolio/git_history.py:104-142 | the printed lines of printable commits parse back to each commit's read-back, in order: for the corrected loop on any such history, for the loop as written when every commit but the last changed files |
| GitHistory.ReadBackStep | scripts/portfolio/git_history.py:104-142 | if the rest of the history reads back, so does the whole, the first commit read first |
| GitHistory.ReadOneThen | scripts/portfolio/git_history.py:123-142 | a commit, the blank line after it when it changed files, then a header: the commit is read and reading goes on at that header |
| GitHistory.ReadOneThenHeader | scripts/portfolio/git_history.py:123-142 | in the corrected loop a commit without files ends at the next header |
| GitHistory.ReadOneThenBlank | scripts/portfolio/git_history.py:123-142 | a commit with files ends at the blank line after them, which is skipped |
| GitHistory.BlankSkipped | scripts/portfolio/git_history.py:106-109 | an empty line is skipped |
| GitHistory.LogLinesHeader | scripts/portfolio/git_history.py:112-115 | the printed lines of a non-empty history start with a line read as a header |
| GitHistory.LogLinesClean | scripts/portfolio/git_history.py:102-106 | printed lines of printable commits hold no line break and have no surrounding whitespace |
| GitHistory.OutputStrips | scripts/portfolio/git_history.py:102 | stripping the whole output removes only the final newline |
| GitHistory.OutputSplits | scripts/portfolio/git_history.py:102 | splitting the joined output at line breaks gives back the printed lines |
| GitHistory.LinesStripped | scripts/portfolio/git_history.py:106 | stripping each printed line changes nothing |
| GitHistory.OutputLines | scripts/portfolio/git_history.py:102-106 | the lines the parser reads are exactly the printed lines |
| GitHistory.ParseLogAsWritten | scripts/portfolio/git_history.py:82-120 | the parser as written: at most one commit per output line, no commit's hash, date or author contains a vertical bar, and no file entry is empty |
| GitHistory.ParseLog | scripts/portfolio/git_history.py:82-120 | the same bounds for the parser with the trailing bar removed |
| GitHistory.LogRoundTrip | scripts/portfolio/git_history.py:101-142 | the corrected parser reads back exactly the printable commits git printed, merges and other commits without files included, when no path holds three bars |
| GitHistory.EmptyOutputParses | scripts/portfolio/git_history.py:101-108 | an empty history parses to no commits |
| GitHistory.ReadBackUnchanged | scripts/portfolio/git_history.py:132-140 | with the trailing bar dropped every commit reads back as itself |
| GitHistory.TrailingPipeKept | scripts/portfolio/git_history.py:82-120 | as written, on a history where every commit but the last changed files, every commit is read and its message has a bar appended |
| GitHistory.MergeSwallowsNext | scripts/portfolio/git_history.py:123-142 | as written, a commit without changed files followed by another commit parses to one commit, whose files are the second commit's header and files |
| GitHistory.MergeLines | scripts/portfolio/git_history.py:123-142 | the same on the printed lines |
| GitHistory.MergeLogLines | scripts/portfolio/git_history.py:78-85 | git prints the next header straight after a commit without changed files |
| GitHistory.Word | scripts/portfolio/git_history.py:213 | the first token is a whitespace-free prefix ended by whitespace or the end |
| GitHistory.DatePart | scripts/portfolio/git_history.py:213-217 | no token exactly when the date is all whitespace; otherwise a non-empty whitespace-free token |
| GitHistory.GroupByDate | scripts/portfolio/git_history.py:199-219 | every day's list is non-empty and holds only input commits whose first date token is that day |
| GitHistory.GroupIsFilter | scripts/portfolio/git_history.py:199-219 | a day is a key iff some commit's first date token is that day, and its list is those commits in input order |
| GitHistory.KindOf | scripts/portfolio/git_history.py:222-253 | a path is Python iff it ends in `.py` or `.pyw`; a test path has `test` or `spec` in its lower-cased text and an other path has neither |
| GitHistory.CategorizeFiles | scripts/portfolio/git_history.py:222-253 | every category's list is non-empty and holds only input paths of that category |
| GitHistory.CategorizeIsFilter | scripts/portfolio/git_history.py:222-253 | a category is a key iff some path falls in it, and its list is those paths in input order |
| GitHistory.SizesUpdate | scripts/portfolio/git_history.py:234-251 | replacing one category's list changes the total by the change in that list's length |
| GitHistory.CategorySizesSum | scripts/portfolio/git_history.py:222-253 | every path lands in exactly one category: the list lengths add up to the number of paths |
| GitHistory.PythonBeforeTests | scripts/portfolio/git_history.py:236-249 | a `.py` path naming a test is still Python: the extension rules are tried first |
| GitHistory.PortfolioDate | scripts/portfolio/git_history.py:181-196 | a text that is not a `%Y-%m-%d` date comes back unchanged |
| GitHistory.FormatKanji | scripts/portfolio/git_history.py:193 | `%Y年/%m月/%d日` writes the zero-padded year, month and day between the markers |
| GitHistory.PortfolioDateOf | scripts/portfolio/git_history.py:191-193 | a stored date becomes its zero-padded year, month and day between the markers |
| ContentGenerator.Prefix | scripts/portfolio/content_generator.py:55 | Python's `s[:n]`: a prefix of the text, `n` long when it fits, counting from the end for a negative `n` |
| ContentGenerator.SplitWhere | scripts/portfolio/content_generator.py:86 | splitting at a one-character class gives one more part than there are separators, and no part holds a separator |
| ContentGenerator.KeepParagraphs | scripts/portfolio/content_generator.py:46-56 | the kept paragraphs are the leading input paragraphs, the last one possibly cut and marked with `...` |
| ContentGenerator.Summarize | scripts/portfolio/content_generator.py:38-39 | text within the limit comes back unchanged |
| ContentGenerator.KeepParagraphsBound | scripts/portfolio/content_generator.py:46-58 | the joined kept paragraphs end at most one character past the budget the loop started with |
| ContentGenerator.SummarizeBound | scripts/portfolio/content_generator.py:24-64 | with non-negative limits a summary is at most `max_chars + 3` long: only the `...` overruns |
| ContentGenerator.Accumulate | scripts/portfolio/content_generator.py:87-92 | the sentence loop only appends to what it has |
| ContentGenerator.FirstParagraph | scripts/portfolio/content_generator.py:67-95 | a stripped first paragraph within the limit is the result; with a non-negative limit the result never exceeds it |
| ContentGenerator.FirstParagraphKeeps | scripts/portfolio/content_generator.py:79-95 | one stripped paragraph within the limit comes back unchanged |
| ContentGenerator.FirstSentenceKept | scripts/portfolio/content_generator.py:84-93 | when the paragraph is too long but its first sentence fits, the result starts with that sentence |
| ContentGenerator.ParseFirst | scripts/portfolio/content_generator.py:120-126 | no date iff no format parses the text; otherwise the reading of the first format that parses it |
| ContentGenerator.DateFormat | scripts/portfolio/content_generator.py:100-136 | text that none of the four formats reads comes back unchanged |
| ContentGenerator.DateFormatOfStored | scripts/portfolio/content_generator.py:113-132 | a `YYYY-MM-DD` date is rendered from its own year, month and day at midnight |
| ContentGenerator.DateFormatExtendsPortfolioDate | scripts/portfolio/content_generator.py:100-132 | on `YYYY-MM-DD` text the default date transform agrees with the commit history's date style, and it changes only text some format reads |
| ContentGenerator.PackageOf | scripts/portfolio/content_generator.py:157-166 | a requirements line names a package only when the name is non-empty |
| ContentGenerator.VersionCut | scripts/portfolio/content_generator.py:165 | the name is a prefix of the stripped line |
| ContentGenerator.VersionCutClean | scripts/portfolio/content_generator.py:165 | after the four cuts none of `>=`, `==`, `<`, `~` remains |
| ContentGenerator.PackageHasNoVersion | scripts/portfolio/content_generator.py:164-166 | a package name carries no version operator |
| ContentGenerator.LowerAll | scripts/portfolio/content_generator.py:169 | the exclusion list lower-cased entry by entry |
| ContentGenerator.Listed | scripts/portfolio/content_generator.py:156-170 | no more names than lines |
| ContentGenerator.Technologies | scripts/portfolio/content_generator.py:156-170 | no more names than lines |
| ContentGenerator.ExtractTechnologies | scripts/portfolio/content_generator.py:139-172 | the default exclusion list applies exactly when no list is given |
| ContentGenerator.ListedMembers | scripts/portfolio/content_generator.py:164-170 | a name is listed iff some line names it and it is not excluded ignoring case |
| ContentGenerator.TechnologiesMembers | scripts/portfolio/content_generator.py:156-170 | a name is listed iff some requirements line names it and it is not excluded ignoring case |
| ContentGenerator.TechnologiesClean | scripts/portfolio/content_generator.py:169-170 | every listed name is non-empty and not excluded |
| ContentGenerator.ListedAppend | scripts/portfolio/content_generator.py:156-170 | the list for two runs of lines is the two lists one after the other |
| ContentGenerator.TechnologiesAppend | scripts/portfolio/content_generator.py:156-170 | lines are read independently and in order: the list of a concatenation is the concatenation of the lists |
| ContentGenerator.NothingExcluded | scripts/portfolio/content_generator.py:169 | with an empty exclusion list every named package is listed |
| ContentGenerator.TransformNamed | scripts/portfolio/content_generator.py:254-271 | each of the four names selects its own transform, and no other name selects it |
| ContentGenerator.AllContent | scripts/portfolio/content_generator.py:212-214 | no files give the empty text, one file gives its heading block alone, and every file's heading block occurs in the text |
| ContentGenerator.OrDefault | scripts/portfolio/content_generator.py:218 | `x or default`: an absent or zero value gives the default, any other value is kept |
| ContentGenerator.GenerateContent | scripts/portfolio/content_generator.py:188-234 | summarising uses the limit or 500 and minimum 200; listing uses the configured exclusions or none; every other name, and no name, takes the first paragraph with the limit or 50 |
| ContentGenerator.ApplyTransform | scripts/portfolio/content_generator.py:236-274 | an unknown name returns the text; summarising uses the configured `max_chars` and `min_chars` or 500 and 200; the first paragraph uses the configured `max_chars` or 50; listing uses the configured exclusions or none; the date transform uses the configured format or `%Y年/%m月/%d日` |
| ContentGenerator.EntryPointsAgree | scripts/portfolio/content_generator.py:217-262 | for a non-zero limit both entry points give the same result; a zero limit means the default for one and zero for the other |
| ContentGenerator.EntryPointsKeepEverything | scripts/portfolio/content_generator.py:225-231 | without configured exclusions generating lists every package named in the context |
| SemanticSearch.SearchQuery | scripts/portfolio/semantic_search.py:34-37 | the query ends with the description and, given an instruction, starts with it and a space |
| SemanticSearch.CodebaseQueryShape | scripts/portfolio/semantic_search.py:57-65 | the formatted query is the question alone without context, and the context, a space and the question otherwise |
| SemanticSearch.QueriesAgree | scripts/portfolio/semantic_search.py:21-65 | with an instruction both queries start with it and a space, and both keep the description |
| SemanticSearch.Or | scripts/portfolio/semantic_search.py:98 | Python `a or b`: `a` when truthy, else `b` |
| SemanticSearch.PathOf | scripts/portfolio/semantic_search.py:93-102 | a string result is its own path, anything but a string or dictionary gives none, and a dictionary's path is truthy iff one of `file`, `path`, `filepath` is, and then is one of its values |
| SemanticSearch.Candidates | scripts/portfolio/semantic_search.py:91-104 | the truthy paths of the results, at most one per result |
| SemanticSearch.Dedup | scripts/portfolio/semantic_search.py:104-106 | the same values as the input, each exactly once |
| SemanticSearch.ExtractFiles | scripts/portfolio/semantic_search.py:70-109 | nothing for no results; otherwise the distinct truthy paths of the results, in first-occurrence order |
| SemanticSearch.CandidatesStep | scripts/portfolio/semantic_search.py:91-104 | reading one more result appends its path when it is truthy |
| SemanticSearch.DedupSnoc | scripts/portfolio/semantic_search.py:104-106 | one more value is appended exactly when it has not been seen |
| SemanticSearch.DedupDistinct | scripts/portfolio/semantic_search.py:104-106 | values that are already distinct come back unchanged |
| SemanticSearch.DedupIdempotent | scripts/portfolio/semantic_search.py:86-106 | extracting from already extracted paths changes nothing |
| SemanticSearch.DedupPrefix | scripts/portfolio/semantic_search.py:91-106 | the paths of a prefix of the results are a prefix of the paths of all of them |
| SemanticSearch.RelevantFiles | scripts/portfolio/semantic_search.py:112-158 | no files without a search tool or when it raises; otherwise the files extracted from what it returns for the formatted query |
| PortfolioConfig.GetOr | scripts/portfolio/config_loader.py:93 | `dict.get(key, default)`: the stored value when the key is present, the default otherwise |
| PortfolioConfig.FirstMissing | scripts/portfolio/config_loader.py:69-73 | nothing iff every required key is present; otherwise a missing key, with every required key before it present |
| PortfolioConfig.Validate | scripts/portfolio/config_loader.py:65-86 | accepts exactly the documents with the three keys, an object template holding `file` and an object cell mapping, returning them unchanged; a missing key is reported first, by name |
| PortfolioConfig.MissingReportedInOrder | scripts/portfolio/config_loader.py:67-73 | a document with `version` but no `excel_template` fails on `excel_template` whatever else is missing |
| PortfolioConfig.Version | scripts/portfolio/config_loader.py:90-93 | a checked configuration always has its own version, so the default is never used |
| PortfolioConfig.Description | scripts/portfolio/config_loader.py:95-98 | the stored `description` when present, the empty text when absent |
| PortfolioConfig.ExcelTemplate | scripts/portfolio/config_loader.py:100-103 | the template of a checked configuration always has a `file` key |
| PortfolioConfig.ExcelTemplateFile | scripts/portfolio/config_loader.py:105-108 | the template file is the template's own `file` value |
| PortfolioConfig.ExcelTemplateSheet | scripts/portfolio/config_loader.py:110-113 | the sheet is the template's `sheet` value, or `フォーマット` when there is none |
| PortfolioConfig.DataSources | scripts/portfolio/config_loader.py:120-123 | the stored `data_sources` when present, an empty object when absent |
| PortfolioConfig.TextTransforms | scripts/portfolio/config_loader.py:125-128 | the stored `text_transforms` when present, an empty object when absent |
| PortfolioConfig.CellMapping | scripts/portfolio/config_loader.py:115-118 | the entries of the checked configuration's own `cell_mapping` object; the empty default is never used |
| PortfolioConfig.CellConfig | scripts/portfolio/config_loader.py:130-140 | none iff the cell is not mapped, otherwise its mapping entry |
| PortfolioConfig.MinimalDefaults | scripts/portfolio/config_loader.py:90-140 | a configuration with only the required keys reads every optional value as its default and maps no cell |
| PortfolioConfig.PathJoin | scripts/portfolio/config_loader.py:163 | `os.path.join`: an absolute part replaces the base; a relative part is appended after the base |
| PortfolioConfig.LastSlash | scripts/portfolio/config_loader.py:154 | the position of the last `/`, or -1 when there is none |
| PortfolioConfig.RStripSlashes | scripts/portfolio/config_loader.py:154 | the text with its trailing slashes removed and nothing else |
| PortfolioConfig.Dirname | scripts/portfolio/config_loader.py:154 | `os.path.dirname` is a prefix of the path |
| PortfolioConfig.DirnameOfChild | scripts/portfolio/config_loader.py:154 | the directory of `dir/name` is `dir` |
| PortfolioConfig.DefaultConfigPath | scripts/portfolio/config_loader.py:31-34 | the default path starts with the working directory and ends with `.cursor/portfolio_config.json`; for a directory without a trailing slash it is that directory, one slash, and that tail |
| PortfolioConfig.JoinConfigParts | scripts/portfolio/config_loader.py:34 | joining `.cursor` and then the file name appends `.cursor/portfolio_config.json`, with one slash before it unless the directory is empty or already ends in one |
| PortfolioConfig.DefaultRoot | scripts/portfolio/config_loader.py:32-35 | two directories above the default configuration path is the working directory it was built from |
| PortfolioConfig.JoinBetween | scripts/portfolio/config_loader.py:35 | joining a relative part to a directory without a trailing slash puts exactly one slash between |
| PortfolioConfig.TemplatePath | scripts/portfolio/config_loader.py:142-163 | an absolute template path is returned as it is; a relative one is joined to the given root, or the default root, and made absolute; no path when the file is not a text |
| PortfolioConfig.TemplateBesideConfig | scripts/portfolio/config_loader.py:152-163 | with the default configuration path and root, a relative template resolves against the working directory the configuration lives under |
| Strptime.Parse | ui/log_window.py:295 | whatever `strptime` accepts is a real calendar date with an hour, minute and second in range |
| Strptime.ParseDateString | ui/log_window.py:295 | a stored `YYYY-MM-DD` date reads back as itself at midnight |
| Strptime.ParseRejectsTrailing | ui/log_window.py:295 | text left over after the date makes the parse fail |
| Strptime.FormatDate | config.py:125 | `%Y-%m-%d` writes a date as its stored `YYYY-MM-DD` text |
| Text.Split | utils/schedule.py:56 | `str.split(sep)` gives at least one part and no part holds the separator |
| Text.JoinSplit | scripts/portfolio/git_history.py:112-120 | joining the parts of a split with the same separator gives the text back |
| Text.SplitJoin | scripts/portfolio/git_history.py:112-120 | splitting joined parts gives them back when no part, or part plus the separator's start, holds the separator |
| Text.Strip | scripts/portfolio/git_history.py:106 | `str.strip()` removes exactly the leading and trailing whitespace |
| Text.ParseInt | utils/schedule.py:56 | `int()` succeeds only on non-blank text and gives a negative value only after a minus sign |
| Text.ParseIntNat | utils/schedule.py:56 | the decimal text of a natural number reads back as that number |
| Text.Lower | scripts/generate_roadmap.py:58 | `str.lower()` maps each character and keeps the length |
| Text.Padded | config.py:125 | a zero-padded field is all digits, reads back as the number and is at least the width long |
| Text.LexLeTotal | scripts/generate_roadmap.py:178 | any two texts compare one way or the other |
| Text.LexLeTrans | scripts/generate_roadmap.py:178 | text comparison is transitive |
| Text.LexLeAntisym | scripts/generate_roadmap.py:178 | texts that compare both ways are equal |
| Calendar.DaysInMonth | ui/log_window.py:270 | every month has 28 to 31 days |
| Calendar.FromOrdinal | ui/log_window.py:556 | a day number in the datetime range is a valid date with that day number |
| Calendar.FromToOrdinal | ui/log_window.py:556 | a valid date's day number is in range and converts back to the date |
| Calendar.OrdinalInjective | ui/log_window.py:556 | two valid dates with the same day number are the same date |
| Calendar.Weekday | config.py:330 | `date.weekday()` is between 0 (Monday) and 6 |
| Calendar.WeekdayNext | config.py:330 | the next day's weekday is one more, modulo seven |

## Left out

- Threads, timers and the Tkinter event loop: the monitor loop, its sleep
  and `start`/`stop` are modelled as one poll at a given instant.
- Reading and writing files, and JSON encoding and decoding: documents are
  values, and a write is modelled by its effect and its possible faults.
  The optional task keys (`time`, `enabled`, `created_date` and
  `schedule`, and each offset inside `schedule`) are modelled as values
  that may be absent. For `time` and `created_date` a JSON `null` reads
  like a missing key in the source, so it is the absent value here too.
  A `null` under `enabled`, `schedule` or an offset is not modelled: the
  source's `get` returns `None` there instead of its default. A top-level
  document that is not an object is not modelled.
- Documents missing a required key: every task is assumed to hold `id` and
  `task_names`, and every log entry its five fields (`date`, `time`,
  `task_id`, `task_name`, `completed`). The source raises `KeyError` on a
  document without them where it indexes the key directly
  (ui/log_window.py:502 and 588-590, config.py:149 and 185,
  ui/reminder_window.py:178), and defaults `task_names` to an empty list
  where it uses `get` (task_manager.py:233, ui/reminder_window.py:215);
  neither behaviour is modelled.
- Floating point: achievement percentages are kept as the exact counts
  they are computed from. The `:.1f` and `%` formatting of rates and
  durations is not modelled beyond whole-day durations.
- Everything visual: widget layout, colours, fonts, matplotlib drawing,
  window dragging and message boxes. The log window's detail tab, which
  sorts the day's entries by date and time for display, is not modelled,
  and neither is the weekend-toggle refresh handler.
- Settings dialog editing and deleting of tasks go through the store. They
  are modelled as `Store` operations, not as dialog members.
- Running `git`: the parser starts from the command's output text.
  `get_latest_commit_date` and the development-history Markdown builder
  only run `git` and format its result, and are not modelled.
- The reminder window's auto-close timer is concurrency and is not
  modelled; its completion logic is.
- The main window and the program's start-up wiring are UI only.
- Portfolio scripts that only wrap libraries or do I/O are not modelled:
  - file discovery (directory walks, glob matching, file sizes and float
    importance scores);
  - the Excel writer (openpyxl);
  - the codebase reader and the content storage (file reads and writes);
  - the prompt generator (templated file writing plus `git`);
  - the command-line driver.
- The semantic-search tool is a function parameter; whatever it does
  besides returning results or raising is outside the model.
- `os.path.abspath` depends on the working directory and is a function
  parameter of `PortfolioConfig.TemplatePath`.
- Whitespace and case: `strip`, `split()` and `lower` are modelled for ASCII
  whitespace and ASCII letters only; Unicode whitespace and case mapping
  are not.
- `strftime("%Y")` for years below 1000 is platform dependent; the model
  pads to four digits.
- Dictionary iteration order: maps are unordered here, so results that
  depend on insertion order are stated per key.
- `strptime` directives other than `%Y %m %d %H %M %S` and the literal
  characters the program uses.
- In Python `1 == True` and `"1"` is a different key from `1`. The model
  keeps JSON values typed and does not model the coincidences between
  numbers and booleans.
- Unhashable values in the semantic-search results (a dictionary whose
  path field holds a list) make the set lookup raise. The model only has
  text, integer and null fields.
- `first_paragraph` has a fallback for an empty paragraph list, but
  `str.split` never returns an empty list, so that fallback cannot run and
  is not modelled.
- ContentGenerator.Summarize: its contract states only the within-limit
  case. The bound on a cut summary is the separate lemma
  `ContentGenerator.SummarizeBound`, and it allows `max_chars + 3`
  characters because the appended `...` is not budgeted by the source.
- ContentGenerator.Technologies: its contract bounds the length only;
  membership is stated by `ContentGenerator.TechnologiesMembers`.
- GitHistory.ParseLines: its contract states field and file shapes only;
  what it reads back is stated by `GitHistory.LinesReadBack` and
  `GitHistory.LogRoundTrip` for printable commits (no line breaks, no `|`
  in the first three fields).
- GitHistory.LogRoundTrip: assumes that no changed path holds three or
  more `|`. Such a path splits into four fields, and the corrected parser
  reads it as the next commit's header.
- Text.ParseInt: reads ASCII decimal digits (with single underscores
  between them), an optional sign and surrounding ASCII whitespace only.
  Python's `int()` also accepts other Unicode decimal digits and Unicode
  whitespace; such text is a `ValueError` here. `Schedule.ParseClock`,
  `SettingsDialog.OkClicked` and `Reminder.ParseSize` inherit this.
- Schedule.ParseClock: rejects an `HH:MM` text written with non-ASCII
  digits, which the source accepts, for the reason given for
  `Text.ParseInt`.
- Monitor.Run: the callbacks are assumed to return. In the source the
  whole loop body sits in one `try` (task_manager.py:61-118), so a
  callback that raises abandons the remaining checks and tasks of that
  poll, while the keys recorded before it stay recorded. That case is not
  modelled; `Monitor.Poll`, `Monitor.PollFires` and
  `Monitor.PollIdempotent` hold for callbacks that return.
- Roadmap.Gantt: its contract states the block structure only; the
  per-item lines are stated by `Roadmap.Bars` and
  `Roadmap.UndatedStretchIsComment`.
- Store.LoadList: a load has three outcomes here: the document, a
  missing file, or text that is not JSON. The source catches only
  `FileNotFoundError` and `json.JSONDecodeError` (config.py:66-107), so a
  `PermissionError`, an `IsADirectoryError` or a `UnicodeDecodeError` (a
  file that is not UTF-8) propagates to the caller. Such a read is not
  modelled. `Store.LoadSettings`, `Store.LoadOverrides`, `Store.LoadTasks`
  and `Store.LoadLogs` share this gap, and so do the source's callers that
  load first: `get_exclude_weekends`, `is_date_included` and the monitor's
  loads.
- Store.LoadSettings: other read errors raise in the source and are not
  modelled, as described for `Store.LoadList` (config.py:215-229).
- Store.LoadOverrides: other read errors raise in the source and are not
  modelled, as described for `Store.LoadList` (config.py:251-268).
- Strptime.Parse: a numeric field reads ASCII digits only, and a space in
  the format matches a run of ASCII whitespace only. Python's `_strptime`
  builds these from `\d` and `\s+`, which match any Unicode decimal digit
  and any Unicode whitespace, and `int()` converts such digits. So a date
  such as `２０２５-01-05` parses in the source and is `None` here. The
  members that read external text through it inherit this:
  `Roadmap.Duration`, `GitHistory.PortfolioDate`,
  `ContentGenerator.ParseFirst`, `ContentGenerator.DateFormat`, and the
  log window's creation dates (`LogWindow.CreatedOn` and
  `LogWindow.CreatedDates`). The monitor's history pruning has the same
  gap: `Monitor.HasStamp` tests ASCII digits where the source's `\d`
  (task_manager.py:247) is Unicode. The keys the monitor itself writes
  hold ASCII digits only, so on them the two agree.
- LogWindow.LastDay: month 0 gives `None`. The source's arithmetic alone
  would give 31 for it (`datetime(year, 1, 1)` minus one day), but the
  window never passes month 0.
- Roadmap.Duration: gives 1 for a date written with non-ASCII digits,
  where the source counts the days; see `Strptime.Parse`.
- GitHistory.PortfolioDate: returns a date written with non-ASCII digits
  unchanged, where the source reformats it; see `Strptime.Parse`.
- ContentGenerator.ParseFirst: finds no date in text written with
  non-ASCII digits, where the source's `strptime` reads one; see
  `Strptime.Parse`.
- ContentGenerator.DateFormat: returns text written with non-ASCII digits
  unchanged, where the source reformats it; see `Strptime.Parse`.

## Findings

| source | as written | input that shows it | evidently intended | confidence | as-written member | corrected member |
|---|---|---|---|---|---|---|
| ui/log_window.py:555-558 | the twelve graph months are found by stepping back `30 * i` days from today | on the 31st of March steps 0 and 1 both land in March, step 2 in January, and February is never drawn | step `i` draws the calendar month `i` months before the current one | high (not executed) | LogWindow.GraphMonthsSkipFebruary | LogWindow.GraphMonthsMarch |
| scripts/portfolio/git_history.py:82-120 | the pretty format (hash, date, author and subject, each followed by a vertical bar) ends in a bar, and the message is every field after the third joined back with bars | any commit: the subject `fix` is read back as `fix` followed by a bar | the message is the commit subject, without the format's trailing separator | high (not executed) | GitHistory.TrailingPipeKept | GitHistory.LogRoundTrip |
| scripts/portfolio/git_history.py:123-142 | the file lines of a commit run to the next empty line, and the line after them is skipped | a merge commit, or any commit without changed files: git prints no blank line after it, so the next commit's header and files are read as its files and that commit is lost | a commit's files end at the next header as well, and a commit without files is read with no files | high (not executed) | GitHistory.MergeSwallowsNext | GitHistory.LogRoundTrip |
| utils/file_io.py:76-79 | on failure whatever `.bak` file exists is copied over the target | file `new` with a stale backup `old` left by an earlier run; the backup copy fails and the rename fails, and the file ends up holding `old` | only a backup made by this call is restored, so a failed write leaves the file as it was | medium (not executed) | AtomicWrite.StaleBackupRestored | AtomicWrite.Write |
| config.py:121 | a new task id is `task_` followed by the number of tasks plus one | tasks `task_001`, `task_002`; delete `task_001`; the next task is `task_002` again | a fresh id no existing task has | high (not executed) | Store.AddAfterDeleteRepeatsId | Store.AddTask |
| scripts/generate_roadmap.py:56-63 | a non-empty category other than core or stretch skips the item with `continue` | a completed item with category `future` is left out of the roadmap | the comment on line 62 says other values fall back to the status rule, which puts a completed item in core | medium (not executed) | Roadmap.UnknownCategoryDropped | Roadmap.Bucket |
