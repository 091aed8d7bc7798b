/**
 * The records the program keeps in its JSON files: tasks (`tasks.json`) and
 * completion log entries (`logs.json`).
 */
module Records {
  import opened Wrappers

  /** The optional per-task `schedule` object: minute offsets, each of which may be absent. */
  datatype ScheduleOffsets = ScheduleOffsets(preMinutes: Option<int>, warningMinutes: Option<int>, snoozeMinutes: Option<int>)

  /**
   * A daily task. `time` is the `"H:M"` text the user typed, `names` the
   * sub-items (`task_names`), and the optional keys are absent in files
   * written by older versions.
   */
  datatype Task = Task(
    id: string,
    time: Option<string>,
    names: seq<string>,
    enabled: Option<bool>,
    createdDate: Option<string>,
    schedule: Option<ScheduleOffsets>)

  /** One completion record: the day and minute it was written and the sub-item it is about. */
  datatype LogEntry = LogEntry(date: string, time: string, taskId: string, taskName: string, completed: bool)

  /** `task.get("enabled", True)`: a task without the key counts as enabled. */
  predicate Enabled(t: Task) {
    t.enabled.GetOr(true)
  }
}
