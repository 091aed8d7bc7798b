/**
 * The task monitor: one poll of the background loop (which tasks are due,
 * which notices fire, which callbacks run), the per-minute history that
 * keeps a notice from firing twice, the completion rule that suppresses the
 * warning, the daily pruning of that history, and the registry of open
 * reminder windows.
 */
module Monitor {
  import opened Wrappers
  import opened Text
  import opened Calendar
  import opened Strptime
  import opened Records
  import opened Schedule
  import opened Seqs
  import opened Store

  /** A notice fires when the clock is within 60 seconds of its target, either side. */
  const WindowMicros: int := 60_000_000

  function Distance(a: int, b: int): nat {
    if a >= b then a - b else b - a
  }

  // ---------------------------------------------------------------------------
  // History keys
  // ---------------------------------------------------------------------------

  /** The history key `f"{id}_{target:%Y-%m-%d_%H:%M}_{kind}"`: seconds are not part of it. */
  function Key(id: string, target: int, kind: string): (r: string)
    requires InRange(target)
    ensures |r| > |id| + |kind| && r[..|id|] == id && r[|r| - |kind|..] == kind
  {
    KeyEnds(id, DateString(DateOf(target)), ClockString(target), kind);
    id + "_" + DateString(DateOf(target)) + "_" + ClockString(target) + "_" + kind
  }

  /** A key made of any parts begins with its id and ends with its kind. */
  lemma KeyEnds(id: string, date: string, clock: string, kind: string)
    ensures var k := id + "_" + date + "_" + clock + "_" + kind;
      |k| > |id| + |kind| && k[..|id|] == id && k[|k| - |kind|..] == kind
  {
    var front := id + "_" + date + "_" + clock + "_";
    assert front[..|id|] == id;
    assert (front + kind)[..|id|] == front[..|id|];
    assert (front + kind)[|front|..] == kind;
  }

  /** A stored date is ten characters, each a digit or `-`. */
  lemma DateStringLayout(d: Date)
    requires ValidDate(d)
    ensures |DateString(d)| == 10
    ensures forall k :: 0 <= k < 10 ==> IsDigit(DateString(d)[k]) || DateString(d)[k] == '-'
  {
    var s := DateString(d);
    DateTextAt(s, d);
    forall k | 0 <= k < 10
      ensures IsDigit(s[k]) || s[k] == '-'
    {
      if k < 4 {
        assert s[k] == s[0..4][k];
      } else if 5 <= k < 7 {
        assert s[k] == s[5..7][k - 5];
      } else if 8 <= k {
        assert s[k] == s[8..10][k - 8];
      }
    }
  }

  /** `%H:%M` is two digits, a colon and two digits. */
  lemma ClockStringLayout(t: int)
    requires InRange(t)
    ensures var c := ClockString(t);
      |c| == 5 && IsDigit(c[0]) && IsDigit(c[1]) && c[2] == ':' && IsDigit(c[3]) && IsDigit(c[4])
  {
    PaddedTwo(HourOf(t));
    PaddedTwo(MinuteOf(t));
  }

  /**
   * The layout of a key whose id has `n` characters: the separators, the ten
   * date characters (digits and dashes), the clock digits and the kind.
   */
  predicate KeyShape(k: string, n: nat, kind: string) {
    && |k| == n + 18 + |kind|
    && k[n] == '_' && k[n + 11] == '_' && k[n + 14] == ':' && k[n + 17] == '_'
    && (forall o :: n + 1 <= o <= n + 10 ==> IsDigit(k[o]) || k[o] == '-')
    && IsDigit(k[n + 12]) && IsDigit(k[n + 13]) && IsDigit(k[n + 15]) && IsDigit(k[n + 16])
    && k[n + 18..] == kind
  }

  /** Where each part of a key sits. */
  lemma KeyLayout(id: string, t: int, kind: string)
    requires InRange(t)
    ensures var k := Key(id, t, kind); var n := |id|;
      && KeyShape(k, n, kind)
      && k[..n] == id
      && k[n + 1..n + 11] == DateString(DateOf(t))
      && k[n + 12..n + 17] == ClockString(t)
  {
    DateStringLayout(DateOf(t));
    ClockStringLayout(t);
    ConcatShape(id, DateString(DateOf(t)), ClockString(t), kind);
  }

  lemma ConcatShape(id: string, date: string, clock: string, kind: string)
    requires |date| == 10 && forall j :: 0 <= j < 10 ==> IsDigit(date[j]) || date[j] == '-'
    requires |clock| == 5 && IsDigit(clock[0]) && IsDigit(clock[1]) && clock[2] == ':' && IsDigit(clock[3]) && IsDigit(clock[4])
    ensures var k := id + "_" + date + "_" + clock + "_" + kind; var n := |id|;
      && KeyShape(k, n, kind)
      && k[..n] == id
      && k[n + 1..n + 11] == date
      && k[n + 12..n + 17] == clock
  {
    var k := id + "_" + date + "_" + clock + "_" + kind;
    var n := |id|;
    forall o | n + 1 <= o <= n + 10 ensures IsDigit(k[o]) || k[o] == '-' {
      assert k[o] == date[o - n - 1];
    }
    assert k[n + 12] == clock[0] && k[n + 13] == clock[1] && k[n + 14] == clock[2];
    assert k[n + 15] == clock[3] && k[n + 16] == clock[4];
  }

  /** Two targets share a key exactly when they fall in the same minute of the same day. */
  lemma KeySameMinute(id: string, t1: int, t2: int, kind: string)
    requires InRange(t1) && InRange(t2)
    ensures Key(id, t1, kind) == Key(id, t2, kind) <==>
      DateOf(t1) == DateOf(t2) && HourOf(t1) == HourOf(t2) && MinuteOf(t1) == MinuteOf(t2)
  {
    var n := |id|;
    KeyLayout(id, t1, kind);
    KeyLayout(id, t2, kind);
    if Key(id, t1, kind) == Key(id, t2, kind) {
      assert DateString(DateOf(t1)) == DateString(DateOf(t2));
      assert ClockString(t1) == ClockString(t2);
      ParseDateString(DateOf(t1));
      ParseDateString(DateOf(t2));
      PaddedClockAccepted(HourOf(t1), MinuteOf(t1));
      PaddedClockAccepted(HourOf(t2), MinuteOf(t2));
    }
  }

  // ---------------------------------------------------------------------------
  // Firing a notice once
  // ---------------------------------------------------------------------------

  /** The answer of `_should_trigger_notification` and the history it leaves. */
  datatype Decision = Decision(fire: bool, fired: set<string>)

  /**
   * `_should_trigger_notification`: a key already in the history never fires;
   * otherwise the notice fires, and its key is recorded, exactly when the
   * clock is within the window of the target.
   */
  function ShouldTrigger(now: int, target: int, id: string, kind: string, fired: set<string>): (r: Decision)
    requires InRange(target)
    ensures Key(id, target, kind) in fired ==> r == Decision(false, fired)
    ensures Key(id, target, kind) !in fired ==> (r.fire <==> Distance(now, target) <= WindowMicros)
    ensures r.fire ==> r.fired == fired + {Key(id, target, kind)}
    ensures !r.fire ==> r.fired == fired
  {
    var key := Key(id, target, kind);
    if key in fired then Decision(false, fired)
    else if Distance(now, target) <= WindowMicros then Decision(true, fired + {key})
    else Decision(false, fired)
  }

  /** Asking twice at any two instants: whatever fired the first time does not fire the second. */
  lemma FiresAtMostOnce(now1: int, now2: int, target: int, id: string, kind: string, fired: set<string>)
    requires InRange(target)
    requires ShouldTrigger(now1, target, id, kind, fired).fire
    ensures ShouldTrigger(now2, target, id, kind, ShouldTrigger(now1, target, id, kind, fired).fired)
         == Decision(false, ShouldTrigger(now1, target, id, kind, fired).fired)
  {
  }

  /** Once a notice fired, another target in the same minute for the same task and kind is silenced. */
  lemma SameMinuteSilenced(now1: int, now2: int, t1: int, t2: int, id: string, kind: string, fired: set<string>)
    requires InRange(t1) && InRange(t2)
    requires DateOf(t1) == DateOf(t2) && HourOf(t1) == HourOf(t2) && MinuteOf(t1) == MinuteOf(t2)
    requires ShouldTrigger(now1, t1, id, kind, fired).fire
    ensures !ShouldTrigger(now2, t2, id, kind, ShouldTrigger(now1, t1, id, kind, fired).fired).fire
  {
    KeySameMinute(id, t1, t2, kind);
  }

  /** The history only grows. */
  lemma HistoryGrows(now: int, target: int, id: string, kind: string, fired: set<string>)
    requires InRange(target)
    ensures fired <= ShouldTrigger(now, target, id, kind, fired).fired
  {
  }

  // ---------------------------------------------------------------------------
  // Completion
  // ---------------------------------------------------------------------------

  /** The completed entries for task `id` among `logs`. */
  function CompletedLogs(logs: seq<LogEntry>, id: string): (r: seq<LogEntry>)
    ensures forall e :: e in r <==> e in logs && e.taskId == id && e.completed
    ensures forall e: LogEntry :: e.taskId == id && e.completed ==> multiset(r)[e] == multiset(logs)[e]
  {
    FilterCounts(logs, (e: LogEntry) => e.taskId == id && e.completed);
    Filter(logs, (e: LogEntry) => e.taskId == id && e.completed)
  }

  /** `tasks[i]` is the task `next(t for t in tasks if t["id"] == id)` finds. */
  predicate IsFirstWithId(tasks: seq<Task>, id: string, i: int) {
    0 <= i < |tasks| && tasks[i].id == id && forall k :: 0 <= k < i ==> tasks[k].id != id
  }

  /**
   * `_is_task_completed(id, date)`: the first task with the id has at least
   * one sub-item, and the completed logs of that date for the id are at
   * least as many as its sub-items. Every completed entry counts, so the
   * same sub-item completed twice counts twice. An unknown id is not
   * completed.
   */
  function IsTaskCompleted(tasks: seq<Task>, logs: seq<LogEntry>, id: string, date: string): (r: bool)
    ensures r <==> exists i :: IsFirstWithId(tasks, id, i) && 0 < |tasks[i].names| <= |CompletedLogs(LogsByDate(logs, date), id)|
  {
    var i := FirstTaskWithId(tasks, id);
    var done := |CompletedLogs(LogsByDate(logs, date), id)|;
    assert i >= 0 ==> IsFirstWithId(tasks, id, i);
    assert forall j :: IsFirstWithId(tasks, id, j) ==> j == i by {
      forall j | IsFirstWithId(tasks, id, j) ensures j == i {
        FirstWithIdIs(tasks, id, j);
      }
    }
    i >= 0 && 0 < |tasks[i].names| <= done
  }

  /** The first task with an id is the one `FirstTaskWithId` finds. */
  lemma FirstWithIdIs(tasks: seq<Task>, id: string, j: int)
    requires IsFirstWithId(tasks, id, j)
    ensures FirstTaskWithId(tasks, id) == j
  {
    var i := FirstTaskWithId(tasks, id);
    assert i != -1 by { assert tasks[j].id == id; }
  }

  /** A task id nobody has is never completed. */
  lemma UnknownTaskIncomplete(tasks: seq<Task>, logs: seq<LogEntry>, id: string, date: string)
    requires forall k :: 0 <= k < |tasks| ==> tasks[k].id != id
    ensures !IsTaskCompleted(tasks, logs, id, date)
  {
  }

  /** A task without sub-items is never completed, however many logs it has. */
  lemma NoNamesIncomplete(tasks: seq<Task>, logs: seq<LogEntry>, id: string, date: string, i: int)
    requires IsFirstWithId(tasks, id, i) && |tasks[i].names| == 0
    ensures !IsTaskCompleted(tasks, logs, id, date)
  {
  }

  /** Logging a completion never makes a completed task incomplete. */
  lemma CompletionMonotone(tasks: seq<Task>, logs: seq<LogEntry>, e: LogEntry, id: string, date: string)
    requires IsTaskCompleted(tasks, logs, id, date)
    ensures IsTaskCompleted(tasks, logs + [e], id, date)
  {
    var p := (x: LogEntry) => x.date == date;
    var q := (x: LogEntry) => x.taskId == id && x.completed;
    FilterAppend(logs, [e], p);
    FilterAppend(LogsByDate(logs, date), Filter([e], p), q);
  }

  /** Two completions of the same sub-item satisfy a task of two sub-items. */
  lemma DuplicateCompletionsCount(now: int)
    requires InRange(now)
    ensures var task := Task("task_001", Some("9:00"), ["a", "b"], None, None, None);
      var logs := AddLog(AddLog([], "task_001", "a", true, now), "task_001", "a", true, now);
      IsTaskCompleted([task], logs, "task_001", DateString(DateOf(now)))
  {
    var e := NewLog("task_001", "a", true, now);
    assert AddLog(AddLog([], "task_001", "a", true, now), "task_001", "a", true, now) == [e, e];
    RepeatedCompletion(e, DateString(DateOf(now)), "task_001");
  }

  /** The same completion logged twice on a day counts twice for its task. */
  lemma RepeatedCompletion(e: LogEntry, date: string, id: string)
    requires e.date == date && e.taskId == id && e.completed
    ensures CompletedLogs(LogsByDate([e, e], date), id) == [e, e]
  {
    FilterAll([e, e], (x: LogEntry) => x.date == date);
    FilterAll([e, e], (x: LogEntry) => x.taskId == id && x.completed);
  }

  // ---------------------------------------------------------------------------
  // Pruning the history
  // ---------------------------------------------------------------------------

  /** The regular expression `_YYYY-MM-DD_\d{2}:\d{2}_` for the date text `today` matches at position `i` of `k`. */
  predicate StampAt(k: string, i: int, today: string) {
    && 0 <= i && i + 18 <= |k|
    && k[i] == '_' && k[i + 1..i + 11] == today && k[i + 11] == '_'
    && IsDigit(k[i + 12]) && IsDigit(k[i + 13]) && k[i + 14] == ':'
    && IsDigit(k[i + 15]) && IsDigit(k[i + 16]) && k[i + 17] == '_'
  }

  /** `pattern.search(key)`: the stamp occurs anywhere in the key. */
  predicate HasStamp(k: string, today: Date)
    requires ValidDate(today)
  {
    exists i :: 0 <= i < |k| && StampAt(k, i, DateString(today))
  }

  /** `clear_notification_history`: keys without today's stamp are dropped, the others kept. */
  function ClearHistory(fired: set<string>, now: int): (r: set<string>)
    requires InRange(now)
    ensures r <= fired
    ensures forall k :: k in fired ==> (k in r <==> HasStamp(k, DateOf(now)))
  {
    set k | k in fired && HasStamp(k, DateOf(now))
  }

  /** Pruning twice on the same day is the same as pruning once. */
  lemma ClearIdempotent(fired: set<string>, now: int)
    requires InRange(now)
    ensures ClearHistory(ClearHistory(fired, now), now) == ClearHistory(fired, now)
  {
  }

  /**
   * For an id without `:` and a kind without `_` (every kind the monitor
   * uses), a key carries today's stamp exactly when its target is today, so
   * pruning keeps exactly today's keys.
   */
  lemma StampIffToday(id: string, t: int, kind: string, today: Date)
    requires InRange(t) && ValidDate(today)
    requires forall c :: c in id ==> c != ':'
    requires forall c :: c in kind ==> c != '_'
    ensures HasStamp(Key(id, t, kind), today) <==> DateOf(t) == today
  {
    var k := Key(id, t, kind);
    var n := |id|;
    KeyLayout(id, t, kind);
    if DateOf(t) == today {
      assert StampAt(k, n, DateString(today));
    } else {
      ParseDateString(DateOf(t));
      ParseDateString(today);
      forall i | 0 <= i < |k| ensures !StampAt(k, i, DateString(today)) {
        NoStampAt(k, id, kind, DateString(DateOf(t)), DateString(today), i);
      }
    }
  }

  /**
   * In a key of that shape the stamp can only match right after the id,
   * and there only for the date the key carries.
   */
  lemma NoStampAt(k: string, id: string, kind: string, date: string, today: string, i: int)
    requires KeyShape(k, |id|, kind) && k[..|id|] == id
    requires k[|id| + 1..|id| + 11] == date && date != today
    requires forall c :: c in id ==> c != ':'
    requires forall c :: c in kind ==> c != '_'
    ensures !StampAt(k, i, today)
  {
    var n := |id|;
    if 0 <= i && i + 18 <= |k| {
      if i < n {
        if i + 14 < n {
          assert k[i + 14] == k[..n][i + 14] == id[i + 14];
          assert id[i + 14] in id;
        } else {
          assert n <= i + 14 <= n + 13;
        }
      } else if i > n {
        var o := i - n;
        if o == 11 {
          assert k[i + 11] == k[n + 18..][4] == kind[4];
          assert kind[4] in kind;
        } else if o == 17 {
          assert k[i + 11] == k[n + 18..][10] == kind[10];
          assert kind[10] in kind;
        } else if o >= 18 {
          assert k[i] == k[n + 18..][o - 18] == kind[o - 18];
          assert kind[o - 18] in kind;
        }
      }
    }
  }

  // ---------------------------------------------------------------------------
  // Callbacks and open windows
  // ---------------------------------------------------------------------------

  /** The three callback slots; a slot holds an opaque handle for the UI function or nothing. */
  datatype Callbacks = Callbacks(pre: Option<nat>, main: Option<nat>, warning: Option<nat>)

  const NoCallbacks: Callbacks := Callbacks(None, None, None)

  /** `set_notification_callback`: one of the three names fills its slot; any other name is ignored. */
  function SetCallback(cbs: Callbacks, name: string, cb: nat): (r: Callbacks)
    ensures name == "pre_notification" ==> r == cbs.(pre := Some(cb))
    ensures name == "main_notification" ==> r == cbs.(main := Some(cb))
    ensures name == "warning_notification" ==> r == cbs.(warning := Some(cb))
    ensures name !in {"pre_notification", "main_notification", "warning_notification"} ==> r == cbs
  {
    if name == "pre_notification" then cbs.(pre := Some(cb))
    else if name == "main_notification" then cbs.(main := Some(cb))
    else if name == "warning_notification" then cbs.(warning := Some(cb))
    else cbs
  }

  /** Setting a slot twice keeps the later callback. */
  lemma SetCallbackLastWins(cbs: Callbacks, name: string, a: nat, b: nat)
    ensures SetCallback(SetCallback(cbs, name, a), name, b) == SetCallback(cbs, name, b)
  {
  }

  /** What `window_exists()` does on a registered window: true, false, or raise. */
  datatype Probe = Alive | Closed | Raises

  datatype Window = Window(handle: nat, probe: Probe)

  type Registry = map<string, Option<Window>>

  /** `register_window`: the id now maps to the window, replacing any earlier one. */
  function RegisterWindow(reg: Registry, id: string, w: Option<Window>): (r: Registry)
    ensures id in r && r[id] == w
    ensures forall k :: k in reg && k != id ==> k in r && r[k] == reg[k]
    ensures r.Keys == reg.Keys + {id}
  {
    reg[id := w]
  }

  datatype Lookup = Lookup(window: Option<Window>, registry: Registry)

  /**
   * `get_window`: a live window is returned and kept; a missing, `None` or
   * closed one gives `None` and its entry is removed; a probe that raises
   * gives `None` and keeps the entry.
   */
  function GetWindow(reg: Registry, id: string): (r: Lookup)
    ensures r.window.Some? <==> id in reg && reg[id].Some? && reg[id].value.probe == Alive
    ensures r.window.Some? ==> r == Lookup(reg[id], reg)
    ensures id in reg && reg[id].Some? && reg[id].value.probe == Raises ==> r == Lookup(None, reg)
    ensures (id !in reg || reg[id].None? || reg[id].value.probe == Closed) ==> r == Lookup(None, reg - {id})
  {
    var win := if id in reg then reg[id] else None;
    if win.None? then Lookup(None, reg - {id})
    else
      match win.value.probe
      case Alive => Lookup(win, reg)
      case Closed => Lookup(None, reg - {id})
      case Raises => Lookup(None, reg)
  }

  /** A live window registered under an id is what the next lookup returns. */
  lemma RegisterThenGet(reg: Registry, id: string, w: Window)
    requires w.probe == Alive
    ensures GetWindow(RegisterWindow(reg, id, Some(w)), id) == Lookup(Some(w), RegisterWindow(reg, id, Some(w)))
  {
  }

  /** Looking up twice gives the same answer as looking up once. */
  lemma GetWindowIdempotent(reg: Registry, id: string)
    ensures GetWindow(GetWindow(reg, id).registry, id) == GetWindow(reg, id)
  {
  }

  /** A lookup touches no other id's entry. */
  lemma GetWindowLocal(reg: Registry, id: string, other: string)
    requires other != id && other in reg
    ensures other in GetWindow(reg, id).registry && GetWindow(reg, id).registry[other] == reg[other]
  {
  }

  // ---------------------------------------------------------------------------
  // One poll
  // ---------------------------------------------------------------------------

  /** `get_today_tasks`: the enabled tasks, in file order. */
  function TodayTasks(tasks: seq<Task>): (r: seq<Task>)
    ensures forall t :: t in r <==> t in tasks && Enabled(t)
    ensures forall t :: Enabled(t) ==> multiset(r)[t] == multiset(tasks)[t]
  {
    FilterCounts(tasks, Enabled);
    Filter(tasks, Enabled)
  }

  /** A task written before the `enabled` key existed is listed. */
  lemma LegacyTaskListed(tasks: seq<Task>, t: Task)
    requires t in tasks && t.enabled.None?
    ensures t in TodayTasks(tasks)
  {
  }

  datatype Kind = Pre | Main | Warning

  /** The `notification_type` text of a kind, as it appears in history keys. */
  function KindName(k: Kind): (s: string)
    ensures forall c :: c in s ==> c != '_' && c != ':'
  {
    match k
    case Pre => "pre"
    case Main => "main"
    case Warning => "warning"
  }

  function Slot(cbs: Callbacks, k: Kind): Option<nat> {
    match k
    case Pre => cbs.pre
    case Main => cbs.main
    case Warning => cbs.warning
  }

  /** The instant of one kind of notice. */
  function TimeOf(times: Times, k: Kind): Option<int> {
    match k
    case Pre => times.pre
    case Main => times.main
    case Warning => times.warning
  }

  /** A callback invocation: which notice, for which task. */
  datatype Call = Call(kind: Kind, task: Task)

  /** A notice whose target is within the window has its key in the history `g`. */
  predicate Settled(now: int, target: Option<int>, id: string, kind: Kind, g: set<string>) {
    target.Some? && InRange(target.value) && Distance(now, target.value) <= WindowMicros ==>
      Key(id, target.value, KindName(kind)) in g
  }

  /**
   * `times[kind] is not None and _should_trigger_notification(...)`: after
   * the check the notice is settled, and a notice already settled stays
   * silent and leaves the history alone.
   */
  function Check(now: int, target: Option<int>, id: string, kind: Kind, fired: set<string>): (r: Decision)
    requires target.Some? ==> InRange(target.value)
    ensures target.None? ==> r == Decision(false, fired)
    ensures target.Some? ==> r == ShouldTrigger(now, target.value, id, KindName(kind), fired)
    ensures Settled(now, target, id, kind, r.fired)
    ensures Settled(now, target, id, kind, fired) ==> r == Decision(false, fired)
  {
    if target.None? then Decision(false, fired) else ShouldTrigger(now, target.value, id, KindName(kind), fired)
  }

  /** `_trigger_*_notification`: the callback runs when its slot is filled. */
  function Notify(cbs: Callbacks, kind: Kind, task: Task, fire: bool): (r: seq<Call>)
    ensures r == [] || r == [Call(kind, task)]
    ensures r == [Call(kind, task)] <==> fire && Slot(cbs, kind).Some?
  {
    if fire && Slot(cbs, kind).Some? then [Call(kind, task)] else []
  }

  /** The callbacks run for one task, in the order pre-notice, main notice, warning. */
  function Calls(cbs: Callbacks, task: Task, pre: bool, main: bool, warning: bool): (r: seq<Call>)
    ensures forall c :: c in r ==> c.task == task && Slot(cbs, c.kind).Some?
    ensures Call(Pre, task) in r <==> pre && cbs.pre.Some?
    ensures Call(Main, task) in r <==> main && cbs.main.Some?
    ensures Call(Warning, task) in r <==> warning && cbs.warning.Some?
  {
    var a := Notify(cbs, Pre, task, pre);
    var b := Notify(cbs, Main, task, main);
    var c := Notify(cbs, Warning, task, warning);
    assert forall x :: x in a + b + c <==> x in a || x in b || x in c;
    a + b + c
  }

  /** The history and the callbacks run for one task, or for a whole poll. */
  datatype Outcome = Outcome(fired: set<string>, calls: seq<Call>)

  /** Every notice of `times` that is due now has its key in `g`. */
  predicate AllSettled(now: int, times: Times, id: string, g: set<string>) {
    && Settled(now, times.pre, id, Pre, g)
    && Settled(now, times.main, id, Main, g)
    && Settled(now, times.warning, id, Warning, g)
  }

  /**
   * The three checks of one task in order (pre-notice, main notice,
   * warning), each seeing the history the one before left; the warning
   * callback is skipped when the task is `completed` today, though its key
   * is recorded all the same.
   */
  function Notices(task: Task, times: Times, completed: bool, now: int, fired: set<string>, cbs: Callbacks): (o: Outcome)
    requires InRange(now) && TimesInRange(times)
    ensures fired <= o.fired
    ensures AllSettled(now, times, task.id, o.fired)
    ensures AllSettled(now, times, task.id, fired) ==> o == Outcome(fired, [])
    ensures forall c :: c in o.calls ==> c.task == task && Slot(cbs, c.kind).Some?
  {
    var p := Check(now, times.pre, task.id, Pre, fired);
    var m := Check(now, times.main, task.id, Main, p.fired);
    var w := Check(now, times.warning, task.id, Warning, m.fired);
    Outcome(w.fired, Calls(cbs, task, p.fire, m.fire, w.fire && !completed))
  }

  /**
   * Each callback of a task runs exactly when its own check fires and its
   * slot is filled, each check seeing the history the one before left; the
   * warning's also needs the task to be incomplete.
   */
  lemma NoticesCalls(task: Task, times: Times, completed: bool, now: int, fired: set<string>, cbs: Callbacks)
    requires InRange(now) && TimesInRange(times)
    ensures var o := Notices(task, times, completed, now, fired, cbs);
      var p := Check(now, times.pre, task.id, Pre, fired);
      var m := Check(now, times.main, task.id, Main, p.fired);
      && (Call(Pre, task) in o.calls <==> p.fire && cbs.pre.Some?)
      && (Call(Main, task) in o.calls <==> m.fire && cbs.main.Some?)
      && (Call(Warning, task) in o.calls <==> Check(now, times.warning, task.id, Warning, m.fired).fire && cbs.warning.Some? && !completed)
  {
  }

  /** The task has instants this poll (enabled, with a usable time) but one of them overflows. */
  predicate Overflows(task: Task, now: int)
    requires InRange(now)
  {
    Enabled(task) && TimesFrom(task, BaseTime(task, now)).Err?
  }

  /** The task's instants this poll, when it is enabled and they exist. */
  predicate Due(task: Task, now: int)
    requires InRange(now)
  {
    Enabled(task) && TimesFrom(task, BaseTime(task, now)).Ok?
  }

  /** `_is_task_completed(task["id"], now.strftime("%Y-%m-%d"))` */
  predicate Completed(tasks: seq<Task>, logs: seq<LogEntry>, id: string, now: int)
    requires InRange(now)
  {
    IsTaskCompleted(tasks, logs, id, DateString(DateOf(now)))
  }

  /**
   * The body of the loop over tasks for one task: disabled tasks and tasks
   * without a usable time are skipped; `None` when computing the instants
   * raises, which abandons the rest of the poll.
   */
  function ProcessTask(task: Task, tasks: seq<Task>, logs: seq<LogEntry>, now: int, fired: set<string>, cbs: Callbacks): (r: Option<Outcome>)
    requires InRange(now)
    ensures r.None? <==> Overflows(task, now)
    ensures !Enabled(task) || BaseTime(task, now).None? ==> r == Some(Outcome(fired, []))
    ensures Due(task, now) ==> TimesInRange(TimesFrom(task, BaseTime(task, now)).value)
    ensures Due(task, now) ==> r == Some(Notices(task, TimesFrom(task, BaseTime(task, now)).value, Completed(tasks, logs, task.id, now), now, fired, cbs))
  {
    if !Enabled(task) then Some(Outcome(fired, []))
    else
      var base := BaseTime(task, now);
      if base.None? then Some(Outcome(fired, []))
      else
        match NotificationTimes(task, now, base)
        case Err(_) => None
        case Ok(times) => Some(Notices(task, times, Completed(tasks, logs, task.id, now), now, fired, cbs))
  }

  /** Processing a task never forgets history, and only calls back for it when it is enabled. */
  lemma ProcessTaskSound(task: Task, tasks: seq<Task>, logs: seq<LogEntry>, now: int, fired: set<string>, cbs: Callbacks)
    requires InRange(now) && ProcessTask(task, tasks, logs, now, fired, cbs).Some?
    ensures fired <= ProcessTask(task, tasks, logs, now, fired, cbs).value.fired
    ensures forall c :: c in ProcessTask(task, tasks, logs, now, fired, cbs).value.calls ==> c.task == task && Enabled(task)
  {
    if Due(task, now) {
      var o := ProcessTask(task, tasks, logs, now, fired, cbs).value;
      assert forall c :: c in o.calls ==> c.task == task;
    }
  }

  /** The result of one poll; `aborted` when a task's instants overflowed and the rest were skipped. */
  datatype Cycle = Cycle(fired: set<string>, calls: seq<Call>, aborted: bool)

  /** The loop over `pending`, the tasks not yet looked at in this poll. */
  function Run(pending: seq<Task>, tasks: seq<Task>, logs: seq<LogEntry>, now: int, fired: set<string>, cbs: Callbacks): (c: Cycle)
    requires InRange(now)
    ensures fired <= c.fired
    ensures c.aborted <==> exists k :: 0 <= k < |pending| && Overflows(pending[k], now)
    ensures forall call :: call in c.calls ==> call.task in pending && Enabled(call.task)
    decreases |pending|
  {
    if |pending| == 0 then Cycle(fired, [], false)
    else
      match ProcessTask(pending[0], tasks, logs, now, fired, cbs)
      case None => Cycle(fired, [], true)
      case Some(o) =>
        ProcessTaskSound(pending[0], tasks, logs, now, fired, cbs);
        var rest := Run(pending[1..], tasks, logs, now, o.fired, cbs);
        OverflowsCons(pending, now);
        Cycle(rest.fired, o.calls + rest.calls, rest.aborted)
  }

  /** Some pending task overflows exactly when the first does or one of the rest does; the rest are pending. */
  lemma OverflowsCons(pending: seq<Task>, now: int)
    requires InRange(now) && |pending| > 0
    ensures (exists k :: 0 <= k < |pending| && Overflows(pending[k], now))
        <==> Overflows(pending[0], now) || exists k :: 0 <= k < |pending[1..]| && Overflows(pending[1..][k], now)
    ensures forall t :: t in pending[1..] ==> t in pending
  {
    var p := (t: Task) => Overflows(t, now);
    AnyCons(pending, p);
    assert Any(pending, p) <==> exists k :: 0 <= k < |pending| && Overflows(pending[k], now);
    assert Any(pending[1..], p) <==> exists k :: 0 <= k < |pending[1..]| && Overflows(pending[1..][k], now);
    TailMembers(pending);
  }

  /**
   * One pass of `_monitor_tasks`: the tasks are loaded, then each is looked
   * at in turn with the history left by the ones before it.
   */
  function Poll(tasks: seq<Task>, logs: seq<LogEntry>, now: int, fired: set<string>, cbs: Callbacks): (c: Cycle)
    requires InRange(now)
    ensures fired <= c.fired
    ensures c.aborted <==> exists k :: 0 <= k < |tasks| && Overflows(tasks[k], now)
    ensures forall call :: call in c.calls ==> call.task in tasks && Enabled(call.task)
  {
    Run(tasks, tasks, logs, now, fired, cbs)
  }

  /**
   * Running the rest of a poll again with any history that contains the
   * first run's result changes nothing and calls nothing.
   */
  lemma {:induction false} RunAgain(pending: seq<Task>, tasks: seq<Task>, logs: seq<LogEntry>, now: int, fired: set<string>, cbs: Callbacks, g: set<string>)
    requires InRange(now)
    requires Run(pending, tasks, logs, now, fired, cbs).fired <= g
    ensures Run(pending, tasks, logs, now, g, cbs) == Cycle(g, [], Run(pending, tasks, logs, now, fired, cbs).aborted)
    decreases |pending|
  {
    if |pending| > 0 {
      var task := pending[0];
      var r := ProcessTask(task, tasks, logs, now, fired, cbs);
      if r.Some? {
        var o := r.value;
        RunAgain(pending[1..], tasks, logs, now, o.fired, cbs, g);
        if Due(task, now) {
          var times := TimesFrom(task, BaseTime(task, now)).value;
          assert AllSettled(now, times, task.id, o.fired);
          assert AllSettled(now, times, task.id, g);
        }
        assert ProcessTask(task, tasks, logs, now, g, cbs) == Some(Outcome(g, []));
      }
    }
  }

  /** A second poll at the same instant fires nothing new and calls no callback. */
  lemma PollIdempotent(tasks: seq<Task>, logs: seq<LogEntry>, now: int, fired: set<string>, cbs: Callbacks)
    requires InRange(now)
    ensures var c := Poll(tasks, logs, now, fired, cbs);
      Poll(tasks, logs, now, c.fired, cbs) == Cycle(c.fired, [], c.aborted)
  {
    RunAgain(tasks, tasks, logs, now, fired, cbs, Poll(tasks, logs, now, fired, cbs).fired);
  }

  /**
   * A warning that comes due while the task is completed is consumed
   * silently: its key enters the history, so it cannot fire later that
   * minute even if the task stops counting as completed.
   */
  lemma CompletedWarningConsumed(task: Task, times: Times, now: int, fired: set<string>, cbs: Callbacks)
    requires InRange(now) && TimesInRange(times) && times.warning.Some?
    requires Distance(now, times.warning.value) <= WindowMicros
    ensures var o := Notices(task, times, true, now, fired, cbs);
      Key(task.id, times.warning.value, "warning") in o.fired && Call(Warning, task) !in o.calls
  {
  }

  /** An incomplete task with a filled warning slot gets its warning when it comes due. */
  lemma IncompleteWarningFires(task: Task, times: Times, now: int, fired: set<string>, cbs: Callbacks)
    requires InRange(now) && TimesInRange(times) && times.warning.Some? && cbs.warning.Some?
    requires Distance(now, times.warning.value) <= WindowMicros
    requires Key(task.id, times.warning.value, "warning") !in fired
    ensures Call(Warning, task) in Notices(task, times, false, now, fired, cbs).calls
  {
    var p := Check(now, times.pre, task.id, Pre, fired);
    var m := Check(now, times.main, task.id, Main, p.fired);
    WarningStillFires(task.id, times, now, fired);
    var w := Check(now, times.warning, task.id, Warning, m.fired);
    assert Notices(task, times, false, now, fired, cbs).calls == Calls(cbs, task, p.fire, m.fire, w.fire);
  }

  /** A due warning whose key is not yet recorded fires after the other two checks. */
  lemma WarningStillFires(id: string, times: Times, now: int, fired: set<string>)
    requires TimesInRange(times) && times.warning.Some?
    requires Distance(now, times.warning.value) <= WindowMicros
    requires Key(id, times.warning.value, "warning") !in fired
    ensures var p := Check(now, times.pre, id, Pre, fired);
      var m := Check(now, times.main, id, Main, p.fired);
      Check(now, times.warning, id, Warning, m.fired).fire
  {
    WarningKeyUntouched(id, times, now, fired);
  }

  /** The pre-notice and main-notice checks never record the warning's key. */
  lemma WarningKeyUntouched(id: string, times: Times, now: int, fired: set<string>)
    requires TimesInRange(times) && times.warning.Some?
    requires Key(id, times.warning.value, "warning") !in fired
    ensures var p := Check(now, times.pre, id, Pre, fired);
      Key(id, times.warning.value, "warning") !in Check(now, times.main, id, Main, p.fired).fired
  {
    var p := Check(now, times.pre, id, Pre, fired);
    CheckKeepsOut(now, times.pre, id, Pre, fired, id, times.warning.value, Warning);
    CheckKeepsOut(now, times.main, id, Main, p.fired, id, times.warning.value, Warning);
  }

  /** A check never records the key of another kind or of another task id. */
  lemma CheckKeepsOut(now: int, target: Option<int>, id: string, kind: Kind, fired: set<string>, id2: string, w: int, other: Kind)
    requires (target.Some? ==> InRange(target.value)) && InRange(w)
    requires kind != other || id != id2
    requires Key(id2, w, KindName(other)) !in fired
    ensures Key(id2, w, KindName(other)) !in Check(now, target, id, kind, fired).fired
  {
    if target.Some? {
      KeysDistinct(id, id2, target.value, w, kind, other);
      TriggerKeepsOut(now, target.value, id, KindName(kind), fired, Key(id2, w, KindName(other)));
    }
  }

  /** A check records no key but its own. */
  lemma TriggerKeepsOut(now: int, target: int, id: string, kind: string, fired: set<string>, k: string)
    requires InRange(target) && k != Key(id, target, kind) && k !in fired
    ensures k !in ShouldTrigger(now, target, id, kind, fired).fired
  {
  }


  /**
   * Keys of different kinds, or of different task ids, never collide: the
   * three kind names end in different letters, and the part after the id
   * has the same length for equal kinds.
   */
  lemma KeysDistinct(id1: string, id2: string, t1: int, t2: int, k1: Kind, k2: Kind)
    requires InRange(t1) && InRange(t2) && (k1 != k2 || id1 != id2)
    ensures Key(id1, t1, KindName(k1)) != Key(id2, t2, KindName(k2))
  {
    if k1 != k2 {
      KeyLastChar(id1, t1, k1);
      KeyLastChar(id2, t2, k2);
    } else {
      KeyIdPrefix(id1, t1, k1);
      KeyIdPrefix(id2, t2, k2);
    }
  }

  /** A key ends with the last letter of its kind's name, and the three names end in different letters. */
  lemma KeyLastChar(id: string, t: int, k: Kind)
    requires InRange(t)
    ensures var key := Key(id, t, KindName(k));
      |key| > 0 && key[|key| - 1] == (match k case Pre => 'e' case Main => 'n' case Warning => 'g')
  {
    KeyLayout(id, t, KindName(k));
  }

  /** A key is the id followed by 18 characters and the kind's name. */
  lemma KeyIdPrefix(id: string, t: int, k: Kind)
    requires InRange(t)
    ensures var key := Key(id, t, KindName(k));
      |key| == |id| + 18 + |KindName(k)| && key[..|id|] == id
  {
    KeyLayout(id, t, KindName(k));
  }

  // ---------------------------------------------------------------------------
  // Every due notice is delivered
  // ---------------------------------------------------------------------------

  /**
   * A notice due now whose key is not yet recorded and whose callback slot is
   * filled fires its callback; the warning needs the task to be incomplete.
   */
  lemma NoticeFires(task: Task, times: Times, completed: bool, now: int, fired: set<string>, cbs: Callbacks, kind: Kind)
    requires InRange(now) && TimesInRange(times)
    requires TimeOf(times, kind).Some? && Distance(now, TimeOf(times, kind).value) <= WindowMicros
    requires Key(task.id, TimeOf(times, kind).value, KindName(kind)) !in fired
    requires Slot(cbs, kind).Some? && (kind == Warning ==> !completed)
    ensures Call(kind, task) in Notices(task, times, completed, now, fired, cbs).calls
  {
    match kind
    case Pre =>
    case Main =>
      CheckKeepsOut(now, times.pre, task.id, Pre, fired, task.id, times.main.value, Main);
    case Warning =>
      WarningStillFires(task.id, times, now, fired);
  }

  /**
   * Processing a task records no key of another task id, so it cannot
   * silence another task's notice.
   */
  lemma ProcessTaskKeepsOtherKey(task: Task, tasks: seq<Task>, logs: seq<LogEntry>, now: int, fired: set<string>, cbs: Callbacks,
                                 id: string, t: int, kind: Kind)
    requires InRange(now) && InRange(t) && id != task.id
    requires Key(id, t, KindName(kind)) !in fired
    requires ProcessTask(task, tasks, logs, now, fired, cbs).Some?
    ensures Key(id, t, KindName(kind)) !in ProcessTask(task, tasks, logs, now, fired, cbs).value.fired
  {
    if Due(task, now) {
      var times := TimesFrom(task, BaseTime(task, now)).value;
      var p := Check(now, times.pre, task.id, Pre, fired);
      var m := Check(now, times.main, task.id, Main, p.fired);
      CheckKeepsOut(now, times.pre, task.id, Pre, fired, id, t, kind);
      CheckKeepsOut(now, times.main, task.id, Main, p.fired, id, t, kind);
      CheckKeepsOut(now, times.warning, task.id, Warning, m.fired, id, t, kind);
    }
  }

  /** The task's notice of `kind` is due now, its key is not in `fired`, and its callback slot is filled. */
  predicate Awaiting(task: Task, now: int, fired: set<string>, cbs: Callbacks, kind: Kind)
    requires InRange(now)
  {
    && Due(task, now)
    && var t := TimeOf(TimesFrom(task, BaseTime(task, now)).value, kind);
    && t.Some? && InRange(t.value) && Distance(now, t.value) <= WindowMicros
    && Key(task.id, t.value, KindName(kind)) !in fired
    && Slot(cbs, kind).Some?
  }

  /** An awaiting notice of a task calls back when the task is processed. */
  lemma ProcessTaskFires(task: Task, tasks: seq<Task>, logs: seq<LogEntry>, now: int, fired: set<string>, cbs: Callbacks, kind: Kind)
    requires InRange(now) && Awaiting(task, now, fired, cbs, kind)
    requires kind == Warning ==> !Completed(tasks, logs, task.id, now)
    ensures ProcessTask(task, tasks, logs, now, fired, cbs).Some?
    ensures Call(kind, task) in ProcessTask(task, tasks, logs, now, fired, cbs).value.calls
  {
    var times := TimesFrom(task, BaseTime(task, now)).value;
    NoticeFires(task, times, Completed(tasks, logs, task.id, now), now, fired, cbs, kind);
  }

  /** A task that is processed lets the loop go on with the history it leaves, its calls first. */
  lemma RunStep(pending: seq<Task>, tasks: seq<Task>, logs: seq<LogEntry>, now: int, fired: set<string>, cbs: Callbacks)
    requires InRange(now) && |pending| > 0 && ProcessTask(pending[0], tasks, logs, now, fired, cbs).Some?
    ensures var o := ProcessTask(pending[0], tasks, logs, now, fired, cbs).value;
      Run(pending, tasks, logs, now, fired, cbs).calls == o.calls + Run(pending[1..], tasks, logs, now, o.fired, cbs).calls
  {
  }

  /** No task before task `k` overflows or carries its id. */
  predicate ClearBefore(pending: seq<Task>, now: int, k: nat)
    requires InRange(now) && k < |pending|
  {
    forall j :: 0 <= j < k ==> !Overflows(pending[j], now) && pending[j].id != pending[k].id
  }

  /** The task is processed from history `g` and, when `key` is not in `g`, does not record it. */
  predicate Passes(task: Task, tasks: seq<Task>, logs: seq<LogEntry>, now: int, g: set<string>, cbs: Callbacks, key: string)
    requires InRange(now)
  {
    && ProcessTask(task, tasks, logs, now, g, cbs).Some?
    && (key !in g ==> key !in ProcessTask(task, tasks, logs, now, g, cbs).value.fired)
  }

  /** The task is processed from history `g` and makes the call `call`. */
  predicate Delivers(task: Task, tasks: seq<Task>, logs: seq<LogEntry>, now: int, g: set<string>, cbs: Callbacks, call: Call)
    requires InRange(now)
  {
    ProcessTask(task, tasks, logs, now, g, cbs).Some? && call in ProcessTask(task, tasks, logs, now, g, cbs).value.calls
  }

  /**
   * The loop reaches task `k` with `key` still unrecorded when every task
   * before it is processed without recording `key`; so the poll makes the
   * call task `k` makes from any history lacking `key`.
   */
  lemma {:induction false} RunDelivers(pending: seq<Task>, tasks: seq<Task>, logs: seq<LogEntry>, now: int, fired: set<string>, cbs: Callbacks,
                                       k: nat, key: string, call: Call)
    requires InRange(now) && k < |pending| && key !in fired
    requires forall j, g :: 0 <= j < k ==> Passes(pending[j], tasks, logs, now, g, cbs, key)
    requires forall g :: key !in g ==> Delivers(pending[k], tasks, logs, now, g, cbs, call)
    ensures call in Run(pending, tasks, logs, now, fired, cbs).calls
    decreases k
  {
    if k == 0 {
      DeliversFirst(pending, tasks, logs, now, fired, cbs, call);
    } else {
      var g := PassesFirst(pending, tasks, logs, now, fired, cbs, k, key, call);
      RunDelivers(pending[1..], tasks, logs, now, g, cbs, k - 1, key, call);
    }
  }

  /** The first task's calls are among the loop's. */
  lemma DeliversFirst(pending: seq<Task>, tasks: seq<Task>, logs: seq<LogEntry>, now: int, fired: set<string>, cbs: Callbacks, call: Call)
    requires InRange(now) && |pending| > 0 && Delivers(pending[0], tasks, logs, now, fired, cbs, call)
    ensures call in Run(pending, tasks, logs, now, fired, cbs).calls
  {
    RunStep(pending, tasks, logs, now, fired, cbs);
  }

  /**
   * Past a first task that does not record `key`: the rest of the loop
   * starts from a history `g` without `key`, its calls follow the first
   * task's, and the hypotheses hold for task `k - 1` of the rest.
   */
  lemma PassesFirst(pending: seq<Task>, tasks: seq<Task>, logs: seq<LogEntry>, now: int, fired: set<string>, cbs: Callbacks,
                    k: nat, key: string, call: Call) returns (g: set<string>)
    requires InRange(now) && 0 < k < |pending| && key !in fired
    requires forall j, h :: 0 <= j < k ==> Passes(pending[j], tasks, logs, now, h, cbs, key)
    requires forall h :: key !in h ==> Delivers(pending[k], tasks, logs, now, h, cbs, call)
    ensures key !in g
    ensures forall c :: c in Run(pending[1..], tasks, logs, now, g, cbs).calls ==> c in Run(pending, tasks, logs, now, fired, cbs).calls
    ensures forall j, h :: 0 <= j < k - 1 ==> Passes(pending[1..][j], tasks, logs, now, h, cbs, key)
    ensures forall h :: key !in h ==> Delivers(pending[1..][k - 1], tasks, logs, now, h, cbs, call)
  {
    assert Passes(pending[0], tasks, logs, now, fired, cbs, key);
    RunStep(pending, tasks, logs, now, fired, cbs);
    g := ProcessTask(pending[0], tasks, logs, now, fired, cbs).value.fired;
    forall j, h | 0 <= j < k - 1
      ensures Passes(pending[1..][j], tasks, logs, now, h, cbs, key)
    {
      assert pending[1..][j] == pending[j + 1];
    }
    assert pending[1..][k - 1] == pending[k];
  }

  /** Processing another task that does not overflow never records a key of this task. */
  lemma OtherPasses(task: Task, other: Task, tasks: seq<Task>, logs: seq<LogEntry>, now: int, g: set<string>, cbs: Callbacks, t: int, kind: Kind)
    requires InRange(now) && InRange(t) && other.id != task.id && !Overflows(other, now)
    ensures Passes(other, tasks, logs, now, g, cbs, Key(task.id, t, KindName(kind)))
  {
    if Key(task.id, t, KindName(kind)) !in g {
      ProcessTaskKeepsOtherKey(other, tasks, logs, now, g, cbs, task.id, t, kind);
    }
  }

  /**
   * Liveness of the loop: when no earlier task overflows or shares its id,
   * an awaiting notice of task `k` calls back in this poll (the warning only
   * when the task is incomplete today).
   */
  lemma RunFires(pending: seq<Task>, tasks: seq<Task>, logs: seq<LogEntry>, now: int, fired: set<string>, cbs: Callbacks,
                 k: nat, kind: Kind)
    requires InRange(now) && k < |pending|
    requires ClearBefore(pending, now, k) && Awaiting(pending[k], now, fired, cbs, kind)
    requires kind == Warning ==> !Completed(tasks, logs, pending[k].id, now)
    ensures Call(kind, pending[k]) in Run(pending, tasks, logs, now, fired, cbs).calls
  {
    var task := pending[k];
    var t := TimeOf(TimesFrom(task, BaseTime(task, now)).value, kind).value;
    var key := Key(task.id, t, KindName(kind));
    forall j, g | 0 <= j < k
      ensures Passes(pending[j], tasks, logs, now, g, cbs, key)
    {
      OtherPasses(task, pending[j], tasks, logs, now, g, cbs, t, kind);
    }
    forall g | key !in g
      ensures Delivers(task, tasks, logs, now, g, cbs, Call(kind, task))
    {
      ProcessTaskFires(task, tasks, logs, now, g, cbs, kind);
    }
    RunDelivers(pending, tasks, logs, now, fired, cbs, k, key, Call(kind, task));
  }

  /**
   * In a poll of a task list with distinct ids and no overflowing task
   * before it, every awaiting notice calls back.
   */
  lemma PollFires(tasks: seq<Task>, logs: seq<LogEntry>, now: int, fired: set<string>, cbs: Callbacks, k: nat, kind: Kind)
    requires InRange(now) && k < |tasks|
    requires forall j :: 0 <= j < k ==> !Overflows(tasks[j], now) && tasks[j].id != tasks[k].id
    requires Awaiting(tasks[k], now, fired, cbs, kind)
    requires kind == Warning ==> !Completed(tasks, logs, tasks[k].id, now)
    ensures Call(kind, tasks[k]) in Poll(tasks, logs, now, fired, cbs).calls
  {
    RunFires(tasks, tasks, logs, now, fired, cbs, k, kind);
  }
}
