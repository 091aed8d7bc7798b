/**
 * The reminder window: one per notification. The pre-notice only shows
 * text; the main notice and the warning show one checkbox per sub-item and
 * a complete button whose state follows the boxes; completing writes one
 * completion log per checked sub-item and closes the window. The window is
 * centred on the screen from its measured or requested size.
 */
module Reminder {
  import opened Wrappers
  import opened Text
  import opened Calendar
  import opened Records
  import opened Seqs
  import opened Store
  import opened Monitor

  // ---------------------------------------------------------------------------
  // Window state
  // ---------------------------------------------------------------------------

  /** One checkbox: the sub-item it stands for and whether it is ticked. */
  datatype Box = Box(name: string, checked: bool)

  /** The complete button: absent in the pre-notice, otherwise disabled or enabled. */
  datatype Button = NoButton | Disabled | Clickable

  /** An open or closed reminder window of one kind for one task. */
  datatype Popup = Popup(kind: Kind, task: Task, boxes: seq<Box>, button: Button, open: bool)

  /** The sub-item names the boxes stand for, in order. */
  function BoxNames(boxes: seq<Box>): (r: seq<string>)
    ensures |r| == |boxes| && forall k :: 0 <= k < |boxes| ==> r[k] == boxes[k].name
  {
    seq(|boxes|, k requires 0 <= k < |boxes| => boxes[k].name)
  }

  /** `all(var.get() for _, var in self.checkboxes)` */
  predicate AllChecked(boxes: seq<Box>) {
    forall k :: 0 <= k < |boxes| ==> boxes[k].checked
  }

  /** `any(var.get() for _, var in self.checkboxes)` */
  predicate AnyChecked(boxes: seq<Box>) {
    exists k :: 0 <= k < |boxes| && boxes[k].checked
  }

  /** One unticked box per sub-item of the task. */
  function FreshBoxes(names: seq<string>): (r: seq<Box>)
    ensures BoxNames(r) == names && !AnyChecked(r)
  {
    seq(|names|, k requires 0 <= k < |names| => Box(names[k], false))
  }

  /** `show_pre_notification`: the message window, with neither boxes nor button. */
  function ShowPre(task: Task): (w: Popup)
    ensures w.kind == Pre && w.open && w.button == NoButton && w.boxes == []
  {
    Popup(Pre, task, [], NoButton, true)
  }

  /** `show_main_notification`: a box per sub-item, none ticked, and the button disabled. */
  function ShowMain(task: Task): (w: Popup)
    ensures w.kind == Main && w.open && w.button == Disabled
    ensures BoxNames(w.boxes) == task.names && !AnyChecked(w.boxes)
  {
    Popup(Main, task, FreshBoxes(task.names), Disabled, true)
  }

  /** The button state of a warning: enabled when any box is ticked. */
  function WarningButton(boxes: seq<Box>): (b: Button)
    ensures b == Clickable <==> AnyChecked(boxes)
    ensures b != NoButton
  {
    if AnyChecked(boxes) then Clickable else Disabled
  }

  /** `show_warning_notification`: a box per sub-item, none ticked; the button follows the boxes, so it starts disabled. */
  function ShowWarning(task: Task): (w: Popup)
    ensures w.kind == Warning && w.open && w.button == Disabled
    ensures BoxNames(w.boxes) == task.names && !AnyChecked(w.boxes)
  {
    var boxes := FreshBoxes(task.names);
    Popup(Warning, task, boxes, WarningButton(boxes), true)
  }

  /**
   * `switch_to_warning_mode`: an open window is rebuilt as a warning for
   * the same task, its boxes unticked again; a closed one is left alone.
   */
  function SwitchToWarning(w: Popup): (r: Popup)
    ensures !w.open ==> r == w
    ensures w.open ==> r == ShowWarning(w.task)
  {
    if !w.open then w else
      var boxes := FreshBoxes(w.task.names);
      Popup(Warning, w.task, boxes, WarningButton(boxes), true)
  }

  /**
   * `_check_completion`: in a main notice the button is enabled exactly when
   * every box is ticked, in a warning when at least one is; a pre-notice
   * has no button.
   */
  function CheckCompletion(w: Popup): (r: Popup)
    ensures r.kind == w.kind && r.task == w.task && r.boxes == w.boxes && r.open == w.open
    ensures w.kind == Main ==> (r.button == Clickable <==> AllChecked(w.boxes)) && r.button != NoButton
    ensures w.kind == Warning ==> (r.button == Clickable <==> AnyChecked(w.boxes)) && r.button != NoButton
    ensures w.kind == Pre ==> r == w
  {
    match w.kind
    case Main => w.(button := if AllChecked(w.boxes) then Clickable else Disabled)
    case Warning => w.(button := WarningButton(w.boxes))
    case Pre => w
  }

  /** A click on box `i`: the box flips and the button is re-evaluated. */
  function Toggle(w: Popup, i: int): (r: Popup)
    requires 0 <= i < |w.boxes|
    ensures |r.boxes| == |w.boxes| && r.boxes[i].checked == !w.boxes[i].checked
    ensures forall k :: 0 <= k < |w.boxes| && k != i ==> r.boxes[k] == w.boxes[k]
    ensures BoxNames(r.boxes) == BoxNames(w.boxes)
    ensures r.kind == w.kind && r.task == w.task && r.open == w.open
  {
    var b := w.boxes[i];
    CheckCompletion(w.(boxes := w.boxes[i := b.(checked := !b.checked)]))
  }

  /** The button matches the boxes: the rule `_check_completion` applies. */
  predicate ButtonFollowsBoxes(w: Popup) {
    && (w.kind == Main ==> (w.button == Clickable <==> AllChecked(w.boxes)))
    && (w.kind == Warning ==> (w.button == Clickable <==> AnyChecked(w.boxes)))
  }

  /** After any click the button follows the boxes. */
  lemma ToggleFollows(w: Popup, i: int)
    requires 0 <= i < |w.boxes|
    ensures ButtonFollowsBoxes(Toggle(w, i))
  {
  }

  /** A warning follows its boxes from the start, as does a main notice with at least one sub-item. */
  lemma ShownWindowsFollow(task: Task)
    ensures ButtonFollowsBoxes(ShowWarning(task))
    ensures |task.names| > 0 ==> ButtonFollowsBoxes(ShowMain(task))
  {
    if |task.names| > 0 {
      assert !ShowMain(task).boxes[0].checked;
    }
  }

  /**
   * A main notice for a task without sub-items starts with the button
   * disabled although every (absent) box counts as ticked, and has no box
   * whose click would enable it.
   */
  lemma EmptyMainStaysDisabled(task: Task)
    requires task.names == []
    ensures ShowMain(task).button == Disabled && AllChecked(ShowMain(task).boxes) && ShowMain(task).boxes == []
  {
  }

  /** Clicking the same box twice gives back a window whose button follows its boxes. */
  lemma ToggleTwice(w: Popup, i: int)
    requires 0 <= i < |w.boxes| && ButtonFollowsBoxes(w) && w.button != NoButton
    ensures Toggle(Toggle(w, i), i) == w
  {
    var r := Toggle(Toggle(w, i), i);
    assert r.boxes == w.boxes;
  }

  // ---------------------------------------------------------------------------
  // Completing
  // ---------------------------------------------------------------------------

  /** Whether a box is ticked. */
  predicate Ticked(b: Box) {
    b.checked
  }

  /** The sub-item name a box shows. */
  function NameOf(b: Box): string {
    b.name
  }

  /**
   * The names of the ticked boxes, one per ticked box and in box order, so
   * a name ticked in two boxes appears twice.
   */
  function CheckedNames(boxes: seq<Box>): (r: seq<string>)
    ensures |r| <= |boxes|
    ensures forall n :: n in r <==> exists k :: 0 <= k < |boxes| && boxes[k].checked && boxes[k].name == n
    ensures r == Map(Filter(boxes, Ticked), NameOf)
  {
    if boxes == [] then []
    else
      var rest := CheckedNames(boxes[1..]);
      assert forall k :: 1 <= k < |boxes| ==> boxes[1..][k - 1] == boxes[k];
      MapFilterCons(boxes, Ticked, NameOf);
      if boxes[0].checked then [boxes[0].name] + rest else rest
  }

  /** With every box ticked, the ticked names are all the names. */
  lemma {:induction false} AllCheckedNames(boxes: seq<Box>)
    requires AllChecked(boxes)
    ensures CheckedNames(boxes) == BoxNames(boxes)
  {
    if boxes != [] {
      AllCheckedNames(boxes[1..]);
      assert BoxNames(boxes) == [boxes[0].name] + BoxNames(boxes[1..]);
    }
  }

  /** With no box ticked there is nothing to log. */
  lemma {:induction false} NoneCheckedNames(boxes: seq<Box>)
    ensures CheckedNames(boxes) == [] <==> !AnyChecked(boxes)
  {
    if boxes != [] {
      NoneCheckedNames(boxes[1..]);
      if !boxes[0].checked {
        assert AnyChecked(boxes) ==> AnyChecked(boxes[1..]) by {
          if AnyChecked(boxes) {
            var k :| 0 <= k < |boxes| && boxes[k].checked;
            assert boxes[1..][k - 1] == boxes[k];
          }
        }
        assert AnyChecked(boxes[1..]) ==> AnyChecked(boxes) by {
          if AnyChecked(boxes[1..]) {
            var k :| 0 <= k < |boxes| - 1 && boxes[1..][k].checked;
            assert boxes[k + 1].checked;
          }
        }
      }
    }
  }

  /** The entry `mark_task_completed` appends for one name at `now`. */
  function CompletedEntry(id: string, now: int): string -> LogEntry
    requires InRange(now)
  {
    name => NewLog(id, name, true, now)
  }

  /** `mark_task_completed` for each name in turn: one completed entry per name, in order. */
  function LogCompleted(logs: seq<LogEntry>, id: string, names: seq<string>, now: int): (r: seq<LogEntry>)
    requires InRange(now)
    ensures |r| == |logs| + |names|
  {
    logs + Map(names, CompletedEntry(id, now))
  }

  /** The old entries stay in front; entry `k` after them is the completed entry of name `k`. */
  lemma LogCompletedEntries(logs: seq<LogEntry>, id: string, names: seq<string>, now: int)
    requires InRange(now)
    ensures var r := LogCompleted(logs, id, names, now);
      r[..|logs|] == logs && forall k :: 0 <= k < |names| ==> r[|logs| + k] == NewLog(id, names[k], true, now)
  {
  }

  /** The same entries come out of calling `add_log` once per name, as the loop does. */
  lemma LogCompletedLoop(logs: seq<LogEntry>, id: string, names: seq<string>, now: int)
    requires InRange(now) && names != []
    ensures LogCompleted(logs, id, names, now) == LogCompleted(AddLog(logs, id, names[0], true, now), id, names[1..], now)
  {
    var f := CompletedEntry(id, now);
    AppendMapCons(logs, names, f);
    assert AddLog(logs, id, names[0], true, now) == logs + [f(names[0])];
  }

  /**
   * `_complete_tasks`: a main notice with a box unticked, or a warning with
   * none ticked, logs nothing and stays open; otherwise every ticked
   * sub-item is logged as completed, in order, and the window closes.
   */
  function Complete(w: Popup, logs: seq<LogEntry>, now: int): (r: (Popup, seq<LogEntry>))
    requires InRange(now)
    ensures w.kind == Main && !AllChecked(w.boxes) ==> r == (w, logs)
    ensures w.kind == Warning && !AnyChecked(w.boxes) ==> r == (w, logs)
    ensures w.kind == Main && AllChecked(w.boxes) ==> r == (w.(open := false), LogCompleted(logs, w.task.id, BoxNames(w.boxes), now))
    ensures w.kind == Warning && AnyChecked(w.boxes) ==> r == (w.(open := false), LogCompleted(logs, w.task.id, CheckedNames(w.boxes), now))
    ensures w.kind == Pre ==> r == (w.(open := false), logs)
  {
    match w.kind
    case Main =>
      if !AllChecked(w.boxes) then (w, logs)
      else
        AllCheckedNames(w.boxes);
        (w.(open := false), LogCompleted(logs, w.task.id, CheckedNames(w.boxes), now))
    case Warning =>
      var logged := LogCompleted(logs, w.task.id, CheckedNames(w.boxes), now);
      NoneCheckedNames(w.boxes);
      if logged == logs then (w, logs) else (w.(open := false), logged)
    case Pre => (w.(open := false), logs)
  }

  /** Appended entries of the date, completed and for the task, each raise that day's completed count for the task. */
  lemma {:induction false} AppendedCount(logs: seq<LogEntry>, added: seq<LogEntry>, id: string, date: string)
    requires forall k :: 0 <= k < |added| ==> added[k].date == date && added[k].taskId == id && added[k].completed
    ensures |CompletedLogs(LogsByDate(logs + added, date), id)| == |CompletedLogs(LogsByDate(logs, date), id)| + |added|
  {
    var p := (e: LogEntry) => e.date == date;
    var q := (e: LogEntry) => e.taskId == id && e.completed;
    FilterAppend(logs, added, p);
    FilterAll(added, p);
    FilterAppend(Filter(logs, p), added, q);
    FilterAll(added, q);
  }

  /** The entries logged at `now` are today's completed entries for the task. */
  lemma LoggedAreToday(logs: seq<LogEntry>, id: string, names: seq<string>, now: int)
    requires InRange(now)
    ensures |CompletedLogs(LogsByDate(LogCompleted(logs, id, names, now), DateString(DateOf(now))), id)| >= |names|
  {
    var r := LogCompleted(logs, id, names, now);
    LogCompletedEntries(logs, id, names, now);
    var added := r[|logs|..];
    assert r == logs + added;
    AppendedCount(logs, added, id, DateString(DateOf(now)));
  }

  /**
   * Completing a main notice with every box ticked makes the task count as
   * completed for today, so its warning is suppressed.
   */
  lemma MainCompletionCompletes(w: Popup, tasks: seq<Task>, i: int, logs: seq<LogEntry>, now: int)
    requires InRange(now) && w.kind == Main && AllChecked(w.boxes)
    requires IsFirstWithId(tasks, w.task.id, i) && tasks[i].names == BoxNames(w.boxes) && |w.boxes| > 0
    ensures var (r, logs') := Complete(w, logs, now);
      !r.open && IsTaskCompleted(tasks, logs', w.task.id, DateString(DateOf(now)))
  {
    LoggedAreToday(logs, w.task.id, BoxNames(w.boxes), now);
  }

  /**
   * Completing a warning with some box ticked closes it and logs exactly the
   * ticked sub-items: the old entries stay in front, then one completed
   * entry per ticked box, in box order.
   */
  lemma WarningCompletionLogsTicked(w: Popup, logs: seq<LogEntry>, now: int)
    requires InRange(now) && w.kind == Warning && AnyChecked(w.boxes)
    ensures var (r, logs') := Complete(w, logs, now);
      && !r.open && |logs'| > |logs|
      && logs' == logs + Map(Map(Filter(w.boxes, Ticked), NameOf), CompletedEntry(w.task.id, now))
  {
    NoneCheckedNames(w.boxes);
  }

  // ---------------------------------------------------------------------------
  // Centring
  // ---------------------------------------------------------------------------

  /** The size each kind of window asks for, which is also the fallback when it cannot be measured. */
  function DefaultSize(kind: Kind): (r: (int, int))
    ensures r.0 > 1 && r.1 > 1
    ensures kind == Pre ==> r == (300, 110)
    ensures kind == Main ==> r == (360, 260)
    ensures kind == Warning ==> r == (380, 220)
  {
    match kind
    case Pre => (300, 110)
    case Main => (360, 260)
    case Warning => (380, 220)
  }

  /**
   * The size part of a Tk geometry text `WxH+X+Y`: the text before the
   * first `+`, split at `x` into exactly two integers; `None` where Python
   * raises `ValueError`.
   */
  function ParseSize(geometry: string): (r: Option<(int, int)>)
    ensures r.Some? <==> var parts := Split(BeforeFirst(geometry, "+"), "x");
      |parts| == 2 && ParseInt(parts[0]).Some? && ParseInt(parts[1]).Some?
  {
    var parts := Split(BeforeFirst(geometry, "+"), "x");
    if |parts| != 2 then None
    else
      match (ParseInt(parts[0]), ParseInt(parts[1]))
      case (Some(width), Some(height)) => Some((width, height))
      case _ => None
  }

  /**
   * The size `_position_window` centres: the measured size when both sides
   * exceed one pixel, else the size read from the geometry text; the kind's
   * default size when measuring raises (`measured` is `None`) or the text
   * does not parse.
   */
  function WindowSize(kind: Kind, measured: Option<(int, int)>, geometry: string): (r: (int, int))
    ensures measured.None? ==> r == DefaultSize(kind)
    ensures measured.Some? && measured.value.0 > 1 && measured.value.1 > 1 ==> r == measured.value
    ensures measured.Some? && !(measured.value.0 > 1 && measured.value.1 > 1) ==>
      r == if ParseSize(geometry).Some? then ParseSize(geometry).value else DefaultSize(kind)
  {
    match measured
    case None => DefaultSize(kind)
    case Some((width, height)) =>
      if width > 1 && height > 1 then (width, height)
      else
        match ParseSize(geometry)
        case Some(size) => size
        case None => DefaultSize(kind)
  }

  /** `x = (screen_width - width) // 2` and likewise for `y`. */
  function Centre(screenWidth: int, screenHeight: int, size: (int, int)): (r: (int, int))
    ensures 0 <= (screenWidth - size.0) - 2 * r.0 <= 1
    ensures 0 <= (screenHeight - size.1) - 2 * r.1 <= 1
  {
    ((screenWidth - size.0) / 2, (screenHeight - size.1) / 2)
  }

  /** The margins left and right of the window (and above and below it) differ by at most one pixel. */
  lemma CentreBalanced(screenWidth: int, screenHeight: int, size: (int, int))
    ensures var (x, y) := Centre(screenWidth, screenHeight, size);
      0 <= (screenWidth - (x + size.0)) - x <= 1 && 0 <= (screenHeight - (y + size.1)) - y <= 1
  {
  }

  /** Digits contain neither `+` nor `x`. */
  lemma DigitsHaveNoSeparators(s: string)
    requires AllDigits(s)
    ensures !Contains(s, "+") && !Contains(s, "x")
  {
    forall i | 0 <= i <= |s| - 1
      ensures !OccursAt(s, "+", i) && !OccursAt(s, "x", i)
    {
      assert s[i..i + 1][0] == s[i];
    }
  }

  /** Before the first `+` of `size + "+" + rest` lies exactly `size`, when `size` has no `+`. */
  lemma BeforeFirstPlus(size: string, rest: string)
    requires !Contains(size, "+")
    ensures BeforeFirst(size + "+" + rest, "+") == size
  {
    var g := size + "+" + rest;
    forall i | 0 <= i < |size|
      ensures !OccursAt(g, "+", i)
    {
      assert g[i..i + 1] == size[i..i + 1];
      assert !OccursAt(size, "+", i);
    }
    assert OccursAt(g, "+", |size|) by { assert g[|size|..|size| + 1] == "+"; }
    var before := BeforeFirst(g, "+");
    assert |before| == |size|;
    assert before == g[..|size|] == size;
  }

  /** `W x H` spelled in decimal has no `+`. */
  lemma SizeHasNoPlus(a: string, b: string)
    requires AllDigits(a) && AllDigits(b)
    ensures !Contains(a + "x" + b, "+")
  {
    var size := a + "x" + b;
    DigitsHaveNoSeparators(a);
    DigitsHaveNoSeparators(b);
    forall i | 0 <= i <= |size| - 1
      ensures !OccursAt(size, "+", i)
    {
      assert size[i..i + 1][0] == size[i];
      if i < |a| {
        assert size[i] == a[i];
        assert !OccursAt(a, "+", i);
      } else if i > |a| {
        assert size[i] == b[i - |a| - 1];
        assert !OccursAt(b, "+", i - |a| - 1);
      }
    }
  }

  /** `W x H` in decimal splits at `x` into the two numbers. */
  lemma SizeSplits(width: nat, height: nat)
    ensures Split(NatToString(width) + "x" + NatToString(height), "x") == [NatToString(width), NatToString(height)]
  {
    var a := NatToString(width);
    var b := NatToString(height);
    DigitsHaveNoSeparators(a);
    DigitsHaveNoSeparators(b);
    assert !Contains(a + "x"[..0], "x") by { assert a + "x"[..0] == a; }
    SplitJoin([a, b], "x");
    assert Join([a, b], "x") == a + "x" + b;
  }

  /** The geometry text Tk reports for a `W`×`H` window parses back to that size, wherever the window is. */
  lemma ParseSizeRoundTrip(width: nat, height: nat, position: string)
    ensures ParseSize(NatToString(width) + "x" + NatToString(height) + "+" + position) == Some((width as int, height as int))
  {
    var size := NatToString(width) + "x" + NatToString(height);
    SizeHasNoPlus(NatToString(width), NatToString(height));
    BeforeFirstPlus(size, position);
    SizeSplits(width, height);
    ParseIntNat(width);
    ParseIntNat(height);
  }
}
