/**
 * The rules embedded in the log window: the month length and the placement
 * of the calendar grid, the normalisation of day overrides when a checkbox
 * is toggled, the preset buttons, the integer counts behind the achievement
 * tab and the failure graph, and the months the graph shows.
 */
module LogWindow {
  import opened Wrappers
  import opened Calendar
  import opened Strptime
  import opened Records
  import opened Seqs
  import opened Store

  // ---------------------------------------------------------------------------
  // Month length and grid placement
  // ---------------------------------------------------------------------------

  /** `datetime(year, month, 1)` accepts the pair. */
  predicate ValidMonth(y: int, m: int) {
    MinYear <= y <= MaxYear && 1 <= m <= 12
  }

  /** The first day of the following month, December rolling into January of the next year. */
  function NextMonthStart(y: nat, m: nat): Date {
    if m == 12 then Date(y + 1, 1, 1) else Date(y, m + 1, 1)
  }

  /** The day before the first of the next month is the last day of the month. */
  lemma MonthEndOrdinal(y: nat, m: nat)
    requires ValidMonth(y, m) && !(y == MaxYear && m == 12)
    ensures ValidDate(NextMonthStart(y, m))
    ensures ToOrdinal(NextMonthStart(y, m)) - 1 == ToOrdinal(Date(y, m, DaysInMonth(y, m)))
  {
    if m == 12 {
      DaysBeforeYearStep(y);
      DaysBeforeMonthYear(y);
    }
  }

  /**
   * The month length as the window computes it: the first of the next month
   * minus one day. `None` for a year outside `datetime`'s range, for
   * December 9999, whose next month does not exist, and for any month
   * outside 1..12. For month 0 the source's arithmetic alone would give 31
   * (the first of January minus one day); the window only ever passes
   * months 1..12, so month 0 is treated like the other invalid months.
   */
  function LastDay(y: nat, m: nat): (r: Option<int>)
    ensures r.Some? <==> ValidMonth(y, m) && !(y == MaxYear && m == 12)
    ensures r.Some? ==> r.value == DaysInMonth(y, m) && 28 <= r.value <= 31
  {
    if !ValidMonth(y, m) || (y == MaxYear && m == 12) then None
    else
      MonthEndDate(y, m);
      Some(FromOrdinal(ToOrdinal(NextMonthStart(y, m)) - 1).day)
  }

  /** The date of the day before the first of the next month. */
  lemma MonthEndDate(y: nat, m: nat)
    requires ValidMonth(y, m) && !(y == MaxYear && m == 12)
    ensures ValidDate(NextMonthStart(y, m))
    ensures 1 <= ToOrdinal(NextMonthStart(y, m)) - 1 <= MaxOrdinal
    ensures FromOrdinal(ToOrdinal(NextMonthStart(y, m)) - 1) == Date(y, m, DaysInMonth(y, m))
  {
    MonthEndOrdinal(y, m);
    FromToOrdinal(Date(y, m, DaysInMonth(y, m)));
  }

  /** A grid position; row 0 holds the weekday headers. */
  datatype Cell = Cell(row: int, col: int)

  /** Where day `d` lands when the 1st falls on weekday `w0`. */
  function CellOf(w0: int, d: int): Cell {
    Cell(1 + (w0 + d - 1) / 7, (w0 + d - 1) % 7)
  }

  /** The weekday of the 1st of the month, Monday 0. */
  function FirstWeekday(y: nat, m: nat): (w: int)
    requires ValidMonth(y, m)
    ensures 0 <= w < 7
  {
    Weekday(ToOrdinal(Date(y, m, 1)))
  }

  /** The checkboxes of a month: one position and one checked state per day. */
  datatype Grid = Grid(cells: seq<Cell>, vars: map<int, bool>)

  /**
   * The placement loop of `_update_calendar_grid`: starting at row 1 in the
   * column of the 1st's weekday, each day takes the next column, wrapping to
   * a new row after Sunday.
   */
  method PlaceDays(w0: int, last: int) returns (cells: seq<Cell>)
    requires 0 <= w0 < 7 && 0 <= last
    ensures |cells| == last
    ensures forall d :: 1 <= d <= last ==> cells[d - 1] == CellOf(w0, d)
  {
    var row, col := 1, w0;
    cells := [];
    var day := 1;
    while day <= last
      invariant 1 <= day <= last + 1
      invariant |cells| == day - 1
      invariant forall k :: 0 <= k < day - 1 ==> cells[k] == CellOf(w0, k + 1)
      invariant Cell(row, col) == CellOf(w0, day)
    {
      CellStep(w0, day);
      cells := cells + [Cell(row, col)];
      col := col + 1;
      if col >= 7 {
        col := 0;
        row := row + 1;
      }
      day := day + 1;
    }
  }

  /** The next day takes the next column, or column 0 of the next row after Sunday. */
  lemma CellStep(w0: int, d: int)
    requires 0 <= w0 + d - 1
    ensures var c := CellOf(w0, d);
      CellOf(w0, d + 1) == if c.col + 1 >= 7 then Cell(c.row + 1, 0) else Cell(c.row, c.col + 1)
  {
    var n := w0 + d - 1;
    var q, r := n / 7, n % 7;
    assert n == 7 * q + r;
    if r + 1 >= 7 {
      assert n + 1 == 7 * (q + 1) + 0;
    } else {
      assert n + 1 == 7 * q + (r + 1);
    }
  }

  /**
   * The state one checkbox starts in: the day's override from the month's
   * map if it has one, and the default rule otherwise.
   */
  function Shown(monthOverrides: map<string, bool>, s: Settings, date: Date): (r: bool)
    requires ValidDate(date)
  {
    var byDefault := if GetExcludeWeekends(s) then Weekday(ToOrdinal(date)) < 5 else true;
    if DateString(date) in monthOverrides then monthOverrides[DateString(date)] else byDefault
  }

  /** Given the month's map, the starting state is the day's inclusion. */
  lemma ShownIsIncluded(o: Overrides, monthOverrides: map<string, bool>, s: Settings, date: Date)
    requires ValidDate(date) && monthOverrides == GetMonthOverrides(o, date.year, date.month)
    ensures Shown(monthOverrides, s, date) == IsDateIncluded(o, s, date)
  {
  }

  /** The checkbox loop of `_update_calendar_grid`: one variable per day of the month. */
  method DayStates(o: Overrides, s: Settings, y: nat, m: nat, last: int) returns (vars: map<int, bool>)
    requires ValidMonth(y, m) && last == DaysInMonth(y, m)
    ensures forall d :: d in vars <==> 1 <= d <= last
    ensures forall d :: 1 <= d <= last ==> vars[d] == IsDateIncluded(o, s, Date(y, m, d))
  {
    var monthOverrides := GetMonthOverrides(o, y, m);
    vars := map[];
    var day := 1;
    while day <= last
      invariant 1 <= day <= last + 1
      invariant forall d :: d in vars <==> 1 <= d < day
      invariant forall d :: 1 <= d < day ==> vars[d] == Shown(monthOverrides, s, Date(y, m, d))
    {
      var state := Shown(monthOverrides, s, Date(y, m, day));
      assert forall d :: d in vars[day := state] <==> d in vars || d == day;
      vars := vars[day := state];
      day := day + 1;
    }
    forall d | 1 <= d <= last
      ensures vars[d] == IsDateIncluded(o, s, Date(y, m, d))
    {
      ShownIsIncluded(o, monthOverrides, s, Date(y, m, d));
    }
  }

  /** `_update_calendar_grid`: the positions and starting states of the month's checkboxes. */
  method BuildGrid(o: Overrides, s: Settings, y: nat, m: nat) returns (r: Option<Grid>)
    ensures r.Some? <==> LastDay(y, m).Some?
    ensures r.Some? ==> |r.value.cells| == LastDay(y, m).value
    ensures r.Some? ==> forall d :: 1 <= d <= LastDay(y, m).value ==> r.value.cells[d - 1] == CellOf(FirstWeekday(y, m), d)
    ensures r.Some? ==> forall d :: d in r.value.vars <==> 1 <= d <= LastDay(y, m).value
    ensures r.Some? ==> forall d :: 1 <= d <= LastDay(y, m).value ==> r.value.vars[d] == IsDateIncluded(o, s, Date(y, m, d))
  {
    var lastDay := LastDay(y, m);
    if lastDay.None? {
      return None;
    }
    var cells := PlaceDays(FirstWeekday(y, m), lastDay.value);
    var vars := DayStates(o, s, y, m, lastDay.value);
    r := Some(Grid(cells, vars));
  }

  /** Each day sits in the column of its own weekday. */
  lemma ColumnIsWeekday(y: nat, m: nat, d: int)
    requires ValidMonth(y, m) && 1 <= d <= DaysInMonth(y, m)
    ensures CellOf(FirstWeekday(y, m), d).col == Weekday(ToOrdinal(Date(y, m, d)))
  {
    var n := ToOrdinal(Date(y, m, 1));
    assert ToOrdinal(Date(y, m, d)) == n + d - 1;
    assert FirstWeekday(y, m) == Weekday(n);
    CellColumn(n, d);
  }

  /** Counting on `d - 1` days from the weekday of day ordinal `n` lands on the weekday of `n + d - 1`. */
  lemma CellColumn(n: int, d: int)
    ensures CellOf(Weekday(n), d).col == Weekday(n + d - 1)
  {
    ModSevenShift(n + 6, d - 1);
  }

  lemma ModSevenShift(a: int, b: int)
    ensures (a % 7 + b) % 7 == (a + b) % 7
  {
  }

  /** No two days share a cell, every column is a weekday column and a month spans at most six rows. */
  lemma CellsDistinct(w0: int, a: int, b: int)
    requires 0 <= w0 < 7 && 1 <= a <= 31 && 1 <= b <= 31 && a != b
    ensures CellOf(w0, a) != CellOf(w0, b)
    ensures 0 <= CellOf(w0, a).col < 7
    ensures 1 <= CellOf(w0, a).row <= 6
  {
    var x := w0 + a - 1;
    var y := w0 + b - 1;
    assert x == 7 * (x / 7) + x % 7;
    assert y == 7 * (y / 7) + y % 7;
  }

  // ---------------------------------------------------------------------------
  // Toggling a day
  // ---------------------------------------------------------------------------

  /** Every month entry of the override file holds at least one day. */
  predicate NoEmptyMonths(o: Overrides) {
    forall k :: k in o ==> o[k] != map[]
  }

  /** The day map stored under the month key `month`, empty when there is none. */
  function MonthMap(o: Overrides, month: string): map<string, bool> {
    if month in o then o[month] else map[]
  }

  /**
   * The edit a toggle makes to the override file for the day stored as
   * `key` under `month`. Back at the default, an existing override is
   * deleted, and its month entry too once that is empty. Away from the
   * default, the override is written as `set_day_override` writes it.
   * Otherwise nothing changes.
   */
  function ToggleEntry(o: Overrides, month: string, key: string, included: bool, byDefault: bool): (r: Overrides)
    ensures key in MonthMap(r, month) <==> included != byDefault
    ensures key in MonthMap(r, month) ==> MonthMap(r, month)[key] == included
    ensures forall k :: k != key ==> (k in MonthMap(r, month) <==> k in MonthMap(o, month))
    ensures forall k :: k != key && k in MonthMap(o, month) ==> MonthMap(r, month)[k] == MonthMap(o, month)[k]
    ensures forall other :: other != month ==> MonthMap(r, other) == MonthMap(o, other)
    ensures NoEmptyMonths(o) ==> NoEmptyMonths(r)
  {
    if included == byDefault && key in MonthMap(o, month) then
      var days := o[month] - {key};
      if days == map[] then o - {month} else o[month := days]
    else if included != byDefault then
      o[month := MonthMap(o, month)[key := included]]
    else o
  }

  /** Repeating an edit changes nothing more. */
  lemma ToggleEntryIdempotent(o: Overrides, month: string, key: string, included: bool, byDefault: bool)
    ensures var r := ToggleEntry(o, month, key, included, byDefault);
      ToggleEntry(r, month, key, included, byDefault) == r
  {
    var r := ToggleEntry(o, month, key, included, byDefault);
    if included != byDefault {
      assert MonthMap(r, month)[key := included] == MonthMap(r, month);
      assert r[month := MonthMap(r, month)] == r;
    }
  }

  /**
   * Moving a day without an override away from its default and back again
   * restores the file exactly, when no month entry is empty.
   */
  lemma ToggleEntryRoundTrip(o: Overrides, month: string, key: string, byDefault: bool)
    requires NoEmptyMonths(o) && key !in MonthMap(o, month)
    ensures ToggleEntry(ToggleEntry(o, month, key, !byDefault, byDefault), month, key, byDefault, byDefault) == o
  {
    var before := MonthMap(o, month);
    var o1 := ToggleEntry(o, month, key, !byDefault, byDefault);
    assert o1 == o[month := before[key := !byDefault]];
    assert o1[month] - {key} == before;
    if month in o {
      assert o1[month := before] == o;
    } else {
      assert o1 - {month} == o;
    }
  }

  /** The month's map as `get_month_overrides` returns it is the map under its key. */
  lemma MonthOverridesMap(o: Overrides, d: Date)
    requires ValidDate(d)
    ensures GetMonthOverrides(o, d.year, d.month) == MonthMap(o, MonthKey(d.year, d.month))
  {
  }

  /**
   * `_on_day_toggle`: with no checkbox for the day nothing happens; otherwise
   * the checkbox state is compared with the default rule and the override
   * file edited as `ToggleEntry` describes.
   */
  function OnDayToggle(o: Overrides, s: Settings, vars: map<int, bool>, date: Date): (r: Overrides)
    requires ValidDate(date)
    ensures date.day !in vars ==> r == o
    ensures date.day in vars ==>
      (DateString(date) in GetMonthOverrides(r, date.year, date.month) <==> vars[date.day] != DefaultIncluded(s, date))
    ensures date.day in vars ==> IsDateIncluded(r, s, date) == vars[date.day]
    ensures NoEmptyMonths(o) ==> NoEmptyMonths(r)
  {
    if date.day !in vars then o
    else
      var r := ToggleEntry(o, MonthKey(date.year, date.month), DateString(date), vars[date.day], DefaultIncluded(s, date));
      MonthOverridesMap(r, date);
      r
  }

  /** Toggling a day changes the inclusion of no other day, in its month or any other. */
  lemma ToggleLocal(o: Overrides, s: Settings, vars: map<int, bool>, date: Date, other: Date)
    requires ValidDate(date) && ValidDate(other) && other != date
    ensures IsDateIncluded(OnDayToggle(o, s, vars, date), s, other) == IsDateIncluded(o, s, other)
  {
    var r := OnDayToggle(o, s, vars, date);
    MonthOverridesMap(r, other);
    MonthOverridesMap(o, other);
    if other.year == date.year && other.month == date.month {
      DayKeyInjective(date.year, date.month, date.day, other.day);
    } else {
      MonthKeyInjective(date, other);
    }
  }

  /** Repeating a toggle with the same checkbox state changes nothing more. */
  lemma ToggleIdempotent(o: Overrides, s: Settings, vars: map<int, bool>, date: Date)
    requires ValidDate(date)
    ensures OnDayToggle(OnDayToggle(o, s, vars, date), s, vars, date) == OnDayToggle(o, s, vars, date)
  {
    if date.day in vars {
      ToggleEntryIdempotent(o, MonthKey(date.year, date.month), DateString(date), vars[date.day], DefaultIncluded(s, date));
    }
  }

  /**
   * Ticking a day away from its default and back again restores the file
   * exactly, provided the day had no override and no month entry is empty.
   */
  lemma ToggleRoundTrip(o: Overrides, s: Settings, vars: map<int, bool>, date: Date)
    requires ValidDate(date) && NoEmptyMonths(o)
    requires DateString(date) !in GetMonthOverrides(o, date.year, date.month)
    ensures var away := vars[date.day := !DefaultIncluded(s, date)];
      var back := vars[date.day := DefaultIncluded(s, date)];
      OnDayToggle(OnDayToggle(o, s, away, date), s, back, date) == o
  {
    MonthOverridesMap(o, date);
    ToggleEntryRoundTrip(o, MonthKey(date.year, date.month), DateString(date), DefaultIncluded(s, date));
  }

  // ---------------------------------------------------------------------------
  // Preset buttons
  // ---------------------------------------------------------------------------

  /** The three preset buttons that write an override for every shown day. */
  datatype Preset = WeekdaysOnly | SelectAll | UnselectAll

  /** The state a preset gives a day. */
  function PresetValue(p: Preset, date: Date): bool
    requires ValidDate(date)
  {
    match p
    case WeekdaysOnly => Weekday(ToOrdinal(date)) < 5
    case SelectAll => true
    case UnselectAll => false
  }

  /** Days `day..last` of the month: each day with a checkbox gets the preset's state in its box. */
  function PresetVars(vars: map<int, bool>, p: Preset, y: nat, m: nat, day: int, last: int): (r: map<int, bool>)
    requires ValidMonth(y, m) && last == DaysInMonth(y, m) && 1 <= day <= last + 1
    ensures r.Keys == vars.Keys
    ensures forall d :: d in vars && day <= d <= last ==> r[d] == PresetValue(p, Date(y, m, d))
    ensures forall d :: d in vars && !(day <= d <= last) ==> r[d] == vars[d]
    decreases last - day
  {
    if day > last then vars
    else if day in vars then PresetVars(vars[day := PresetValue(p, Date(y, m, day))], p, y, m, day + 1, last)
    else PresetVars(vars, p, y, m, day + 1, last)
  }

  /** Days `day..last` of the month: each day with a checkbox gets the preset's state as an override. */
  function PresetOverrides(o: Overrides, boxes: set<int>, p: Preset, y: nat, m: nat, day: int, last: int): Overrides
    requires ValidMonth(y, m) && last == DaysInMonth(y, m) && 1 <= day <= last + 1
    decreases last - day
  {
    if day > last then o
    else PresetOverrides(PresetStep(o, boxes, p, y, m, day), boxes, p, y, m, day + 1, last)
  }

  /**
   * `_select_weekdays_only`, `_select_all_days`, `_unselect_all_days`: the
   * preset over every day of the month, in the boxes and as overrides;
   * `None` where computing the month length raises, before anything is
   * written.
   */
  function ApplyPreset(o: Overrides, vars: map<int, bool>, p: Preset, y: nat, m: nat): (r: Option<(Overrides, map<int, bool>)>)
    ensures r.Some? <==> LastDay(y, m).Some?
    ensures r.Some? ==> r.value.1.Keys == vars.Keys
    ensures r.Some? ==> forall d :: d in vars && 1 <= d <= DaysInMonth(y, m) ==> r.value.1[d] == PresetValue(p, Date(y, m, d))
  {
    match LastDay(y, m)
    case None => None
    case Some(last) => Some((PresetOverrides(o, vars.Keys, p, y, m, 1, last), PresetVars(vars, p, y, m, 1, last)))
  }

  /** What the preset loop does to the override file on day `day`. */
  function PresetStep(o: Overrides, boxes: set<int>, p: Preset, y: nat, m: nat, day: int): Overrides
    requires ValidMonth(y, m) && 1 <= day <= DaysInMonth(y, m)
  {
    if day in boxes then SetDayOverride(o, y, m, day, PresetValue(p, Date(y, m, day))) else o
  }

  /** One step of the preset loop leaves every other day's inclusion alone. */
  lemma PresetStepLocal(o: Overrides, s: Settings, boxes: set<int>, p: Preset, y: nat, m: nat, day: int, other: Date)
    requires ValidMonth(y, m) && 1 <= day <= DaysInMonth(y, m) && ValidDate(other)
    requires !(other.year == y && other.month == m && other.day == day && day in boxes)
    ensures IsDateIncluded(PresetStep(o, boxes, p, y, m, day), s, other) == IsDateIncluded(o, s, other)
  {
    if day in boxes {
      SetOverrideLocal(o, s, Date(y, m, day), other, PresetValue(p, Date(y, m, day)));
    }
  }

  /** A day a preset does not write keeps its inclusion. */
  lemma {:induction false} PresetLocal(o: Overrides, s: Settings, boxes: set<int>, p: Preset, y: nat, m: nat, day: int, last: int, other: Date)
    requires ValidMonth(y, m) && last == DaysInMonth(y, m) && 1 <= day <= last + 1
    requires ValidDate(other)
    requires !(other.year == y && other.month == m && day <= other.day <= last && other.day in boxes)
    ensures IsDateIncluded(PresetOverrides(o, boxes, p, y, m, day, last), s, other) == IsDateIncluded(o, s, other)
    decreases last - day
  {
    if day <= last {
      var o1 := PresetStep(o, boxes, p, y, m, day);
      var rest := PresetOverrides(o1, boxes, p, y, m, day + 1, last);
      assert PresetOverrides(o, boxes, p, y, m, day, last) == rest;
      assert IsDateIncluded(o1, s, other) == IsDateIncluded(o, s, other) by {
        PresetStepLocal(o, s, boxes, p, y, m, day, other);
      }
      assert IsDateIncluded(rest, s, other) == IsDateIncluded(o1, s, other) by {
        PresetLocal(o1, s, boxes, p, y, m, day + 1, last, other);
      }
    }
  }

  /** The day the loop is on reads as the preset's state once the loop is done. */
  lemma PresetDecidesHere(o: Overrides, s: Settings, boxes: set<int>, p: Preset, y: nat, m: nat, day: int, last: int)
    requires ValidMonth(y, m) && last == DaysInMonth(y, m) && 1 <= day <= last && day in boxes
    ensures IsDateIncluded(PresetOverrides(PresetStep(o, boxes, p, y, m, day), boxes, p, y, m, day + 1, last), s, Date(y, m, day))
      == PresetValue(p, Date(y, m, day))
  {
    var date := Date(y, m, day);
    var o1 := PresetStep(o, boxes, p, y, m, day);
    assert IsDateIncluded(o1, s, date) == PresetValue(p, date) by {
      SetOverrideDecides(o, s, date, PresetValue(p, date));
    }
    PresetLocal(o1, s, boxes, p, y, m, day + 1, last, date);
  }

  /** Every day with a checkbox reads as the preset's state afterwards. */
  lemma {:induction false} PresetDecides(o: Overrides, s: Settings, boxes: set<int>, p: Preset, y: nat, m: nat, day: int, last: int, d: int)
    requires ValidMonth(y, m) && last == DaysInMonth(y, m) && 1 <= day <= d <= last && d in boxes
    ensures IsDateIncluded(PresetOverrides(o, boxes, p, y, m, day, last), s, Date(y, m, d)) == PresetValue(p, Date(y, m, d))
    decreases last - day
  {
    var date := Date(y, m, d);
    assert ValidDate(date);
    var o1 := PresetStep(o, boxes, p, y, m, day);
    var after := PresetOverrides(o1, boxes, p, y, m, day + 1, last);
    assert PresetOverrides(o, boxes, p, y, m, day, last) == after by {
      PresetUnfold(o, boxes, p, y, m, day, last);
    }
    if d == day {
      PresetDecidesHere(o, s, boxes, p, y, m, day, last);
    } else {
      PresetDecides(o1, s, boxes, p, y, m, day + 1, last, d);
    }
    assert IsDateIncluded(after, s, date) == PresetValue(p, date);
  }

  /** The preset loop over days `day..last` is one step on `day`, then the loop over the rest. */
  lemma PresetUnfold(o: Overrides, boxes: set<int>, p: Preset, y: nat, m: nat, day: int, last: int)
    requires ValidMonth(y, m) && last == DaysInMonth(y, m) && 1 <= day <= last
    ensures PresetOverrides(o, boxes, p, y, m, day, last)
         == PresetOverrides(PresetStep(o, boxes, p, y, m, day), boxes, p, y, m, day + 1, last)
  {
  }

  /**
   * `_reset_weekend_exclusion`: the month's overrides are cleared and the
   * grid rebuilt, so every checkbox shows the default rule.
   */
  method ResetWeekendExclusion(o: Overrides, s: Settings, y: nat, m: nat) returns (r: Overrides, g: Option<Grid>)
    ensures MonthKey(y, m) !in r
    ensures forall k :: k != MonthKey(y, m) ==> (k in r <==> k in o) && (k in r ==> r[k] == o[k])
    ensures g.Some? <==> LastDay(y, m).Some?
    ensures g.Some? ==> forall d :: 1 <= d <= DaysInMonth(y, m) ==> d in g.value.vars && g.value.vars[d] == DefaultIncluded(s, Date(y, m, d))
  {
    r := ClearMonthOverrides(o, y, m);
    g := BuildGrid(r, s, y, m);
    if g.Some? {
      forall d | 1 <= d <= DaysInMonth(y, m)
        ensures g.value.vars[d] == DefaultIncluded(s, Date(y, m, d))
      {
        ClearRestoresDefault(o, s, Date(y, m, d));
      }
    }
  }

  // ---------------------------------------------------------------------------
  // Achievement counts
  // ---------------------------------------------------------------------------

  /** Python's ordering of `date` values: by year, then month, then day. */
  predicate DateLe(a: Date, b: Date) {
    a.year < b.year || (a.year == b.year && (a.month < b.month || (a.month == b.month && a.day <= b.day)))
  }

  /** `strptime(get_task_created_date(task), "%Y-%m-%d").date()`; `None` where it raises. */
  function CreatedOn(task: Task, logs: seq<LogEntry>, today: Date): (r: Option<Date>)
    requires ValidDate(today)
    ensures r.Some? ==> ValidDate(r.value)
  {
    match Parse(DashDate, CreatedDate(task, logs, today))
    case None => None
    case Some(st) => Some(st.date)
  }

  /** The creation dates of the tasks, in order; the same on every day of the loop. */
  function CreatedDates(tasks: seq<Task>, logs: seq<LogEntry>, today: Date): (r: seq<Option<Date>>)
    requires ValidDate(today)
    ensures |r| == |tasks|
    ensures forall k :: 0 <= k < |tasks| ==> r[k] == CreatedOn(tasks[k], logs, today)
  {
    seq(|tasks|, k requires 0 <= k < |tasks| => CreatedOn(tasks[k], logs, today))
  }

  /** A task counts on `date` when it was created on or before it and the date is not after today. */
  predicate Active(created: Date, date: Date, today: Date) {
    DateLe(created, date) && DateLe(date, today)
  }

  /** `sum(len(t["task_names"]) for t in tasks)` */
  function NameCount(tasks: seq<Task>): (n: nat) {
    if |tasks| == 0 then 0 else |tasks[0].names| + NameCount(tasks[1..])
  }

  /**
   * The number of sub-items due on an included day: the names of every task
   * active on it, given each task's creation date. Every creation date is
   * parsed, so one that does not parse makes the tab raise (`None`).
   */
  function DailyTotal(tasks: seq<Task>, created: seq<Option<Date>>, today: Date, date: Date): (r: Option<int>)
    requires |created| == |tasks|
    ensures r.None? <==> exists k :: 0 <= k < |created| && created[k].None?
    ensures r.Some? ==> 0 <= r.value <= NameCount(tasks)
  {
    if |tasks| == 0 then Some(0)
    else
      var rest := DailyTotal(tasks[1..], created[1..], today, date);
      assert forall k :: 1 <= k < |created| ==> created[1..][k - 1] == created[k];
      if created[0].None? || rest.None? then None
      else Some((if Active(created[0].value, date, today) then |tasks[0].names| else 0) + rest.value)
  }

  /** A day after today has nothing due. */
  lemma {:induction false} FutureDayEmpty(tasks: seq<Task>, created: seq<Option<Date>>, today: Date, date: Date)
    requires |created| == |tasks| && !DateLe(date, today)
    requires DailyTotal(tasks, created, today, date).Some?
    ensures DailyTotal(tasks, created, today, date) == Some(0)
  {
    if |tasks| > 0 {
      FutureDayEmpty(tasks[1..], created[1..], today, date);
    }
  }

  /** When every task is active on the day, all their names are due. */
  lemma {:induction false} AllActiveTotal(tasks: seq<Task>, created: seq<Option<Date>>, today: Date, date: Date)
    requires |created| == |tasks|
    requires forall k :: 0 <= k < |created| ==> created[k].Some? && Active(created[k].value, date, today)
    ensures DailyTotal(tasks, created, today, date) == Some(NameCount(tasks))
  {
    if |tasks| > 0 {
      assert forall k :: 1 <= k < |created| ==> created[1..][k - 1] == created[k];
      AllActiveTotal(tasks[1..], created[1..], today, date);
    }
  }

  /** The logs `len([log for log in day_logs if log["completed"]])` counts: completed ones dated `key`. */
  function CompletedOn(key: string): LogEntry -> bool {
    (e: LogEntry) => e.date == key && e.completed
  }

  /** The completed logs of the day, whatever their task. */
  function DayCompleted(monthLogs: seq<LogEntry>, date: Date): nat
    requires ValidDate(date)
  {
    Count(monthLogs, CompletedOn(DateString(date)))
  }

  /** A completed log dated that day adds one, even when its task id belongs to no task. */
  lemma CompletedCountsEveryTask(monthLogs: seq<LogEntry>, date: Date, e: LogEntry)
    requires ValidDate(date) && e.date == DateString(date) && e.completed
    ensures DayCompleted(monthLogs + [e], date) == DayCompleted(monthLogs, date) + 1
  {
    CountSnoc(monthLogs, e, CompletedOn(DateString(date)));
  }

  /** The counts behind one day of the achievement tab. */
  datatype DayStats = DayStats(total: int, completed: int)

  /**
   * One day of `_update_achievement_tab`, over the enabled tasks and the
   * month's logs: an excluded day counts nothing; an included day counts
   * the names of the tasks active on it and every completed log of that date.
   */
  function DayStatsOf(o: Overrides, s: Settings, tasks: seq<Task>, created: seq<Option<Date>>, monthLogs: seq<LogEntry>, today: Date, date: Date): (r: Option<DayStats>)
    requires ValidDate(date) && |created| == |tasks|
    ensures !IsDateIncluded(o, s, date) ==> r == Some(DayStats(0, 0))
    ensures IsDateIncluded(o, s, date) ==> (r.None? <==> exists k :: 0 <= k < |created| && created[k].None?)
    ensures r.Some? ==> 0 <= r.value.total <= NameCount(tasks) && 0 <= r.value.completed
    ensures r.Some? && IsDateIncluded(o, s, date) ==> r.value.completed == DayCompleted(monthLogs, date)
  {
    if !IsDateIncluded(o, s, date) then Some(DayStats(0, 0))
    else
      var total := DailyTotal(tasks, created, today, date);
      if total.None? then None
      else Some(DayStats(total.value, DayCompleted(monthLogs, date)))
  }

  /** `f(day), ..., f(last)` in order, or `None` where any of them is `None`. */
  function Collect<T>(f: int -> Option<T>, day: int, last: int): (r: Option<seq<T>>)
    requires day <= last + 1
    ensures r.Some? ==> |r.value| == last + 1 - day
    decreases last - day
  {
    if day > last then Some([])
    else
      var first := f(day);
      var rest := Collect(f, day + 1, last);
      if first.None? || rest.None? then None
      else Some([first.value] + rest.value)
  }

  /** Entry `k` of a collection is the value at `day + k`. */
  lemma {:induction false} CollectAt<T>(f: int -> Option<T>, day: int, last: int, k: int)
    requires day <= last + 1 && Collect(f, day, last).Some? && 0 <= k <= last - day
    ensures f(day + k) == Some(Collect(f, day, last).value[k])
    decreases last - day
  {
    var rest := Collect(f, day + 1, last);
    if k > 0 {
      CollectAt(f, day + 1, last, k - 1);
      assert Collect(f, day, last).value[k] == rest.value[k - 1];
      assert day + k == (day + 1) + (k - 1);
    }
  }

  /** A collection fails only where one of its values is `None`. */
  lemma {:induction false} CollectFails<T>(f: int -> Option<T>, day: int, last: int)
    requires day <= last + 1 && Collect(f, day, last).None?
    ensures exists d :: day <= d <= last && f(d).None?
    decreases last - day
  {
    if f(day).Some? {
      CollectFails(f, day + 1, last);
    }
  }

  /** The counts of each day of month `m` of year `y`. */
  function DayCounts(o: Overrides, s: Settings, tasks: seq<Task>, created: seq<Option<Date>>, monthLogs: seq<LogEntry>, today: Date, y: nat, m: nat): int -> Option<DayStats>
    requires ValidMonth(y, m) && |created| == |tasks|
  {
    d => if 1 <= d <= DaysInMonth(y, m) then DayStatsOf(o, s, tasks, created, monthLogs, today, Date(y, m, d)) else None
  }

  /** The month's totals: the sums of the daily counts. */
  function MonthTotals(days: seq<DayStats>): (r: DayStats)
    ensures (forall k :: 0 <= k < |days| ==> days[k].total >= 0) ==> r.total >= 0
  {
    if |days| == 0 then DayStats(0, 0)
    else
      var rest := MonthTotals(days[1..]);
      assert forall k :: 1 <= k < |days| ==> days[1..][k - 1] == days[k];
      DayStats(days[0].total + rest.total, days[0].completed + rest.completed)
  }

  /** The month has nothing due exactly when none of its days has, so its rate shows as 0. */
  lemma {:induction false} MonthEmptyIffDaysEmpty(days: seq<DayStats>)
    requires forall k :: 0 <= k < |days| ==> days[k].total >= 0
    ensures MonthTotals(days).total == 0 <==> forall k :: 0 <= k < |days| ==> days[k].total == 0
  {
    if |days| > 0 {
      assert forall k :: 1 <= k < |days| ==> days[1..][k - 1] == days[k];
      MonthEmptyIffDaysEmpty(days[1..]);
    }
  }

  /**
   * `_update_achievement_tab`: the daily counts of the month and their sums,
   * over the enabled tasks and the month's logs; `None` where the tab
   * raises, because of the month length or an unparsable creation date.
   */
  function Achievement(o: Overrides, s: Settings, tasks: seq<Task>, logs: seq<LogEntry>, today: Date, y: nat, m: nat): (r: Option<(seq<DayStats>, DayStats)>)
    requires ValidDate(today)
    ensures LastDay(y, m).None? ==> r.None?
    ensures r.Some? ==> |r.value.0| == DaysInMonth(y, m) && r.value.1 == MonthTotals(r.value.0)
  {
    match LastDay(y, m)
    case None => None
    case Some(last) =>
      var enabled := Filter(tasks, Enabled);
      match Collect(DayCounts(o, s, enabled, CreatedDates(enabled, logs, today), LogsByMonth(logs, y, m), today, y, m), 1, last)
      case None => None
      case Some(days) => Some((days, MonthTotals(days)))
  }

  /** Row `d` of the tab holds the counts of day `d` of the month. */
  lemma AchievementDay(o: Overrides, s: Settings, tasks: seq<Task>, logs: seq<LogEntry>, today: Date, y: nat, m: nat, d: int)
    requires ValidDate(today) && Achievement(o, s, tasks, logs, today, y, m).Some? && 1 <= d <= DaysInMonth(y, m)
    ensures ValidMonth(y, m)
    ensures DayStatsOf(o, s, Filter(tasks, Enabled), CreatedDates(Filter(tasks, Enabled), logs, today), LogsByMonth(logs, y, m), today, Date(y, m, d))
      == Some(Achievement(o, s, tasks, logs, today, y, m).value.0[d - 1])
  {
    var enabled := Filter(tasks, Enabled);
    var created := CreatedDates(enabled, logs, today);
    var monthLogs := LogsByMonth(logs, y, m);
    var last := DaysInMonth(y, m);
    var f := DayCounts(o, s, enabled, created, monthLogs, today, y, m);
    assert LastDay(y, m) == Some(last);
    var days := Collect(f, 1, last);
    assert Achievement(o, s, tasks, logs, today, y, m).value.0 == days.value;
    assert f(d) == Some(days.value[d - 1]) by {
      CollectAt(f, 1, last, d - 1);
    }
    assert f(d) == DayStatsOf(o, s, enabled, created, monthLogs, today, Date(y, m, d));
  }

  /** The tab raises, for a month that has a last day, only at a day whose counts raise. */
  lemma AchievementFails(o: Overrides, s: Settings, tasks: seq<Task>, logs: seq<LogEntry>, today: Date, y: nat, m: nat)
    requires ValidDate(today) && LastDay(y, m).Some?
    requires Achievement(o, s, tasks, logs, today, y, m).None?
    ensures exists d :: (1 <= d <= DaysInMonth(y, m) &&
      DayStatsOf(o, s, Filter(tasks, Enabled), CreatedDates(Filter(tasks, Enabled), logs, today), LogsByMonth(logs, y, m), today, Date(y, m, d)).None?)
  {
    var enabled := Filter(tasks, Enabled);
    var created := CreatedDates(enabled, logs, today);
    var monthLogs := LogsByMonth(logs, y, m);
    var f := DayCounts(o, s, enabled, created, monthLogs, today, y, m);
    CollectFails(f, 1, DaysInMonth(y, m));
    var d :| 1 <= d <= DaysInMonth(y, m) && f(d).None?;
    assert DayStatsOf(o, s, enabled, created, monthLogs, today, Date(y, m, d)).None?;
  }

  /** The status mark of a day. */
  datatype Status = NoTasks | Done | Partial | Missed

  /** `completed / total * 100 >= pct`, by cross-multiplication. */
  predicate RateAtLeast(st: DayStats, pct: int) {
    st.completed * 100 >= pct * st.total
  }

  /**
   * The mark beside a day: `-` with nothing due, a tick at a rate of exactly
   * 100%, a triangle at 50% or more, a cross below.
   */
  function StatusOf(st: DayStats): (r: Status)
    ensures r == NoTasks <==> st.total <= 0
  {
    if st.total <= 0 then NoTasks
    else if st.completed * 100 == 100 * st.total then Done
    else if RateAtLeast(st, 50) then Partial
    else Missed
  }

  function Rank(s: Status): int {
    match s
    case NoTasks => 0
    case Missed => 1
    case Partial => 2
    case Done => 3
  }

  /** Up to the day's total, more completions never lower the mark. */
  lemma StatusMonotone(t: int, a: int, b: int)
    requires t > 0 && 0 <= a <= b <= t
    ensures Rank(StatusOf(DayStats(t, a))) <= Rank(StatusOf(DayStats(t, b)))
  {
  }

  /** The marks partition the rate: a tick exactly when everything is done, a cross exactly below half. */
  lemma StatusMeaning(st: DayStats)
    requires st.total > 0
    ensures StatusOf(st) == Done <==> st.completed == st.total
    ensures StatusOf(st) == Missed <==> 2 * st.completed < st.total
  {
  }

  /** Completions from other tasks can exceed the day's total, and then the tick turns into a triangle. */
  lemma OverCompletionShowsPartial(st: DayStats)
    requires 0 < st.total < st.completed
    ensures StatusOf(st) == Partial
  {
  }

  // ---------------------------------------------------------------------------
  // Failure graph
  // ---------------------------------------------------------------------------

  /** The logs the graph counts for one task: completed ones dated `key` with the task's id. */
  function CompletedBy(key: string, id: string): LogEntry -> bool {
    (e: LogEntry) => e.date == key && e.taskId == id && e.completed
  }

  /** The graph's counts for a month: sub-items due and sub-items failed. */
  datatype Failures = Failures(total: int, failed: int)

  /**
   * One day of `_update_graph_tab`: each task active on an included day adds
   * its names to the total, and its names minus its completed logs of the
   * day to the failed count.
   */
  function DayFailures(o: Overrides, s: Settings, tasks: seq<Task>, created: seq<Option<Date>>, monthLogs: seq<LogEntry>, today: Date, date: Date): (r: Option<Failures>)
    requires ValidDate(date) && |created| == |tasks|
    ensures r.None? <==> exists k :: 0 <= k < |created| && created[k].None?
    ensures r.Some? ==> 0 <= r.value.total <= NameCount(tasks) && r.value.failed <= r.value.total
    ensures r.Some? && !IsDateIncluded(o, s, date) ==> r.value == Failures(0, 0)
  {
    if |tasks| == 0 then Some(Failures(0, 0))
    else
      var rest := DayFailures(o, s, tasks[1..], created[1..], monthLogs, today, date);
      assert forall k :: 1 <= k < |created| ==> created[1..][k - 1] == created[k];
      if created[0].None? || rest.None? then None
      else if Active(created[0].value, date, today) && IsDateIncluded(o, s, date) then
        var n := |tasks[0].names|;
        var done := Count(monthLogs, CompletedBy(DateString(date), tasks[0].id));
        Some(Failures(n + rest.value.total, n - done + rest.value.failed))
      else rest
  }

  /**
   * One task active and included on the day counts its names as due and
   * loses one per completed log of its id, so a task logged complete more
   * often than it has names drives the failed count below zero.
   */
  lemma FailedCanBeNegative(o: Overrides, s: Settings, task: Task, created: Date, monthLogs: seq<LogEntry>, today: Date, date: Date)
    requires ValidDate(date) && IsDateIncluded(o, s, date) && Active(created, date, today)
    ensures DayFailures(o, s, [task], [Some(created)], monthLogs, today, date)
      == Some(Failures(|task.names|, |task.names| - Count(monthLogs, CompletedBy(DateString(date), task.id))))
    ensures Count(monthLogs, CompletedBy(DateString(date), task.id)) > |task.names| ==>
      DayFailures(o, s, [task], [Some(created)], monthLogs, today, date).value.failed < 0
  {
    assert DayFailures(o, s, [task][1..], [Some(created)][1..], monthLogs, today, date) == Some(Failures(0, 0)) by {
      assert [task][1..] == [] && [Some(created)][1..] == [];
    }
    assert [task][0] == task;
  }

  /** Days `day..last` of one month of the graph, summed. */
  function MonthFailuresFrom(o: Overrides, s: Settings, tasks: seq<Task>, created: seq<Option<Date>>, monthLogs: seq<LogEntry>, today: Date, y: nat, m: nat, day: int, last: int): (r: Option<Failures>)
    requires ValidMonth(y, m) && last == DaysInMonth(y, m) && 1 <= day <= last + 1 && |created| == |tasks|
    ensures day <= last ==> (r.None? <==> exists k :: 0 <= k < |created| && created[k].None?)
    ensures r.Some? ==> 0 <= r.value.total && r.value.failed <= r.value.total
    decreases last - day
  {
    if day > last then Some(Failures(0, 0))
    else
      var first := DayFailures(o, s, tasks, created, monthLogs, today, Date(y, m, day));
      var rest := MonthFailuresFrom(o, s, tasks, created, monthLogs, today, y, m, day + 1, last);
      if first.None? || rest.None? then None
      else Some(Failures(first.value.total + rest.value.total, first.value.failed + rest.value.failed))
  }

  /** One month of `_update_graph_tab`, over the enabled tasks and the month's logs; `None` where it raises. */
  function MonthFailures(o: Overrides, s: Settings, tasks: seq<Task>, logs: seq<LogEntry>, today: Date, y: nat, m: nat): (r: Option<Failures>)
    requires ValidDate(today)
    ensures LastDay(y, m).Some? ==>
      (r.None? <==> exists k :: 0 <= k < |Filter(tasks, Enabled)| && CreatedOn(Filter(tasks, Enabled)[k], logs, today).None?)
    ensures r.Some? ==> 0 <= r.value.total && r.value.failed <= r.value.total
  {
    match LastDay(y, m)
    case None => None
    case Some(last) =>
      var enabled := Filter(tasks, Enabled);
      MonthFailuresFrom(o, s, enabled, CreatedDates(enabled, logs, today), LogsByMonth(logs, y, m), today, y, m, 1, last)
  }

  // ---------------------------------------------------------------------------
  // The months the graph shows
  // ---------------------------------------------------------------------------

  /** A (year, month) pair numbered consecutively: January of year 0 is 0. */
  function MonthIndex(ym: (int, int)): int {
    ym.0 * 12 + ym.1 - 1
  }

  /** The pair with month number `i`. */
  function MonthAt(i: nat): (ym: (int, int))
    ensures MonthIndex(ym) == i && 1 <= ym.1 <= 12 && ym.0 == i / 12
  {
    (i / 12, i % 12 + 1)
  }

  /** The (year, month) of a day ordinal. */
  function MonthOfOrdinal(n: int): (int, int)
    requires 1 <= n <= MaxOrdinal
  {
    var d := FromOrdinal(n);
    (d.year, d.month)
  }

  /** The ordinal of a date lies in that date's month. */
  lemma MonthOfDate(d: Date, n: int)
    requires ValidDate(d) && n == ToOrdinal(d)
    ensures 1 <= n <= MaxOrdinal && MonthOfOrdinal(n) == (d.year, d.month)
  {
    FromToOrdinal(d);
  }

  /**
   * The month `_update_graph_tab` as written draws at step `i` (0 for the
   * rightmost point, 11 for the leftmost), given the ordinal `day` of the
   * current date: the month of that day minus `30 * i` days. `None` where
   * the subtraction leaves the `datetime` range.
   */
  function GraphMonthAsWritten(day: int, i: int): (r: Option<(int, int)>)
    requires 1 <= day <= MaxOrdinal && 0 <= i < 12
    ensures r.Some? <==> day - 30 * i >= 1
    ensures r.Some? ==> r.value == MonthOfOrdinal(day - 30 * i)
  {
    if day - 30 * i < 1 then None else Some(MonthOfOrdinal(day - 30 * i))
  }

  /** A step that lands on date `d` draws the month of `d`. */
  lemma StepLandsIn(day: int, i: int, d: Date)
    requires 1 <= day <= MaxOrdinal && 0 <= i < 12
    requires ValidDate(d) && day - 30 * i == ToOrdinal(d)
    ensures GraphMonthAsWritten(day, i) == Some((d.year, d.month))
  {
    MonthOfDate(d, day - 30 * i);
  }

  /** The ordinals of the 31st of March and of the days 30 and 60 days before it. */
  lemma MarchOrdinals(y: int, n: int)
    requires MinYear <= y <= MaxYear && n == ToOrdinal(Date(y, 3, 31))
    ensures 1 <= n <= MaxOrdinal
    ensures n - 30 == ToOrdinal(Date(y, 3, 1))
    ensures ValidDate(Date(y, 1, DaysInMonth(y, 2) + 2))
    ensures n - 60 == ToOrdinal(Date(y, 1, DaysInMonth(y, 2) + 2))
  {
    var feb := DaysInMonth(y, 2);
    assert DaysBeforeMonth(y, 1) == 0;
    assert DaysBeforeMonth(y, 2) == 31 by { assert DaysInMonth(y, 1) == 31; }
    assert DaysBeforeMonth(y, 3) == 31 + feb;
    MonthOfDate(Date(y, 3, 31), n);
  }

  /**
   * On the 31st of March of any year (ordinal `n`), steps 0 and 1 both draw
   * March and step 2 draws January.
   */
  lemma GraphMonthsSkipFebruary(y: int, n: int)
    requires MinYear <= y <= MaxYear && n == ToOrdinal(Date(y, 3, 31))
    ensures 1 <= n <= MaxOrdinal
    ensures GraphMonthAsWritten(n, 0) == Some((y, 3))
    ensures GraphMonthAsWritten(n, 1) == Some((y, 3))
    ensures GraphMonthAsWritten(n, 2) == Some((y, 1))
  {
    MarchOrdinals(y, n);
    StepLandsIn(n, 0, Date(y, 3, 31));
    StepLandsIn(n, 1, Date(y, 3, 1));
    StepLandsIn(n, 2, Date(y, 1, DaysInMonth(y, 2) + 2));
  }

  /** The steps further back reach no month after January, so February is missing from the graph. */
  lemma GraphMonthsBeforeJanuary(y: int, n: int, i: int)
    requires MinYear <= y <= MaxYear && n == ToOrdinal(Date(y, 3, 31)) && 2 <= i < 12
    ensures 1 <= n <= MaxOrdinal
    ensures var r := GraphMonthAsWritten(n, i);
      r.Some? ==> MonthIndex(r.value) <= MonthIndex((y, 1))
  {
    MarchEndInJanuary(y, n);
    StepNotAfter(n, i, n - 60);
  }

  /** Sixty days before the 31st of March is a day in January. */
  lemma MarchEndInJanuary(y: int, n: int)
    requires MinYear <= y <= MaxYear && n == ToOrdinal(Date(y, 3, 31))
    ensures 61 <= n <= MaxOrdinal && MonthOfOrdinal(n - 60) == (y, 1)
  {
    MarchOrdinals(y, n);
    MonthOfDate(Date(y, 1, DaysInMonth(y, 2) + 2), n - 60);
  }

  /** A step that lands on or before day `b` draws no month after the month of `b`. */
  lemma StepNotAfter(day: int, i: int, b: int)
    requires 1 <= b <= day <= MaxOrdinal && 0 <= i < 12 && day - 30 * i <= b
    ensures var r := GraphMonthAsWritten(day, i);
      r.Some? ==> MonthIndex(r.value) <= MonthIndex(MonthOfOrdinal(b))
  {
    if day - 30 * i >= 1 {
      OrdinalMonthMonotone(day - 30 * i, b);
    }
  }

  /** Later days never fall in earlier months. */
  lemma OrdinalMonthMonotone(a: int, b: int)
    requires 1 <= a <= b <= MaxOrdinal
    ensures MonthIndex(MonthOfOrdinal(a)) <= MonthIndex(MonthOfOrdinal(b))
  {
    var da := FromOrdinal(a);
    var db := FromOrdinal(b);
    if MonthIndex((db.year, db.month)) < MonthIndex((da.year, da.month)) {
      MonthStartOrdinal(da);
      MonthStartOrdinal(db);
      OrdinalsOfMonths(db, da);
      assert false;
    }
  }

  /** A date's ordinal lies within its month. */
  lemma MonthStartOrdinal(d: Date)
    requires ValidDate(d)
    ensures ToOrdinal(Date(d.year, d.month, 1)) <= ToOrdinal(d) <= ToOrdinal(Date(d.year, d.month, 1)) + DaysInMonth(d.year, d.month) - 1
  {
  }

  /** Every day of an earlier month comes before the first of a later month. */
  lemma OrdinalsOfMonths(a: Date, b: Date)
    requires ValidDate(a) && ValidDate(b)
    requires MonthIndex((a.year, a.month)) < MonthIndex((b.year, b.month))
    ensures ToOrdinal(a) < ToOrdinal(Date(b.year, b.month, 1))
  {
    if a.year == b.year {
      DaysBeforeMonthMono(a.year, a.month, b.month);
    } else {
      OrdinalWithinYear(a);
      DaysBeforeYearMono(a.year, b.year);
      DaysBeforeYearStep(a.year);
    }
  }

  /**
   * The month the graph evidently means at step `i`: the calendar month `i`
   * months before the month of `today`. `None` before January of year 1.
   */
  function GraphMonth(today: Date, i: int): (r: Option<(int, int)>)
    requires ValidDate(today) && 0 <= i < 12
    ensures r.Some? <==> MonthIndex((today.year, today.month)) - i >= 12
    ensures r.Some? ==> MonthIndex(r.value) == MonthIndex((today.year, today.month)) - i
    ensures r.Some? ==> ValidMonth(r.value.0, r.value.1)
  {
    var k := MonthIndex((today.year, today.month)) - i;
    if k < 12 then None else Some(MonthAt(k))
  }

  /** Distinct steps draw distinct months, and steps `j - i` apart draw months `j - i` apart. */
  lemma GraphMonthsConsecutive(today: Date, i: int, j: int)
    requires ValidDate(today) && 0 <= i < j < 12
    requires GraphMonth(today, i).Some? && GraphMonth(today, j).Some?
    ensures GraphMonth(today, i) != GraphMonth(today, j)
    ensures MonthIndex(GraphMonth(today, j).value) == MonthIndex(GraphMonth(today, i).value) - (j - i)
  {
  }

  /** On the 31st of March the corrected steps 0, 1 and 2 draw March, February and January. */
  lemma GraphMonthsMarch(y: int)
    requires MinYear <= y <= MaxYear
    ensures GraphMonth(Date(y, 3, 31), 0) == Some((y, 3))
    ensures GraphMonth(Date(y, 3, 31), 1) == Some((y, 2))
    ensures GraphMonth(Date(y, 3, 31), 2) == Some((y, 1))
  {
    var today := Date(y, 3, 31);
    assert ValidDate(today);
    GraphMonthsSameYear(today, 0);
    GraphMonthsSameYear(today, 1);
    GraphMonthsSameYear(today, 2);
  }

  /** Within the current year, step `i` draws the month `i` before this one. */
  lemma GraphMonthsSameYear(today: Date, i: int)
    requires ValidDate(today) && 0 <= i < today.month
    ensures GraphMonth(today, i) == Some((today.year, today.month - i))
  {
    MonthAtYear(today.year, today.month - 1 - i);
  }

  /** Month number `12 * y + r` is month `r + 1` of year `y`. */
  lemma MonthAtYear(y: int, r: int)
    requires y >= 1 && 0 <= r < 12
    ensures MonthAt(y * 12 + r) == (y, r + 1)
  {
    DivMod(y, r, 12);
  }
}
