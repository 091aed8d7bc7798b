/**
 * The roadmap generator: plan items are sorted into the core and stretch
 * lists, each rendered as a Markdown checklist line, and both lists drawn
 * as a Mermaid Gantt chart whose title names the latest end date. Only the
 * text is modelled; reading the plan and writing the file are not.
 */
module Roadmap {
  import opened Wrappers
  import opened Text
  import opened Calendar
  import opened Strptime
  import opened Seqs

  /**
   * One plan item. Each text field is absent when the key is missing; the
   * dependency list defaults to empty.
   */
  datatype Item = Item(
    title: Option<string>,
    status: Option<string>,
    category: Option<string>,
    startDate: Option<string>,
    endDate: Option<string>,
    actualStartDate: Option<string>,
    actualEndDate: Option<string>,
    summary: Option<string>,
    detailMarkdown: Option<string>,
    reportMarkdown: Option<string>,
    deps: seq<string>,
    targetCoverage: Option<string>,
    progressPerc: Option<int>)

  /** Python truthiness of an optional text: present and non-empty. */
  predicate Truthy(s: Option<string>) {
    s.Some? && s.value != ""
  }

  /** `item.get("status") == "completed"` */
  predicate IsCompleted(item: Item) {
    item.status == Some("completed")
  }

  // ---------------------------------------------------------------------------
  // Duration
  // ---------------------------------------------------------------------------

  /**
   * `calculate_duration`: the number of days from start to end, both
   * included, at least 1; 1 when either text is not a `%Y-%m-%d` date.
   */
  function Duration(start: string, end: string): (r: int)
    ensures r >= 1
    ensures Parse(DashDate, start).Some? && Parse(DashDate, end).Some? ==>
      var days := ToOrdinal(Parse(DashDate, end).value.date) - ToOrdinal(Parse(DashDate, start).value.date) + 1;
      r == (if days > 1 then days else 1)
    ensures Parse(DashDate, start).None? || Parse(DashDate, end).None? ==> r == 1
  {
    match (Parse(DashDate, start), Parse(DashDate, end))
    case (Some(s), Some(e)) =>
      var days := ToOrdinal(e.date) - ToOrdinal(s.date) + 1;
      if days > 1 then days else 1
    case _ => 1
  }

  /** Between two dates written as `YYYY-MM-DD`, an end on or after the start counts both days and everything between. */
  lemma DurationOfDates(start: Date, end: Date)
    requires ValidDate(start) && ValidDate(end) && ToOrdinal(start) <= ToOrdinal(end)
    ensures Duration(DateString(start), DateString(end)) == ToOrdinal(end) - ToOrdinal(start) + 1
  {
    ParseDateString(start);
    ParseDateString(end);
  }

  /** An end before the start still gives one day. */
  lemma DurationBackwards(start: Date, end: Date)
    requires ValidDate(start) && ValidDate(end) && ToOrdinal(end) < ToOrdinal(start)
    ensures Duration(DateString(start), DateString(end)) == 1
  {
    ParseDateString(start);
    ParseDateString(end);
  }

  /** `f"{duration:.1f}"` of a whole number of days: its decimal digits and `.0`. */
  function DurationText(days: int): (r: string)
    requires days >= 1
    ensures |r| >= 3 && r[|r| - 2..] == ".0"
    ensures AllDigits(r[..|r| - 2]) && DigitsValue(r[..|r| - 2]) == days
  {
    var digits := NatToString(days);
    assert (digits + ".0")[..|digits|] == digits;
    digits + ".0"
  }

  // ---------------------------------------------------------------------------
  // Categories
  // ---------------------------------------------------------------------------

  /** Where an item goes. */
  datatype Placement = CoreBucket | StretchBucket | LeftOut

  /** The rule used when an item has no category of its own. */
  function StatusBucket(item: Item): (b: Placement)
    ensures IsCompleted(item) ==> b == CoreBucket
    ensures !IsCompleted(item) && Truthy(item.startDate) ==> b == CoreBucket
    ensures !IsCompleted(item) && !Truthy(item.startDate) ==> (b == StretchBucket <==> item.status.GetOr("pending") == "pending")
  {
    var status := item.status.GetOr("pending");
    if status == "completed" then CoreBucket
    else if Truthy(item.startDate) then CoreBucket
    else if status == "pending" then StretchBucket
    else LeftOut
  }

  /**
   * The loop body of `categorize_tasks` as written: a non-empty category
   * decides, and one that is neither `core` nor `stretch` in any letter case
   * drops the item, although the comment there says it falls back.
   */
  function BucketAsWritten(item: Item): (b: Placement)
    ensures Truthy(item.category) && Lower(item.category.value) != "core" && Lower(item.category.value) != "stretch" ==> b == LeftOut
    ensures !Truthy(item.category) ==> b == StatusBucket(item)
  {
    if Truthy(item.category) then
      var c := Lower(item.category.value);
      if c == "core" then CoreBucket else if c == "stretch" then StretchBucket else LeftOut
    else StatusBucket(item)
  }

  /** A completed item with an unrecognised category is dropped from the roadmap. */
  lemma UnknownCategoryDropped(item: Item)
    requires item.category == Some("future") && item.status == Some("completed")
    ensures BucketAsWritten(item) == LeftOut && StatusBucket(item) == CoreBucket
  {
    assert Lower("future") == "future";
  }

  /** The bucket with the fallback the comment describes: an unrecognised category is ignored. */
  function Bucket(item: Item): (b: Placement)
    ensures Truthy(item.category) && Lower(item.category.value) == "core" ==> b == CoreBucket
    ensures Truthy(item.category) && Lower(item.category.value) == "stretch" ==> b == StretchBucket
    ensures !(Truthy(item.category) && Lower(item.category.value) in {"core", "stretch"}) ==> b == StatusBucket(item)
  {
    if Truthy(item.category) && Lower(item.category.value) == "core" then CoreBucket
    else if Truthy(item.category) && Lower(item.category.value) == "stretch" then StretchBucket
    else StatusBucket(item)
  }

  /** The two rules differ only on items whose category is unrecognised. */
  lemma BucketAgrees(item: Item)
    requires !Truthy(item.category) || Lower(item.category.value) in {"core", "stretch"}
    ensures Bucket(item) == BucketAsWritten(item)
  {
  }

  /** The filter selecting the items that the placement rule `place` puts in bucket `b`. */
  function InBucket(place: Item -> Placement, b: Placement): Item -> bool {
    (item: Item) => place(item) == b
  }

  /**
   * One pass over the items under the placement rule `place`, appending each
   * to the core list, the stretch list or neither.
   */
  function CategorizeBy(items: seq<Item>, place: Item -> Placement): (r: (seq<Item>, seq<Item>))
    ensures forall x :: x in r.0 ==> place(x) == CoreBucket
    ensures forall x :: x in r.1 ==> place(x) == StretchBucket
    ensures |r.0| + |r.1| <= |items|
  {
    if items == [] then ([], [])
    else
      var (core, stretch) := CategorizeBy(items[1..], place);
      match place(items[0])
      case CoreBucket => ([items[0]] + core, stretch)
      case StretchBucket => (core, [items[0]] + stretch)
      case LeftOut => (core, stretch)
  }

  /** `categorize_tasks` as written: the loop body is `BucketAsWritten`. */
  function Categorize(items: seq<Item>): (r: (seq<Item>, seq<Item>))
    ensures forall x :: x in r.0 ==> BucketAsWritten(x) == CoreBucket
    ensures forall x :: x in r.1 ==> BucketAsWritten(x) == StretchBucket
    ensures |r.0| + |r.1| <= |items|
  {
    CategorizeBy(items, BucketAsWritten)
  }

  /** The categorisation with the fallback the comment describes: the loop body is `Bucket`. */
  function CorrectedCategorize(items: seq<Item>): (r: (seq<Item>, seq<Item>))
    ensures forall x :: x in r.0 ==> Bucket(x) == CoreBucket
    ensures forall x :: x in r.1 ==> Bucket(x) == StretchBucket
    ensures |r.0| + |r.1| <= |items|
  {
    CategorizeBy(items, Bucket)
  }

  /** The two lists are the items of each bucket in their input order, so no item is in both. */
  lemma {:induction false} CategorizeFilters(items: seq<Item>, place: Item -> Placement)
    ensures CategorizeBy(items, place).0 == Filter(items, InBucket(place, CoreBucket))
    ensures CategorizeBy(items, place).1 == Filter(items, InBucket(place, StretchBucket))
  {
    if items != [] {
      CategorizeFilters(items[1..], place);
      FilterCons(items, InBucket(place, CoreBucket));
      FilterCons(items, InBucket(place, StretchBucket));
    }
  }

  /** An item counts in the core list exactly when its bucket is core, and likewise for stretch. */
  lemma CategorizeMembership(items: seq<Item>, place: Item -> Placement, x: Item)
    requires x in items
    ensures x in CategorizeBy(items, place).0 <==> place(x) == CoreBucket
    ensures x in CategorizeBy(items, place).1 <==> place(x) == StretchBucket
  {
    CategorizeFilters(items, place);
  }

  /** The two categorisations agree on a plan none of whose items has an unrecognised category. */
  lemma {:induction false} CategorizeAgrees(items: seq<Item>)
    requires forall k :: 0 <= k < |items| ==> !Truthy(items[k].category) || Lower(items[k].category.value) in {"core", "stretch"}
    ensures Categorize(items) == CorrectedCategorize(items)
  {
    if items != [] {
      CategorizeAgrees(items[1..]);
      BucketAgrees(items[0]);
    }
  }

  /** A one-item plan holding the unrecognised-category witness: the source drops it, the correction keeps it in core. */
  lemma UnknownCategoryLeavesPlan(item: Item)
    requires item.category == Some("future") && item.status == Some("completed")
    ensures Categorize([item]) == ([], [])
    ensures CorrectedCategorize([item]) == ([item], [])
  {
    UnknownCategoryDropped(item);
    assert Lower("future") == "future";
    assert Bucket(item) == CoreBucket;
    assert [item][1..] == [];
    assert CategorizeBy([], Bucket) == ([], []);
    assert CategorizeBy([item], Bucket) == ([item] + [], []);
    assert [item] + [] == [item];
  }

  // ---------------------------------------------------------------------------
  // Checklist lines
  // ---------------------------------------------------------------------------

  /** A link path relative to `docs/ROADMAP.md`: one leading `docs/` removed. */
  function RelativeLink(path: string): (r: string)
    ensures StartsWith(path, "docs/") ==> "docs/" + r == path
    ensures !StartsWith(path, "docs/") ==> r == path
  {
    if StartsWith(path, "docs/") then path[5..] else path
  }

  /** Only the first `docs/` goes. */
  lemma RelativeLinkOnce(rest: string)
    ensures RelativeLink("docs/" + rest) == rest
  {
    assert ("docs/" + rest)[..5] == "docs/";
  }

  /**
   * The date part of a line: one date when only the start is set or both
   * are equal, a range when both are set and differ, nothing otherwise.
   * `heading` is `予定` (planned) or `実績` (actual).
   */
  function DateText(heading: string, start: Option<string>, end: Option<string>): (r: string)
    ensures !Truthy(start) ==> r == ""
    ensures Truthy(start) && Truthy(end) && start != end ==> r == " （" + heading + ": " + start.value + "〜" + end.value + "）"
    ensures Truthy(start) && (!Truthy(end) || start == end) ==> r == " （" + heading + ": " + start.value + "）"
  {
    if Truthy(start) && Truthy(end) then
      if start == end then " （" + heading + ": " + start.value + "）"
      else " （" + heading + ": " + start.value + "〜" + end.value + "）"
    else if Truthy(start) then " （" + heading + ": " + start.value + "）"
    else ""
  }

  /** A period of one day reads the same whether the end is given or not. */
  lemma SingleDayDate(heading: string, day: string)
    requires day != ""
    ensures DateText(heading, Some(day), Some(day)) == DateText(heading, Some(day), None)
  {
  }

  /** The links of an item: its spec, and its report only once it is completed. */
  function Links(item: Item): (r: seq<string>)
    ensures |r| <= 2
    ensures !IsCompleted(item) || !Truthy(item.reportMarkdown) ==>
      r == (if Truthy(item.detailMarkdown) then ["[仕様](" + RelativeLink(item.detailMarkdown.value) + ")"] else [])
  {
    (if Truthy(item.detailMarkdown) then ["[仕様](" + RelativeLink(item.detailMarkdown.value) + ")"] else [])
    + (if Truthy(item.reportMarkdown) && IsCompleted(item) then ["[レポート](" + RelativeLink(item.reportMarkdown.value) + ")"] else [])
  }

  /** The marker that opens the indented second line of a task. */
  const MetaMark: string := "\n    - "

  /**
   * The indented second line: the summary and the links, joined by ` / `;
   * empty when there is neither.
   */
  function MetaText(item: Item): (r: string)
    ensures r == "" <==> !Truthy(item.summary) && Links(item) == []
    ensures r != "" ==> StartsWith(r, MetaMark)
    ensures Truthy(item.summary) && Links(item) == [] ==> r == MetaMark + item.summary.value
    ensures Truthy(item.summary) && Links(item) != [] ==> r == MetaMark + item.summary.value + " / " + Join(Links(item), " / ")
    ensures !Truthy(item.summary) && Links(item) != [] ==> r == MetaMark + Join(Links(item), " / ")
  {
    var links := Links(item);
    var parts := (if Truthy(item.summary) then [item.summary.value] else []) + (if links != [] then [Join(links, " / ")] else []);
    PrefixOfAppend(MetaMark, Join(parts, " / "));
    assert Truthy(item.summary) && links != [] ==> Join(parts, " / ") == item.summary.value + " / " + Join(links, " / ") by {
      if Truthy(item.summary) && links != [] {
        assert parts == [item.summary.value, Join(links, " / ")];
        assert parts[1..] == [Join(links, " / ")];
      }
    }
    if parts == [] then "" else MetaMark + Join(parts, " / ")
  }

  /** `[x]` for a completed item, `[ ]` for any other. */
  function Checkbox(item: Item): (r: string)
    ensures |r| == 3 && (r == "[x]" <==> IsCompleted(item))
  {
    if IsCompleted(item) then "[x]" else "[ ]"
  }

  /** The dependency part: ` 依存: ` and the ids joined by `, `; nothing without dependencies. */
  function DepsText(deps: seq<string>): (r: string)
    ensures deps == [] <==> r == ""
    ensures deps != [] ==> StartsWith(r, " 依存: ") && r[|" 依存: "|..] == Join(deps, ", ")
    ensures |deps| == 1 ==> r == " 依存: " + deps[0]
  {
    if deps == [] then ""
    else
      var r := " 依存: " + Join(deps, ", ");
      PrefixOfAppend(" 依存: ", Join(deps, ", "));
      assert r[|" 依存: "|..] == Join(deps, ", ");
      r
  }

  /** The coverage part: `／` and the target when the key is present, even when the target is empty. */
  function CoverageText(coverage: Option<string>): (r: string)
    ensures coverage.None? ==> r == ""
    ensures coverage.Some? ==> |r| == |coverage.value| + 1 && r[0] == '／' && r[1..] == coverage.value
  {
    if coverage.Some? then "／" + coverage.value else ""
  }

  /** `format_task_markdown`. */
  function FormatTask(item: Item): (r: string)
    ensures StartsWith(r, "- " + Checkbox(item) + " " + item.title.GetOr(""))
    ensures EndsWith(r, MetaText(item))
  {
    var head := "- " + Checkbox(item) + " " + item.title.GetOr("");
    var rest := DepsText(item.deps) + DateText("予定", item.startDate, item.endDate)
      + DateText("実績", item.actualStartDate, item.actualEndDate) + CoverageText(item.targetCoverage);
    var meta := MetaText(item);
    PrefixOfAppend(head, rest + meta);
    SuffixOfAppend(head + rest, meta);
    head + rest + meta
  }

  /** The parts of a task line, in order: head, dependencies, planned and actual dates, coverage, then the second line. */
  lemma FormatTaskLayout(item: Item)
    ensures FormatTask(item) == "- " + Checkbox(item) + " " + item.title.GetOr("")
      + DepsText(item.deps)
      + DateText("予定", item.startDate, item.endDate)
      + DateText("実績", item.actualStartDate, item.actualEndDate)
      + CoverageText(item.targetCoverage)
      + MetaText(item)
  {
  }

  /** An item with nothing but a title and a status is the head alone. */
  lemma BareTaskLine(item: Item)
    requires item.deps == [] && !Truthy(item.startDate) && !Truthy(item.actualStartDate)
    requires item.targetCoverage.None? && !Truthy(item.summary) && !Truthy(item.detailMarkdown)
    requires !IsCompleted(item) || !Truthy(item.reportMarkdown)
    ensures FormatTask(item) == "- " + Checkbox(item) + " " + item.title.GetOr("")
  {
    FormatTaskLayout(item);
  }

  /** A text ends with its last part. */
  lemma SuffixOfAppend(head: string, rest: string)
    ensures EndsWith(head + rest, rest)
  {
    assert (head + rest)[|head|..] == rest;
  }

  /** A text begins with its first part. */
  lemma PrefixOfAppend(head: string, rest: string)
    ensures StartsWith(head + rest, head)
  {
    assert (head + rest)[..|head|] == head;
  }

  /** The box is ticked exactly for completed items. */
  lemma CheckboxIffCompleted(item: Item)
    ensures FormatTask(item)[2..5] == "[x]" <==> IsCompleted(item)
  {
    BoxAt(FormatTask(item), Checkbox(item), item.title.GetOr(""));
  }

  /** A line that starts with `- `, a three-character box and a space holds the box at positions 2 to 4. */
  lemma BoxAt(r: string, box: string, title: string)
    requires |box| == 3 && StartsWith(r, "- " + box + " " + title)
    ensures r[2..5] == box
  {
    var head := "- " + box + " " + title;
    assert r[..|head|] == head;
    assert head[2..5] == box;
  }

  /** The report of an item that is not completed is not linked: the line is as if it had none. */
  lemma ReportOnlyWhenCompleted(item: Item, report: Option<string>)
    requires !IsCompleted(item)
    ensures FormatTask(item.(reportMarkdown := report)) == FormatTask(item)
  {
    assert Links(item.(reportMarkdown := report)) == Links(item);
  }

  // ---------------------------------------------------------------------------
  // Gantt chart
  // ---------------------------------------------------------------------------

  /** The end dates an item offers for the chart's title: its actual and planned ends, and today while it is under way. */
  function EndCandidates(item: Item, today: string): (r: seq<string>)
    ensures forall c :: c in r ==> c == today || (Truthy(item.actualEndDate) && c == item.actualEndDate.value) || (Truthy(item.endDate) && c == item.endDate.value)
  {
    (if Truthy(item.actualEndDate) then [item.actualEndDate.value] else [])
    + (if Truthy(item.endDate) then [item.endDate.value] else [])
    + (if Truthy(item.actualStartDate) && !Truthy(item.actualEndDate) then [today] else [])
  }

  /** The candidates of all items, in order. */
  function AllCandidates(items: seq<Item>, today: string): seq<string> {
    if items == [] then [] else EndCandidates(items[0], today) + AllCandidates(items[1..], today)
  }

  /** The running maximum: a candidate replaces it when it compares greater. */
  function MaxOf(acc: Option<string>, cs: seq<string>): (r: Option<string>)
    ensures r.None? <==> acc.None? && cs == []
    ensures r.Some? ==> r == acc || r.value in cs
    decreases |cs|
  {
    if cs == [] then acc
    else MaxOf(if acc.None? || !LexLe(cs[0], acc.value) then Some(cs[0]) else acc, cs[1..])
  }

  /** The running maximum ends at or above the start and every candidate. */
  lemma {:induction false} MaxOfIsMax(acc: Option<string>, cs: seq<string>)
    ensures var r := MaxOf(acc, cs);
      (r.Some? ==> forall c :: c in cs ==> LexLe(c, r.value)) && (acc.Some? ==> LexLe(acc.value, r.value))
    decreases |cs|
  {
    if cs == [] {
      if acc.Some? { LexLeRefl(acc.value); }
    } else {
      var next := if acc.None? || !LexLe(cs[0], acc.value) then Some(cs[0]) else acc;
      MaxOfIsMax(next, cs[1..]);
      var r := MaxOf(acc, cs);
      assert r == MaxOf(next, cs[1..]);
      if acc.Some? && !LexLe(cs[0], acc.value) {
        LexLeTotal(cs[0], acc.value);
        LexLeTrans(acc.value, cs[0], r.value);
      }
      if acc.Some? && LexLe(cs[0], acc.value) {
        LexLeTrans(cs[0], acc.value, r.value);
      }
      assert forall c :: c in cs ==> c == cs[0] || c in cs[1..];
    }
  }

  /**
   * The latest end date of `generate_gantt_chart`, compared as text: the
   * greatest candidate of all items, `None` when there is none.
   */
  function MaxEndDate(items: seq<Item>, today: string): (r: Option<string>)
    ensures r.None? <==> AllCandidates(items, today) == []
    ensures r.Some? ==> r.value in AllCandidates(items, today)
    ensures r.Some? ==> forall c :: c in AllCandidates(items, today) ==> LexLe(c, r.value)
  {
    MaxOfIsMax(None, AllCandidates(items, today));
    MaxOf(None, AllCandidates(items, today))
  }

  /** An item still under way raises the chart's end to at least today. */
  lemma UnderWayReachesToday(items: seq<Item>, today: string, k: int)
    requires 0 <= k < |items| && Truthy(items[k].actualStartDate) && !Truthy(items[k].actualEndDate)
    ensures MaxEndDate(items, today).Some? && LexLe(today, MaxEndDate(items, today).value)
  {
    CandidatesOf(items, today, k);
    assert today in EndCandidates(items[k], today);
  }

  /** Every candidate of item `k` is among all the candidates. */
  lemma {:induction false} CandidatesOf(items: seq<Item>, today: string, k: int)
    requires 0 <= k < |items|
    ensures forall c :: c in EndCandidates(items[k], today) ==> c in AllCandidates(items, today)
  {
    if k > 0 {
      CandidatesOf(items[1..], today, k - 1);
    }
  }

  /** `f" ({progress_perc}%)"` when the progress is set and non-zero; a missing or zero progress adds nothing. */
  function ProgressText(p: Option<int>): (r: string)
    ensures p.GetOr(0) == 0 <==> r == ""
    ensures r != "" ==> |r| >= 5 && r[..2] == " (" && r[|r| - 2..] == "%)" && r[2..|r| - 2] == IntText(p.value)
  {
    var v := p.GetOr(0);
    if v == 0 then ""
    else
      var r := " (" + IntText(v) + "%)";
      assert r[2..|r| - 2] == IntText(v);
      r
  }

  /** `str(n)` for any integer: a minus sign before the digits of a negative number, the digits alone otherwise. */
  function IntText(n: int): (r: string)
    ensures |r| >= 1
    ensures n >= 0 ==> AllDigits(r) && DigitsValue(r) == n
    ensures n < 0 ==> r[0] == '-' && AllDigits(r[1..]) && DigitsValue(r[1..]) == -n
  {
    if n < 0 then
      var r := "-" + NatToString(-n);
      assert r[1..] == NatToString(-n);
      r
    else NatToString(n)
  }

  /**
   * The chart lines of one item: the planned bar, or a comment for an
   * undated stretch item, then the actual bar running to today while the
   * item is under way; nothing for an item without a title.
   */
  function Bars(item: Item, stretch: bool, today: string): (r: seq<string>)
    ensures item.title.GetOr("") == "" ==> r == []
    ensures |r| <= 2
  {
    var title := item.title.GetOr("");
    if title == "" then []
    else
      var planned :=
        if Truthy(item.startDate) && Truthy(item.endDate) then
          ["  " + title + "  :active, " + item.startDate.value + ", " + DurationText(Duration(item.startDate.value, item.endDate.value)) + "d"]
        else if stretch && !Truthy(item.startDate) && !Truthy(item.endDate) then
          ["  %% " + title + " (日付未定)"]
        else [];
      var actual :=
        if Truthy(item.actualStartDate) then
          var end := if Truthy(item.actualEndDate) then item.actualEndDate.value else today;
          ["  " + title + " 実績" + ProgressText(item.progressPerc) + "  :crit, " + item.actualStartDate.value + ", " + DurationText(Duration(item.actualStartDate.value, end)) + "d"]
        else [];
      planned + actual
  }

  /** An undated stretch item is a comment line; in the core section the same item draws nothing. */
  lemma UndatedStretchIsComment(item: Item, today: string)
    requires item.title.Some? && item.title.value != ""
    requires !Truthy(item.startDate) && !Truthy(item.endDate) && !Truthy(item.actualStartDate)
    ensures Bars(item, true, today) == ["  %% " + item.title.value + " (日付未定)"]
    ensures Bars(item, false, today) == []
  {
  }

  /** The bars of a section, item after item. */
  function SectionBars(items: seq<Item>, stretch: bool, today: string): (r: seq<string>)
    ensures |r| <= 2 * |items|
  {
    if items == [] then [] else Bars(items[0], stretch, today) + SectionBars(items[1..], stretch, today)
  }

  /** The first six chart lines: the heading and the mermaid preamble, naming the latest end date when there is one. */
  function GanttHeader(maxEnd: Option<string>): (r: seq<string>)
    ensures |r| == 6 && r[2] == "```mermaid" && r[3] == "gantt"
    ensures maxEnd.Some? <==> r[0] != "## ガントチャート"
  {
    if maxEnd.Some? then
      ["## ガントチャート（コア完了 〜 " + maxEnd.value + "）", "", "```mermaid", "gantt", "  dateFormat  YYYY-MM-DD",
       "  title Roadmap to " + maxEnd.value + " (Core) + Stretch"]
    else
      ["## ガントチャート", "", "```mermaid", "gantt", "  dateFormat  YYYY-MM-DD", "  title Roadmap (Core) + Stretch"]
  }

  /** `generate_gantt_chart`: the title from the latest end date, then the core and stretch sections. */
  function Gantt(core: seq<Item>, stretch: seq<Item>, today: string): (r: seq<string>)
    ensures |r| >= 8 && r[2] == "```mermaid" && r[|r| - 2] == "```"
  {
    var body :=
      (if core != [] then ["  section Core"] + SectionBars(core, false, today) else [])
      + (if stretch != [] then ["  section Stretch"] + SectionBars(stretch, true, today) else []);
    GanttHeader(MaxEndDate(core + stretch, today)) + body + ["```", ""]
  }

  // ---------------------------------------------------------------------------
  // The whole document
  // ---------------------------------------------------------------------------

  /** The checklist lines of one list followed by a blank line; nothing for an empty list. */
  function Block(items: seq<Item>): (r: seq<string>)
    ensures items == [] ==> r == []
    ensures items != [] ==> |r| == |items| + 1 && r[|items|] == ""
    ensures forall k :: 0 <= k < |items| ==> r[k] == FormatTask(items[k])
  {
    if items == [] then [] else seq(|items|, k requires 0 <= k < |items| => FormatTask(items[k])) + [""]
  }

  /** The chart, present exactly when either list has an item. */
  function Chart(core: seq<Item>, stretch: seq<Item>, today: string): (r: seq<string>)
    ensures r == [] <==> core == [] && stretch == []
  {
    if core != [] || stretch != [] then Gantt(core, stretch, today) else []
  }

  /** The lines of the document for the two lists already chosen. */
  function Document(title: string, core: seq<Item>, stretch: seq<Item>, today: string): (r: seq<string>)
    ensures |r| >= 2 && r[0] == "# " + title && r[1] == ""
  {
    ["# " + title, ""] + Block(core) + Block(stretch) + Chart(core, stretch, today)
  }

  /** The document of a plan whose items are placed by `place`. */
  function DocumentBy(title: string, items: seq<Item>, today: string, place: Item -> Placement): (r: seq<string>)
    ensures |r| >= 2 && r[0] == "# " + title && r[1] == ""
  {
    Document(title, CategorizeBy(items, place).0, CategorizeBy(items, place).1, today)
  }

  /**
   * `generate_roadmap_markdown` as written: the title, every core line, every
   * stretch line, then the chart when either list has an item; the file is
   * these lines joined by newlines.
   */
  function RoadmapLines(title: string, items: seq<Item>, today: string): (r: seq<string>)
    ensures |r| >= 2 && r[0] == "# " + title && r[1] == ""
    ensures r == Document(title, Categorize(items).0, Categorize(items).1, today)
  {
    DocumentBy(title, items, today, BucketAsWritten)
  }

  /** The roadmap built on the corrected categorisation. */
  function CorrectedRoadmapLines(title: string, items: seq<Item>, today: string): (r: seq<string>)
    ensures |r| >= 2 && r[0] == "# " + title && r[1] == ""
    ensures r == Document(title, CorrectedCategorize(items).0, CorrectedCategorize(items).1, today)
  {
    DocumentBy(title, items, today, Bucket)
  }

  /** The core lines come right after the title, in the order of the core list. */
  lemma DocumentCoreLines(title: string, core: seq<Item>, stretch: seq<Item>, today: string)
    ensures var r := Document(title, core, stretch, today);
      forall k :: 0 <= k < |core| ==> r[2 + k] == FormatTask(core[k])
  {
    var r := Document(title, core, stretch, today);
    var head := ["# " + title, ""];
    forall k | 0 <= k < |core|
      ensures r[2 + k] == FormatTask(core[k])
    {
      SecondOfFour(head, Block(core), Block(stretch), Chart(core, stretch, today), k);
    }
  }

  /** The stretch lines follow the core block, in the order of the stretch list. */
  lemma DocumentStretchLines(title: string, core: seq<Item>, stretch: seq<Item>, today: string)
    ensures var r := Document(title, core, stretch, today);
      forall k :: 0 <= k < |stretch| ==> r[2 + |Block(core)| + k] == FormatTask(stretch[k])
  {
    var r := Document(title, core, stretch, today);
    var head := ["# " + title, ""] + Block(core);
    var tail := Chart(core, stretch, today);
    forall k | 0 <= k < |stretch|
      ensures r[2 + |Block(core)| + k] == FormatTask(stretch[k])
    {
      PartIndex(head, Block(stretch), tail, k);
    }
  }

  /** Lines follow the two blocks exactly when either list has an item. */
  lemma DocumentChartPresent(title: string, core: seq<Item>, stretch: seq<Item>, today: string)
    ensures |Document(title, core, stretch, today)| > 2 + |Block(core)| + |Block(stretch)| <==> core != [] || stretch != []
  {
  }

  /** Element `k` of the second part of a four-part concatenation. */
  lemma SecondOfFour<T>(h: seq<T>, a: seq<T>, b: seq<T>, c: seq<T>, k: int)
    requires 0 <= k < |a|
    ensures (h + a + b + c)[|h| + k] == a[k]
  {
  }

  /** Element `k` of the middle part of a three-part concatenation. */
  lemma PartIndex<T>(h: seq<T>, a: seq<T>, c: seq<T>, k: int)
    requires 0 <= k < |a|
    ensures (h + a + c)[|h| + k] == a[k]
  {
  }

  /** The document of a plan lists its core items, then its stretch items, each in input order, and nothing else before the chart. */
  lemma RoadmapLayout(title: string, items: seq<Item>, today: string, place: Item -> Placement)
    ensures var core := CategorizeBy(items, place).0;
      var stretch := CategorizeBy(items, place).1;
      var r := DocumentBy(title, items, today, place);
      && core == Filter(items, InBucket(place, CoreBucket))
      && stretch == Filter(items, InBucket(place, StretchBucket))
      && (forall k :: 0 <= k < |core| ==> r[2 + k] == FormatTask(core[k]))
      && (forall k :: 0 <= k < |stretch| ==> r[2 + |Block(core)| + k] == FormatTask(stretch[k]))
  {
    CategorizeFilters(items, place);
    DocumentCoreLines(title, CategorizeBy(items, place).0, CategorizeBy(items, place).1, today);
    DocumentStretchLines(title, CategorizeBy(items, place).0, CategorizeBy(items, place).1, today);
  }

  /** An item list with nothing in either bucket categorizes to two empty lists. */
  lemma {:induction false} NothingCategorized(items: seq<Item>, place: Item -> Placement)
    requires forall k :: 0 <= k < |items| ==> place(items[k]) == LeftOut
    ensures CategorizeBy(items, place) == ([], [])
  {
    if items != [] {
      NothingCategorized(items[1..], place);
    }
  }

  /** A plan whose items all fall in neither list gives only the title. */
  lemma EmptyRoadmap(title: string, items: seq<Item>, today: string, place: Item -> Placement)
    requires forall k :: 0 <= k < |items| ==> place(items[k]) == LeftOut
    ensures DocumentBy(title, items, today, place) == ["# " + title, ""]
  {
    NothingCategorized(items, place);
  }
}
