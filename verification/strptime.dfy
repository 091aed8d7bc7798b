/**
 * `datetime.strptime` and `datetime.strftime` for the directives the program
 * uses: `%Y`, `%m`, `%d`, `%H`, `%M`, `%S`, literal characters and whitespace.
 *
 * `strptime` compiles each directive to a regular expression whose
 * alternatives are tried in order, matches the whole pattern at the start of
 * the text, rejects text with "unconverted data" after the match, and finally
 * builds a `datetime`, which rejects impossible dates and second 60/61.
 * Every directive in the formats used here is followed either by the end of
 * the format or by a non-digit, so taking the first alternative that matches
 * is exactly what the backtracking regular expression does.
 */
module Strptime {
  import opened Wrappers
  import opened Text
  import opened Calendar

  datatype Field = Year | Month | Day | Hour | Minute | Second

  /** One element of a format: a directive, a literal character, or a run of whitespace. */
  datatype FormatItem = Directive(field: Field) | Literal(c: char) | Blank

  /** The fields filled in so far; `strptime` starts from 1900-01-01 00:00:00. */
  datatype Fields = Fields(year: int, month: int, day: int, hour: int, minute: int, second: int)

  /** A parsed date with its clock time. */
  datatype Stamp = Stamp(date: Date, hour: int, minute: int, second: int)

  const Defaults: Fields := Fields(1900, 1, 1, 0, 0, 0)

  /** `"%Y-%m-%d"` */
  const DashDate: seq<FormatItem> := [Directive(Year), Literal('-'), Directive(Month), Literal('-'), Directive(Day)]
  /** `"%Y/%m/%d"` */
  const SlashDate: seq<FormatItem> := [Directive(Year), Literal('/'), Directive(Month), Literal('/'), Directive(Day)]
  /** `" %H:%M:%S"`, the clock part appended to a date format. */
  const Clock: seq<FormatItem> := [Blank, Directive(Hour), Literal(':'), Directive(Minute), Literal(':'), Directive(Second)]
  /** `"%Y-%m-%d %H:%M:%S"` */
  const DashDateTime: seq<FormatItem> := DashDate + Clock
  /** `"%Y/%m/%d %H:%M:%S"` */
  const SlashDateTime: seq<FormatItem> := SlashDate + Clock
  /** `"%Y年/%m月/%d日"`, the portfolio's date style. */
  const KanjiDate: seq<FormatItem> :=
    [Directive(Year), Literal('年'), Literal('/'), Directive(Month), Literal('月'), Literal('/'), Directive(Day), Literal('日')]

  /** The values each directive's regular expression can produce. */
  predicate FieldRange(f: Field, v: int) {
    match f
    case Year => 0 <= v <= 9999
    case Month => 1 <= v <= 12
    case Day => 1 <= v <= 31
    case Hour => 0 <= v <= 23
    case Minute => 0 <= v <= 59
    case Second => 0 <= v <= 61
  }

  predicate DigitAt(s: string, i: nat, lo: nat, hi: nat) {
    i < |s| && IsDigit(s[i]) && lo <= DigitValue(s[i]) <= hi
  }

  function TwoDigits(s: string, i: nat): nat
    requires DigitAt(s, i, 0, 9) && DigitAt(s, i + 1, 0, 9)
  {
    10 * DigitValue(s[i]) + DigitValue(s[i + 1])
  }

  /**
   * The value and width of the first alternative of the directive's regular
   * expression that matches at `i`:
   *   %Y `\d\d\d\d`, %m `1[0-2]|0[1-9]|[1-9]`,
   *   %d `3[01]|[12]\d|0[1-9]|[1-9]| [1-9]`, %H `2[0-3]|[0-1]\d|\d`,
   *   %M `[0-5]\d|\d`, %S `6[0-1]|[0-5]\d|\d`.
   */
  function MatchField(f: Field, s: string, i: nat): (r: Option<(nat, nat)>)
    ensures r.Some? ==> 1 <= r.value.1 <= 4 && i + r.value.1 <= |s|
    ensures r.Some? ==> FieldRange(f, r.value.0)
  {
    match f
    case Year =>
      if i + 4 <= |s| && AllDigits(s[i..i + 4]) then
        var v := DigitsValue(s[i..i + 4]);
        assert v < 10000 by { FourDigitsBound(s[i..i + 4]); }
        Some((v, 4))
      else None
    case Month =>
      if DigitAt(s, i, 1, 1) && DigitAt(s, i + 1, 0, 2) then Some((TwoDigits(s, i), 2))
      else if DigitAt(s, i, 0, 0) && DigitAt(s, i + 1, 1, 9) then Some((TwoDigits(s, i), 2))
      else if DigitAt(s, i, 1, 9) then Some((DigitValue(s[i]), 1))
      else None
    case Day =>
      if DigitAt(s, i, 3, 3) && DigitAt(s, i + 1, 0, 1) then Some((TwoDigits(s, i), 2))
      else if DigitAt(s, i, 1, 2) && DigitAt(s, i + 1, 0, 9) then Some((TwoDigits(s, i), 2))
      else if DigitAt(s, i, 0, 0) && DigitAt(s, i + 1, 1, 9) then Some((TwoDigits(s, i), 2))
      else if DigitAt(s, i, 1, 9) then Some((DigitValue(s[i]), 1))
      else if i < |s| && s[i] == ' ' && DigitAt(s, i + 1, 1, 9) then Some((DigitValue(s[i + 1]), 2))
      else None
    case Hour =>
      if DigitAt(s, i, 2, 2) && DigitAt(s, i + 1, 0, 3) then Some((TwoDigits(s, i), 2))
      else if DigitAt(s, i, 0, 1) && DigitAt(s, i + 1, 0, 9) then Some((TwoDigits(s, i), 2))
      else if DigitAt(s, i, 0, 9) then Some((DigitValue(s[i]), 1))
      else None
    case Minute =>
      if DigitAt(s, i, 0, 5) && DigitAt(s, i + 1, 0, 9) then Some((TwoDigits(s, i), 2))
      else if DigitAt(s, i, 0, 9) then Some((DigitValue(s[i]), 1))
      else None
    case Second =>
      if DigitAt(s, i, 6, 6) && DigitAt(s, i + 1, 0, 1) then Some((TwoDigits(s, i), 2))
      else if DigitAt(s, i, 0, 5) && DigitAt(s, i + 1, 0, 9) then Some((TwoDigits(s, i), 2))
      else if DigitAt(s, i, 0, 9) then Some((DigitValue(s[i]), 1))
      else None
  }

  lemma FourDigitsBound(s: string)
    requires |s| == 4 && AllDigits(s)
    ensures DigitsValue(s) < 10000
  {
    DigitsBound(s);
    assert Pow10(4) == 10000;
  }

  lemma {:induction false} DigitsBound(s: string)
    requires AllDigits(s)
    ensures DigitsValue(s) < Pow10(|s|)
  {
    if |s| > 0 {
      DigitsBound(s[..|s| - 1]);
    }
  }

  /** The length of the whitespace run starting at `i` (the greedy `\s+` of a blank). */
  function SpaceRun(s: string, i: nat): (n: nat)
    ensures i + n <= |s| || n == 0
    ensures forall k :: i <= k < i + n ==> IsSpace(s[k])
    ensures i + n < |s| ==> !IsSpace(s[i + n])
    decreases |s| - i
  {
    if i < |s| && IsSpace(s[i]) then 1 + SpaceRun(s, i + 1) else 0
  }

  function Assign(acc: Fields, f: Field, v: int): Fields {
    match f
    case Year => acc.(year := v)
    case Month => acc.(month := v)
    case Day => acc.(day := v)
    case Hour => acc.(hour := v)
    case Minute => acc.(minute := v)
    case Second => acc.(second := v)
  }

  /** Matches the format items at `i`, returning the filled fields and where the match ends. */
  function MatchItems(items: seq<FormatItem>, s: string, i: nat, acc: Fields): (r: Option<(Fields, nat)>)
    ensures r.Some? ==> i <= r.value.1 <= |s| || (|items| == 0 && r.value.1 == i)
    decreases |items|
  {
    if |items| == 0 then Some((acc, i))
    else
      match items[0]
      case Directive(f) =>
        (match MatchField(f, s, i)
         case None => None
         case Some(m) => MatchItems(items[1..], s, i + m.1, Assign(acc, f, m.0)))
      case Literal(c) =>
        if i < |s| && s[i] == c then MatchItems(items[1..], s, i + 1, acc) else None
      case Blank =>
        var n := SpaceRun(s, i);
        if n == 0 then None else MatchItems(items[1..], s, i + n, acc)
  }

  /**
   * `datetime.strptime(s, format)`: `None` where Python raises `ValueError`
   * (no match, unconverted data remains, or an impossible date or second).
   */
  function Parse(items: seq<FormatItem>, s: string): (r: Option<Stamp>)
    ensures r.Some? ==> ValidDate(r.value.date)
    ensures r.Some? ==> 0 <= r.value.hour < 24 && 0 <= r.value.minute < 60 && 0 <= r.value.second < 60
  {
    match MatchItems(items, s, 0, Defaults)
    case None => None
    case Some(m) =>
      var f := m.0;
      if m.1 == |s| && ValidDate(Date(f.year, f.month, f.day))
         && 0 <= f.hour < 24 && 0 <= f.minute < 60 && 0 <= f.second < 60
      then Some(Stamp(Date(f.year, f.month, f.day), f.hour, f.minute, f.second))
      else None
  }

  /** What one item of a format writes. */
  function ItemText(item: FormatItem, st: Stamp): string
    requires st.date.year >= 0 && st.date.month >= 0 && st.date.day >= 0
    requires st.hour >= 0 && st.minute >= 0 && st.second >= 0
  {
    match item
    case Directive(Year) => Padded(st.date.year, 4)
    case Directive(Month) => Padded(st.date.month, 2)
    case Directive(Day) => Padded(st.date.day, 2)
    case Directive(Hour) => Padded(st.hour, 2)
    case Directive(Minute) => Padded(st.minute, 2)
    case Directive(Second) => Padded(st.second, 2)
    case Literal(c) => [c]
    case Blank => " "
  }

  /** `datetime.strftime(format)` for the modelled directives, numbers zero-padded. */
  function Format(items: seq<FormatItem>, st: Stamp): string
    requires st.date.year >= 0 && st.date.month >= 0 && st.date.day >= 0
    requires st.hour >= 0 && st.minute >= 0 && st.second >= 0
  {
    if |items| == 0 then ""
    else ItemText(items[0], st) + Format(items[1..], st)
  }

  /** Formatting a concatenation of formats concatenates their texts. */
  lemma {:induction false} FormatAppend(a: seq<FormatItem>, b: seq<FormatItem>, st: Stamp)
    requires st.date.year >= 0 && st.date.month >= 0 && st.date.day >= 0
    requires st.hour >= 0 && st.minute >= 0 && st.second >= 0
    ensures Format(a + b, st) == Format(a, st) + Format(b, st)
    decreases |a|
  {
    if |a| > 0 {
      assert (a + b)[1..] == a[1..] + b;
      FormatAppend(a[1..], b, st);
    } else {
      assert a + b == b;
    }
  }

  /** A one-item format writes that item's text. */
  lemma FormatOne(item: FormatItem, st: Stamp)
    requires st.date.year >= 0 && st.date.month >= 0 && st.date.day >= 0
    requires st.hour >= 0 && st.minute >= 0 && st.second >= 0
    ensures Format([item], st) == ItemText(item, st)
  {
    assert [item][1..] == [];
  }

  /** A two-item format writes the two texts in order. */
  lemma FormatTwo(a: FormatItem, b: FormatItem, st: Stamp)
    requires st.date.year >= 0 && st.date.month >= 0 && st.date.day >= 0
    requires st.hour >= 0 && st.minute >= 0 && st.second >= 0
    ensures Format([a, b], st) == ItemText(a, st) + ItemText(b, st)
  {
    assert [a, b][1..] == [b];
    FormatOne(b, st);
  }

  /** A three-item format writes the three texts in order. */
  lemma FormatThree(a: FormatItem, b: FormatItem, c: FormatItem, st: Stamp)
    requires st.date.year >= 0 && st.date.month >= 0 && st.date.day >= 0
    requires st.hour >= 0 && st.minute >= 0 && st.second >= 0
    ensures Format([a, b, c], st) == ItemText(a, st) + ItemText(b, st) + ItemText(c, st)
  {
    assert [a, b, c][1..] == [b, c];
    FormatTwo(b, c, st);
  }

  // ---------------------------------------------------------------------------
  // Round trips
  // ---------------------------------------------------------------------------

  /** A number below 100, padded to two digits, spells its tens and its units. */
  lemma PaddedTwo(n: nat)
    requires n < 100
    ensures |Padded(n, 2)| == 2
    ensures IsDigit(Padded(n, 2)[0]) && DigitValue(Padded(n, 2)[0]) == n / 10
    ensures IsDigit(Padded(n, 2)[1]) && DigitValue(Padded(n, 2)[1]) == n % 10
  {
    var p := Padded(n, 2);
    PaddedExact(n, 2);
    assert p[..1][..0] == [];
    assert DigitsValue(p) == 10 * DigitValue(p[0]) + DigitValue(p[1]);
  }

  /** A padded two-digit value in the directive's range is matched whole by its first alternatives. */
  lemma MatchPaddedTwo(f: Field, s: string, i: nat, v: nat)
    requires f != Year && FieldRange(f, v) && v < 60
    requires f == Day ==> v >= 1
    requires i + 2 <= |s| && s[i..i + 2] == Padded(v, 2)
    ensures MatchField(f, s, i) == Some((v, 2))
  {
    PaddedTwo(v);
    assert s[i] == Padded(v, 2)[0] && s[i + 1] == Padded(v, 2)[1];
  }

  lemma MatchPaddedYear(s: string, i: nat, y: nat)
    requires y <= 9999
    requires i + 4 <= |s| && s[i..i + 4] == Padded(y, 4)
    ensures MatchField(Year, s, i) == Some((y, 4))
  {
    assert Pow10(4) == 10000;
    PaddedExact(y, 4);
  }

  /** `d.strftime("%Y-%m-%d")` is the program's stored date text. */
  lemma FormatDate(d: Date)
    requires ValidDate(d)
    ensures Format(DashDate, Stamp(d, 0, 0, 0)) == DateString(d)
  {
    FormatDashDate(Stamp(d, 0, 0, 0));
    DateStringText(d);
  }

  /** `%Y-%m-%d` writes the padded year, month and day with dashes between. */
  lemma FormatDashDate(st: Stamp)
    requires st.date.year >= 0 && st.date.month >= 0 && st.date.day >= 0
    requires st.hour >= 0 && st.minute >= 0 && st.second >= 0
    ensures Format(DashDate, st) == Padded(st.date.year, 4) + "-" + Padded(st.date.month, 2) + "-" + Padded(st.date.day, 2)
  {
    var dash := Literal('-');
    assert DashDate == [Directive(Year), dash, Directive(Month)] + [dash, Directive(Day)];
    FormatAppend([Directive(Year), dash, Directive(Month)], [dash, Directive(Day)], st);
    FormatThree(Directive(Year), dash, Directive(Month), st);
    FormatTwo(dash, Directive(Day), st);
  }

  /** A literal item consumes its one character. */
  lemma MatchLiteralStep(items: seq<FormatItem>, s: string, i: nat, acc: Fields)
    requires |items| > 0 && items[0].Literal? && i < |s| && s[i] == items[0].c
    ensures MatchItems(items, s, i, acc) == MatchItems(items[1..], s, i + 1, acc)
  {
  }

  /** A directive item consumes what its field matched and records the value. */
  lemma MatchDirectiveStep(items: seq<FormatItem>, s: string, i: nat, acc: Fields, v: nat, n: nat)
    requires |items| > 0 && items[0].Directive? && MatchField(items[0].field, s, i) == Some((v, n))
    ensures MatchItems(items, s, i, acc) == MatchItems(items[1..], s, i + n, Assign(acc, items[0].field, v))
  {
  }

  /** The `%Y-%m-%d` items match the first ten characters of any text that starts with a stored date. */
  lemma MatchDashDate(t: string, d: Date)
    requires ValidDate(d) && StartsWith(t, DateString(d))
    ensures |DateString(d)| == 10
    ensures MatchItems(DashDate, t, 0, Defaults) == Some((Fields(d.year, d.month, d.day, 0, 0, 0), 10))
  {
    DateTextAt(t, d);
    var f1 := Defaults.(year := d.year);
    var f2 := f1.(month := d.month);
    var f3 := f2.(day := d.day);
    var items := DashDate;
    MatchPaddedYear(t, 0, d.year);
    MatchDirectiveStep(items, t, 0, Defaults, d.year, 4);
    MatchLiteralStep(items[1..], t, 4, f1);
    MatchPaddedTwo(Month, t, 5, d.month);
    MatchDirectiveStep(items[2..], t, 5, f1, d.month, 2);
    MatchLiteralStep(items[3..], t, 7, f2);
    MatchPaddedTwo(Day, t, 8, d.day);
    MatchDirectiveStep(items[4..], t, 8, f2, d.day, 2);
    assert items[1..][1..] == items[2..] && items[2..][1..] == items[3..];
    assert items[3..][1..] == items[4..] && items[4..][1..] == [];
  }

  /** Where a text starts with a stored date, its first ten characters spell the padded fields. */
  lemma DateTextAt(t: string, d: Date)
    requires ValidDate(d) && StartsWith(t, DateString(d))
    ensures |DateString(d)| == 10 && |t| >= 10
    ensures t[0..4] == Padded(d.year, 4) && t[4] == '-'
    ensures t[5..7] == Padded(d.month, 2) && t[7] == '-' && t[8..10] == Padded(d.day, 2)
  {
    var s := DateString(d);
    var y := Padded(d.year, 4);
    var m := Padded(d.month, 2);
    var dd := Padded(d.day, 2);
    DateStringText(d);
    assert Pow10(4) == 10000;
    PaddedExact(d.year, 4);
    PaddedTwo(d.month);
    PaddedTwo(d.day);
    assert |s| == 10 && t[..10] == s;
    assert s[0..4] == y && s[5..7] == m && s[8..10] == dd;
  }

  /** `strptime(d.strftime("%Y-%m-%d"), "%Y-%m-%d")` gives the date back at midnight. */
  lemma ParseDateString(d: Date)
    requires ValidDate(d)
    ensures Parse(DashDate, DateString(d)) == Some(Stamp(d, 0, 0, 0))
  {
    MatchDashDate(DateString(d), d);
  }

  /** Text with anything after a complete date is rejected ("unconverted data remains"). */
  lemma ParseRejectsTrailing(d: Date, extra: string)
    requires ValidDate(d) && |extra| > 0
    ensures Parse(DashDate, DateString(d) + extra) == None
  {
    var t := DateString(d) + extra;
    MatchDashDate(t, d);
  }
}
