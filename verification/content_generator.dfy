/**
 * The text transforms of the portfolio's content generator: summarising to a
 * length, taking the first paragraph, reformatting a date and listing the
 * packages of a requirements file, and the two entry points that pick a
 * transform by name.
 */
module ContentGenerator {
  import opened Wrappers
  import opened Text
  import opened Strptime
  import opened Seqs
  import Calendar
  import GitHistory

  // ---------------------------------------------------------------------------
  // Python slicing and splitting
  // ---------------------------------------------------------------------------

  /** Python's `s[:n]`: a negative `n` counts from the end. */
  function Prefix(s: string, n: int): (r: string)
    ensures |r| <= |s| && r == s[..|r|]
    ensures n >= 0 ==> |r| == if n <= |s| then n else |s|
    ensures n < 0 ==> |r| == if |s| + n >= 0 then |s| + n else 0
  {
    if n >= 0 then (if n <= |s| then s[..n] else s)
    else if |s| + n >= 0 then s[..|s| + n] else ""
  }

  /**
   * Splitting at every character that satisfies `isSep`, as `re.split` does
   * with a one-character class: one more part than there are separators,
   * and no part holds a separator.
   */
  function SplitWhere(s: string, isSep: char -> bool): (r: seq<string>)
    ensures |r| == 1 + |Filter(s, isSep)|
    ensures forall k, i :: 0 <= k < |r| && 0 <= i < |r[k]| ==> !isSep(r[k][i])
  {
    if s == [] then [""]
    else
      var rest := SplitWhere(s[1..], isSep);
      if isSep(s[0]) then [""] + rest else [[s[0]] + rest[0]] + rest[1..]
  }

  // ---------------------------------------------------------------------------
  // summarize_to_length
  // ---------------------------------------------------------------------------

  /**
   * The paragraph loop of `summarize_to_length`: a paragraph is kept whole
   * while the running length plus its length plus two stays within
   * `maxChars`; the first one that does not fit is cut to what remains and
   * marked with `...` when more than `minChars // 2` remains, and the loop
   * stops.
   */
  function KeepParagraphs(paras: seq<string>, current: int, maxChars: int, minChars: int): (r: seq<string>)
    ensures |r| <= |paras|
    ensures forall i :: 0 <= i < |r| - 1 ==> r[i] == paras[i]
    ensures |r| > 0 ==> r[|r| - 1] == paras[|r| - 1] || EndsWith(r[|r| - 1], "...")
  {
    if paras == [] then []
    else if current + |paras[0]| + 2 <= maxChars then
      [paras[0]] + KeepParagraphs(paras[1..], current + |paras[0]| + 2, maxChars, minChars)
    else
      var remaining := maxChars - current - 2;
      if remaining > minChars / 2 then [Prefix(paras[0], remaining) + "..."] else []
  }

  /**
   * `TextTransformer.summarize_to_length`: text within `maxChars` comes back
   * as it is; otherwise the kept paragraphs are joined with blank lines, and
   * a summary shorter than `minChars` is replaced by the first `maxChars`
   * characters followed by `...`.
   */
  function Summarize(text: string, maxChars: int, minChars: int): (r: string)
    ensures |text| <= maxChars ==> r == text
  {
    if |text| <= maxChars then text
    else
      var summary := Join(KeepParagraphs(Split(text, "\n\n"), 0, maxChars, minChars), "\n\n");
      // the text is longer than `maxChars` here, so the source's own length test always cuts
      if |summary| < minChars then Prefix(text, maxChars) + "..." else summary
  }

  /** The kept paragraphs, joined, run at most one character past what the loop had left: the `...` is not budgeted. */
  lemma {:induction false} KeepParagraphsBound(paras: seq<string>, current: int, maxChars: int, minChars: int)
    requires minChars >= 0
    ensures var r := KeepParagraphs(paras, current, maxChars, minChars);
      r != [] ==> current + |Join(r, "\n\n")| <= maxChars + 1
    decreases |paras|
  {
    var r := KeepParagraphs(paras, current, maxChars, minChars);
    if paras == [] {
    } else if current + |paras[0]| + 2 <= maxChars {
      var next := current + |paras[0]| + 2;
      var rest := KeepParagraphs(paras[1..], next, maxChars, minChars);
      KeepParagraphsBound(paras[1..], next, maxChars, minChars);
      assert r == [paras[0]] + rest;
      if rest == [] {
        assert Join(r, "\n\n") == paras[0];
      } else {
        assert r[1..] == rest;
        assert Join(r, "\n\n") == paras[0] + "\n\n" + Join(rest, "\n\n");
      }
    } else {
      var remaining := maxChars - current - 2;
      if remaining > minChars / 2 {
        var cut := Prefix(paras[0], remaining) + "...";
        assert r == [cut];
        assert Join(r, "\n\n") == cut;
      }
    }
  }

  /**
   * With non-negative limits the summary is at most three characters longer
   * than `maxChars`: the appended `...` is the only overrun.
   */
  lemma SummarizeBound(text: string, maxChars: int, minChars: int)
    requires maxChars >= 0 && minChars >= 0
    ensures |Summarize(text, maxChars, minChars)| <= maxChars + 3
  {
    KeepParagraphsBound(Split(text, "\n\n"), 0, maxChars, minChars);
  }

  // ---------------------------------------------------------------------------
  // first_paragraph
  // ---------------------------------------------------------------------------

  /** The sentence ends `re.split(r"[。．\.\n]", ...)` cuts at. */
  predicate SentenceEnd(c: char) {
    c == '。' || c == '．' || c == '.' || c == '\n'
  }

  /** The sentence loop: whole sentences, each followed by `。`, while the running length plus the next sentence fits. */
  function Accumulate(sentences: seq<string>, result: string, maxChars: int): (r: string)
    ensures StartsWith(r, result)
  {
    if sentences == [] then result
    else if |result| + |sentences[0]| <= maxChars then
      var next := result + sentences[0] + "。";
      assert StartsWith(next, result) by { assert next[..|result|] == result; }
      Accumulate(sentences[1..], next, maxChars)
    else result
  }

  /** The first paragraph of `text`, stripped. */
  function Lead(text: string): string {
    Strip(Split(text, "\n\n")[0])
  }

  /**
   * `TextTransformer.first_paragraph`: the stripped first paragraph when it
   * fits; otherwise the whole sentences that fit, cut to `maxChars`, or the
   * paragraph cut to `maxChars` when not even the first sentence fits.
   * `str.split` never returns an empty list, so the source's final fallback
   * is unreachable and left out.
   */
  function FirstParagraph(text: string, maxChars: int): (r: string)
    ensures |Lead(text)| <= maxChars ==> r == Lead(text)
    ensures maxChars >= 0 ==> |r| <= maxChars
  {
    var first := Lead(text);
    if |first| > maxChars then
      var result := Accumulate(SplitWhere(first, SentenceEnd), "", maxChars);
      if result != "" then Prefix(result, maxChars) else Prefix(first, maxChars)
    else first
  }

  /** Text that is one stripped paragraph within the limit comes back unchanged. */
  lemma FirstParagraphKeeps(text: string, maxChars: int)
    requires |text| <= maxChars && !Contains(text, "\n\n")
    requires |text| > 0 ==> !IsSpace(text[0]) && !IsSpace(text[|text| - 1])
    ensures FirstParagraph(text, maxChars) == text
  {
    FindNoneNotContains(text, "\n\n");
    assert Split(text, "\n\n") == [text];
    StripNoSpace(text);
  }

  /** When a first sentence fits, the result starts with it, followed by `。` unless the cut falls right after it. */
  lemma FirstSentenceKept(text: string, maxChars: int)
    requires |Lead(text)| > maxChars >= 0
    requires |SplitWhere(Lead(text), SentenceEnd)[0]| <= maxChars
    ensures StartsWith(FirstParagraph(text, maxChars), SplitWhere(Lead(text), SentenceEnd)[0])
  {
    var ss := SplitWhere(Lead(text), SentenceEnd);
    var s0 := ss[0];
    var next := "" + s0 + "。";
    assert Accumulate(ss, "", maxChars) == Accumulate(ss[1..], next, maxChars);
    var acc := Accumulate(ss, "", maxChars);
    assert StartsWith(acc, next);
    assert acc != "";
    var r := Prefix(acc, maxChars);
    assert r == acc[..|r|];
    assert |r| >= |s0|;
    assert r[..|s0|] == acc[..|s0|] == next[..|s0|] == s0;
  }

  // ---------------------------------------------------------------------------
  // date_format
  // ---------------------------------------------------------------------------

  /** The formats `date_format` tries, in order. */
  const DateFormats: seq<seq<FormatItem>> := [DashDate, SlashDate, DashDateTime, SlashDateTime]

  /** The first of `formats` that parses the text. */
  function ParseFirst(formats: seq<seq<FormatItem>>, s: string): (r: Option<Stamp>)
    ensures r.None? <==> forall k :: 0 <= k < |formats| ==> Parse(formats[k], s).None?
    ensures r.Some? ==> exists k :: 0 <= k < |formats| && Parse(formats[k], s) == r
                                  && forall j :: 0 <= j < k ==> Parse(formats[j], s).None?
  {
    if formats == [] then None
    else match Parse(formats[0], s)
      case Some(st) => Some(st)
      case None => ParseFirst(formats[1..], s)
  }

  /**
   * `TextTransformer.date_format`: the text rendered in `format` from the
   * first of the four formats that parses it, or unchanged when none does.
   */
  function DateFormat(s: string, format: seq<FormatItem>): (r: string)
    ensures (forall k :: 0 <= k < |DateFormats| ==> Parse(DateFormats[k], s).None?) ==> r == s
  {
    match ParseFirst(DateFormats, s)
    case None => s
    case Some(st) => Format(format, st)
  }

  /** A stored `YYYY-MM-DD` date is read by the first format. */
  lemma DateFormatOfStored(d: Calendar.Date, format: seq<FormatItem>)
    requires Calendar.ValidDate(d)
    ensures DateFormat(Calendar.DateString(d), format) == Format(format, Stamp(d, 0, 0, 0))
  {
    ParseDateString(d);
  }

  /**
   * Whatever the commit history's date conversion reads, the date transform
   * reads the same way and renders the same in the default format; the
   * transform reads more (slashes, a time of day) where the history leaves
   * the text as it is.
   */
  lemma DateFormatExtendsPortfolioDate(s: string)
    ensures Parse(DashDate, s).Some? ==> DateFormat(s, KanjiDate) == GitHistory.PortfolioDate(s)
    ensures DateFormat(s, KanjiDate) != s ==> ParseFirst(DateFormats, s).Some?
  {
    assert DateFormats[0] == DashDate;
  }

  // ---------------------------------------------------------------------------
  // extract_technologies
  // ---------------------------------------------------------------------------

  /** The names left out when no list is given. */
  const DefaultExclude: seq<string> := ["pytest", "pytest-cov", "ruff", "black", "mypy"]

  /**
   * The line boundaries of `str.splitlines`. Blank lines are skipped below,
   * so cutting `\r\n` twice and keeping a trailing empty line change nothing.
   */
  predicate LineBreak(c: char) {
    c == '\n' || c == '\r' || c == '\U{000B}' || c == '\U{000C}' || c == '\U{001C}' || c == '\U{001D}'
    || c == '\U{001E}' || c == '\U{0085}' || c == '\U{2028}' || c == '\U{2029}'
  }

  /**
   * The package a requirements line names: `None` for a blank or `#` line
   * and for an empty name; otherwise the stripped text before the first
   * `>=`, then `==`, then `<`, then `~`.
   */
  function PackageOf(line: string): (r: Option<string>)
    ensures r.Some? ==> r.value != ""
  {
    var l := Strip(line);
    if StartsWith(l, "#") || l == "" then None
    else
      var p := Strip(VersionCut(l));
      if p == "" then None else Some(p)
  }

  /** A prefix of text without `sub` is without it too. */
  lemma PrefixNotContains(s: string, r: string, sub: string)
    requires StartsWith(s, r) && !Contains(s, sub)
    ensures !Contains(r, sub)
  {
    assert r == s[..|r|];
    SliceNotContains(s, 0, |r|, sub);
  }

  /** The text before the first `>=`, then before the first `==`, `<` and `~` in turn. */
  function VersionCut(l: string): (r: string)
    ensures StartsWith(l, r)
  {
    var b1 := BeforeFirst(l, ">=");
    var b2 := BeforeFirst(b1, "==");
    var b3 := BeforeFirst(b2, "<");
    var b4 := BeforeFirst(b3, "~");
    assert b4 == b3[..|b4|] && b3 == b2[..|b3|] && b2 == b1[..|b2|] && b1 == l[..|b1|];
    assert b4 == l[..|b4|];
    b4
  }

  /** Each cut removes its operator, and the later cuts keep the earlier ones out. */
  lemma VersionCutClean(l: string)
    ensures var r := VersionCut(l);
      !Contains(r, ">=") && !Contains(r, "==") && !Contains(r, "<") && !Contains(r, "~")
  {
    var b1 := BeforeFirst(l, ">=");
    var b2 := BeforeFirst(b1, "==");
    var b3 := BeforeFirst(b2, "<");
    var b4 := BeforeFirst(b3, "~");
    PrefixNotContains(b1, b2, ">=");
    PrefixNotContains(b2, b3, ">=");
    PrefixNotContains(b3, b4, ">=");
    PrefixNotContains(b2, b3, "==");
    PrefixNotContains(b3, b4, "==");
    PrefixNotContains(b3, b4, "<");
  }

  /** Stripping never brings in a substring. */
  lemma StripNotContains(s: string, sub: string)
    requires !Contains(s, sub)
    ensures !Contains(Strip(s), sub)
  {
    SliceNotContains(s, LeadingSpace(s), LeadingSpace(s) + |Strip(s)|, sub);
  }

  /** A package name carries no version specifier: none of `>=`, `==`, `<` or `~` survives the cuts. */
  lemma PackageHasNoVersion(line: string)
    requires PackageOf(line).Some?
    ensures var p := PackageOf(line).value;
      !Contains(p, ">=") && !Contains(p, "==") && !Contains(p, "<") && !Contains(p, "~")
  {
    var cut := VersionCut(Strip(line));
    VersionCutClean(Strip(line));
    StripNotContains(cut, ">=");
    StripNotContains(cut, "==");
    StripNotContains(cut, "<");
    StripNotContains(cut, "~");
  }

  /** Whether `name` matches an entry of `exclude`, ignoring case. */
  predicate Excluded(name: string, exclude: seq<string>) {
    Lower(name) in LowerAll(exclude)
  }

  /** Every name of the list in lower case. */
  function LowerAll(names: seq<string>): (r: seq<string>)
    ensures |r| == |names| && forall k :: 0 <= k < |names| ==> r[k] == Lower(names[k])
  {
    seq(|names|, k requires 0 <= k < |names| => Lower(names[k]))
  }

  /** The named packages, in order, minus the excluded ones. */
  function Listed(packages: seq<Option<string>>, exclude: seq<string>): (r: seq<string>)
    ensures |r| <= |packages|
  {
    if packages == [] then []
    else Kept(packages[0], exclude) + Listed(packages[1..], exclude)
  }

  /** What one line contributes: its package unless there is none or it is excluded. */
  function Kept(package: Option<string>, exclude: seq<string>): seq<string> {
    match package
    case Some(p) => if Excluded(p, exclude) then [] else [p]
    case None => []
  }

  /** The packages of the requirements lines, in order, minus the excluded ones. */
  function Technologies(lines: seq<string>, exclude: seq<string>): (r: seq<string>)
    ensures |r| <= |lines|
  {
    Listed(Map(lines, PackageOf), exclude)
  }

  /**
   * `TextTransformer.extract_technologies`: the kept package names joined
   * with `", "`; the default list applies only when no list is given.
   */
  function ExtractTechnologies(text: string, exclude: Option<seq<string>>): (r: string)
    ensures exclude.None? ==> r == Join(Technologies(SplitWhere(text, LineBreak), DefaultExclude), ", ")
    ensures exclude.Some? ==> r == Join(Technologies(SplitWhere(text, LineBreak), exclude.value), ", ")
  {
    Join(Technologies(SplitWhere(text, LineBreak), exclude.GetOr(DefaultExclude)), ", ")
  }

  /** A name is listed exactly when it is named and not excluded. */
  lemma {:induction false} ListedMembers(packages: seq<Option<string>>, exclude: seq<string>, name: string)
    ensures name in Listed(packages, exclude) <==> Some(name) in packages && !Excluded(name, exclude)
    decreases |packages|
  {
    if packages != [] {
      ListedMembers(packages[1..], exclude, name);
      assert packages == [packages[0]] + packages[1..];
    }
  }

  /** A name is listed exactly when some line names it and it is not excluded. */
  lemma TechnologiesMembers(lines: seq<string>, exclude: seq<string>, name: string)
    ensures name in Technologies(lines, exclude)
        <==> !Excluded(name, exclude) && exists k :: 0 <= k < |lines| && PackageOf(lines[k]) == Some(name)
  {
    var ps := Map(lines, PackageOf);
    ListedMembers(ps, exclude, name);
    if Some(name) in ps {
      var k :| 0 <= k < |ps| && ps[k] == Some(name);
      assert PackageOf(lines[k]) == Some(name);
    }
  }

  /** Every listed name is a real package name that is not excluded. */
  lemma TechnologiesClean(lines: seq<string>, exclude: seq<string>, name: string)
    requires name in Technologies(lines, exclude)
    ensures name != "" && !Excluded(name, exclude)
  {
    TechnologiesMembers(lines, exclude, name);
  }

  /** Each stretch of packages is listed on its own: the list for two stretches is their lists one after the other. */
  lemma {:induction false} ListedAppend(a: seq<Option<string>>, b: seq<Option<string>>, exclude: seq<string>)
    ensures Listed(a + b, exclude) == Listed(a, exclude) + Listed(b, exclude)
    decreases |a|
  {
    if a == [] {
      assert a + b == b;
    } else {
      ListedAppend(a[1..], b, exclude);
      assert (a + b)[0] == a[0] && (a + b)[1..] == a[1..] + b;
      var k := Kept(a[0], exclude);
      assert Listed(a + b, exclude) == k + (Listed(a[1..], exclude) + Listed(b, exclude));
      assert Listed(a, exclude) == k + Listed(a[1..], exclude);
    }
  }

  /** Lines are read independently and in order: the list for two blocks of lines is the two lists one after the other. */
  lemma TechnologiesAppend(a: seq<string>, b: seq<string>, exclude: seq<string>)
    ensures Technologies(a + b, exclude) == Technologies(a, exclude) + Technologies(b, exclude)
  {
    MapAppend(a, b, PackageOf);
    ListedAppend(Map(a, PackageOf), Map(b, PackageOf), exclude);
  }

  /** With an empty list nothing is excluded: every named package is kept. */
  lemma NothingExcluded(lines: seq<string>, k: int)
    requires 0 <= k < |lines| && PackageOf(lines[k]).Some?
    ensures PackageOf(lines[k]).value in Technologies(lines, [])
  {
    TechnologiesMembers(lines, [], PackageOf(lines[k]).value);
  }

  // ---------------------------------------------------------------------------
  // Choosing a transform
  // ---------------------------------------------------------------------------

  /** The transforms known by name; `Unknown` is any other name. */
  datatype Transform = SummarizeToLength | TakeFirstParagraph | ReformatDate | ListTechnologies | Unknown

  /** The transform a configuration name selects. */
  function TransformNamed(name: string): (r: Transform)
    ensures r == SummarizeToLength <==> name == "summarize_to_length"
    ensures r == TakeFirstParagraph <==> name == "first_paragraph"
    ensures r == ReformatDate <==> name == "date_format"
    ensures r == ListTechnologies <==> name == "extract_technologies"
  {
    if name == "summarize_to_length" then SummarizeToLength
    else if name == "first_paragraph" then TakeFirstParagraph
    else if name == "date_format" then ReformatDate
    else if name == "extract_technologies" then ListTechnologies
    else Unknown
  }

  /** Python's `x or default` for an optional integer: absent and zero both give the default. */
  function OrDefault(x: Option<int>, default: int): (r: int)
    ensures x.Some? && x.value != 0 ==> r == x.value
    ensures x.None? || x.value == 0 ==> r == default
  {
    if x.None? || x.value == 0 then default else x.value
  }

  /** One file of the context under its heading line. */
  function FileBlock(file: (string, string)): string {
    "=== " + file.0 + " ===\n" + file.1
  }

  /** `"=== path ===\ncontent"` for every file of the context, in order, separated by blank lines. */
  function AllContent(context: seq<(string, string)>): (r: string)
    ensures |context| == 0 ==> r == ""
    ensures |context| == 1 ==> r == FileBlock(context[0])
    ensures forall k :: 0 <= k < |context| ==> Contains(r, FileBlock(context[k]))
  {
    var blocks := seq(|context|, k requires 0 <= k < |context| => FileBlock(context[k]));
    assert forall k :: 0 <= k < |context| ==> Contains(Join(blocks, "\n\n"), FileBlock(context[k])) by {
      forall k | 0 <= k < |context|
        ensures Contains(Join(blocks, "\n\n"), FileBlock(context[k]))
      {
        assert blocks[k] == FileBlock(context[k]);
        JoinContains(blocks, "\n\n", blocks[k]);
      }
    }
    Join(blocks, "\n\n")
  }

  /**
   * `ContentGenerator.generate_content`: the named transform on all the
   * context, `max_chars or` the transform's default, the exclusions of the
   * configuration (none when it names none); `date_format`, any other name
   * and no name at all take the first paragraph.
   */
  function GenerateContent(context: seq<(string, string)>, transform: Option<Transform>, maxChars: Option<int>,
                           configExclude: Option<seq<string>>): (r: string)
    ensures transform != Some(SummarizeToLength) && transform != Some(ListTechnologies) ==>
      r == FirstParagraph(AllContent(context), OrDefault(maxChars, 50))
    ensures transform == Some(SummarizeToLength) ==> r == Summarize(AllContent(context), OrDefault(maxChars, 500), 200)
    ensures transform == Some(ListTechnologies) ==>
      r == Join(Technologies(SplitWhere(AllContent(context), LineBreak), configExclude.GetOr([])), ", ")
  {
    var all := AllContent(context);
    match transform
    case Some(SummarizeToLength) => Summarize(all, OrDefault(maxChars, 500), 200)
    case Some(ListTechnologies) => ExtractTechnologies(all, Some(configExclude.GetOr([])))
    case _ => FirstParagraph(all, OrDefault(maxChars, 50))
  }

  /** The settings of one transform; `None` where the key is absent. */
  datatype TransformConfig = TransformConfig(
    maxChars: Option<int>,
    minChars: Option<int>,
    format: Option<seq<FormatItem>>,
    exclude: Option<seq<string>>)

  const NoConfig: TransformConfig := TransformConfig(None, None, None, None)

  /**
   * `ContentGenerator.apply_transform`: the named transform with the
   * configured values, or their defaults where a key is absent; an unknown
   * name returns the text.
   */
  function ApplyTransform(text: string, transform: Transform, config: TransformConfig): (r: string)
    ensures transform == Unknown ==> r == text
    ensures transform == ListTechnologies ==>
      r == Join(Technologies(SplitWhere(text, LineBreak), config.exclude.GetOr([])), ", ")
    ensures transform == ReformatDate && config.format.None? ==> r == DateFormat(text, KanjiDate)
    ensures transform == ReformatDate ==> r == DateFormat(text, config.format.GetOr(KanjiDate))
    ensures transform == SummarizeToLength ==> r == Summarize(text, config.maxChars.GetOr(500), config.minChars.GetOr(200))
    ensures transform == TakeFirstParagraph ==> r == FirstParagraph(text, config.maxChars.GetOr(50))
  {
    match transform
    case SummarizeToLength => Summarize(text, config.maxChars.GetOr(500), config.minChars.GetOr(200))
    case TakeFirstParagraph => FirstParagraph(text, config.maxChars.GetOr(50))
    case ReformatDate => DateFormat(text, config.format.GetOr(KanjiDate))
    case ListTechnologies => ExtractTechnologies(text, Some(config.exclude.GetOr([])))
    case Unknown => text
  }

  /**
   * For a non-zero limit the two entry points agree on the length transforms
   * (generating always uses the default minimum of 200); a zero limit is the
   * default for `generate_content` but a real limit for `apply_transform`.
   */
  lemma EntryPointsAgree(context: seq<(string, string)>, t: Transform, m: int)
    requires t == TakeFirstParagraph || t == SummarizeToLength || t == ListTechnologies
    ensures m != 0 ==> (GenerateContent(context, Some(t), Some(m), None)
                        == ApplyTransform(AllContent(context), t, NoConfig.(maxChars := Some(m))))
    ensures GenerateContent(context, Some(TakeFirstParagraph), Some(0), None) == FirstParagraph(AllContent(context), 50)
    ensures ApplyTransform(AllContent(context), TakeFirstParagraph, NoConfig.(maxChars := Some(0)))
         == FirstParagraph(AllContent(context), 0)
  {
  }

  /** Without a configured list neither entry point excludes anything: every named package is listed. */
  lemma EntryPointsKeepEverything(context: seq<(string, string)>, maxChars: Option<int>, k: int)
    requires var lines := SplitWhere(AllContent(context), LineBreak);
      0 <= k < |lines| && PackageOf(lines[k]).Some?
    ensures var lines := SplitWhere(AllContent(context), LineBreak);
      Contains(GenerateContent(context, Some(ListTechnologies), maxChars, None), PackageOf(lines[k]).value)
  {
    var lines := SplitWhere(AllContent(context), LineBreak);
    var ts := Technologies(lines, []);
    NothingExcluded(lines, k);
    JoinContains(ts, ", ", PackageOf(lines[k]).value);
  }
}
