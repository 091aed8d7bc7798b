/**
 * The text side of the portfolio's git history reader: the parser for the
 * output of `git log --pretty=format:%H|%ai|%an|%s| --name-only`, grouping
 * commits by day, sorting changed files into categories, and the portfolio's
 * date style. Running `git` itself is outside the model; its output is the
 * parser's input.
 */
module GitHistory {
  import opened Wrappers
  import opened Text
  import opened Calendar
  import opened Strptime
  import opened Seqs

  /** `CommitInfo`: one commit and the paths it changed. */
  datatype Commit = Commit(hash: string, date: string, author: string, message: string, files: seq<string>)

  /** No character of `s` is `c`. */
  predicate Free(s: string, c: char) {
    forall i :: 0 <= i < |s| ==> s[i] != c
  }

  lemma FreeNotContains(s: string, c: char)
    requires Free(s, c)
    ensures !Contains(s, [c])
  {
    forall i | 0 <= i <= |s| - 1
      ensures !OccursAt(s, [c], i)
    {
      assert s[i..i + 1][0] == s[i];
    }
  }

  // ---------------------------------------------------------------------------
  // The log parser
  // ---------------------------------------------------------------------------

  /** Each line stripped, as the loop strips every line it reads. */
  function StripAll(lines: seq<string>): (r: seq<string>)
    ensures |r| == |lines|
    ensures forall k :: 0 <= k < |lines| ==> r[k] == Strip(lines[k])
  {
    seq(|lines|, k requires 0 <= k < |lines| => Strip(lines[k]))
  }

  /** A line the loop reads as a commit header: one with at least four `|`-fields. */
  predicate IsHeader(line: string) {
    |Split(line, "|")| >= 4
  }

  /**
   * How many lines at the start of `lines` are the file list of a commit:
   * the non-empty lines up to the first empty one. With `headerEnds`, as
   * in the corrected parser, a header line ends the list too.
   */
  function FileRun(lines: seq<string>, headerEnds: bool): (n: nat)
    ensures n <= |lines|
    ensures forall k :: 0 <= k < n ==> lines[k] != "" && !(headerEnds && IsHeader(lines[k]))
    ensures n < |lines| ==> lines[n] == "" || (headerEnds && IsHeader(lines[n]))
  {
    if lines == [] || lines[0] == "" || (headerEnds && IsHeader(lines[0])) then 0
    else 1 + FileRun(lines[1..], headerEnds)
  }

  /**
   * The commit message from the `|`-fields of a header: fields 3 onward
   * joined back with `|`. `dropTrailing` removes the one `|` that the
   * pretty format adds after the subject.
   */
  function MessageOf(parts: seq<string>, dropTrailing: bool): (r: string)
    requires |parts| >= 4
  {
    var m := Join(parts[3..], "|");
    if dropTrailing && EndsWith(m, "|") then m[..|m| - 1] else m
  }

  /**
   * The loop of `get_git_commits` over the stripped output lines. An empty
   * line is skipped; so is a line with fewer than four `|`-fields.
   * Otherwise the line is a header and the following non-empty lines are
   * its files. As written (`headerEnds` false) the line after the files is
   * consumed too, whatever it is. The corrected loop (`headerEnds` true)
   * also ends the files at a header line and consumes nothing after them,
   * leaving a blank line to the outer skip.
   */
  function ParseLines(lines: seq<string>, dropTrailing: bool, headerEnds: bool): (r: seq<Commit>)
    ensures |r| <= |lines|
    ensures forall k :: 0 <= k < |r| ==>
      !Contains(r[k].hash, "|") && !Contains(r[k].date, "|") && !Contains(r[k].author, "|")
    ensures forall k, j :: 0 <= k < |r| && 0 <= j < |r[k].files| ==> r[k].files[j] != ""
    decreases |lines|
  {
    if lines == [] then []
    else
      var line := lines[0];
      if line == "" then ParseLines(lines[1..], dropTrailing, headerEnds)
      else
        var parts := Split(line, "|");
        if |parts| < 4 then ParseLines(lines[1..], dropTrailing, headerEnds)
        else
          var n := FileRun(lines[1..], headerEnds);
          var next := if headerEnds then n + 1 else if n + 2 <= |lines| then n + 2 else |lines|;
          [Commit(parts[0], parts[1], parts[2], MessageOf(parts, dropTrailing), lines[1..n + 1])]
            + ParseLines(lines[next..], dropTrailing, headerEnds)
  }

  /**
   * The parser as written: the output is stripped, split into lines and
   * each line stripped; messages keep the format's trailing `|`, and the
   * line after a commit's files is always consumed.
   */
  function ParseLogAsWritten(stdout: string): (r: seq<Commit>)
    ensures |r| <= |Split(Strip(stdout), "\n")|
    ensures forall k :: 0 <= k < |r| ==>
      !Contains(r[k].hash, "|") && !Contains(r[k].date, "|") && !Contains(r[k].author, "|")
    ensures forall k, j :: 0 <= k < |r| && 0 <= j < |r[k].files| ==> r[k].files[j] != ""
  {
    ParseLines(StripAll(Split(Strip(stdout), "\n")), false, false)
  }

  /**
   * The corrected parser: the format's trailing `|` is removed from each
   * message, and a commit's files end at a header line as well as at an
   * empty one.
   */
  function ParseLog(stdout: string): (r: seq<Commit>)
    ensures |r| <= |Split(Strip(stdout), "\n")|
    ensures forall k :: 0 <= k < |r| ==>
      !Contains(r[k].hash, "|") && !Contains(r[k].date, "|") && !Contains(r[k].author, "|")
    ensures forall k, j :: 0 <= k < |r| && 0 <= j < |r[k].files| ==> r[k].files[j] != ""
  {
    ParseLines(StripAll(Split(Strip(stdout), "\n")), true, true)
  }

  // ---------------------------------------------------------------------------
  // What git prints, and the round trip
  // ---------------------------------------------------------------------------

  /** The header line the pretty format `%H|%ai|%an|%s|` prints for a commit. */
  function HeaderLine(c: Commit): string {
    c.hash + "|" + (c.date + "|" + (c.author + "|" + (c.message + "|")))
  }

  /** The header followed by one line per changed file. */
  function CommitLines(c: Commit): seq<string> {
    [HeaderLine(c)] + c.files
  }

  /**
   * The lines `git log --name-only` prints: each commit's header and files,
   * with a blank line after a commit that changed files. A commit without
   * changed files (a merge, or an empty commit) is followed directly by the
   * next header.
   */
  function LogLines(cs: seq<Commit>): (r: seq<string>)
    ensures |cs| >= 1 ==> |r| >= 1 && r[0] == HeaderLine(cs[0])
  {
    if |cs| == 0 then []
    else if |cs| == 1 then CommitLines(cs[0])
    else CommitLines(cs[0]) + (if cs[0].files == [] then [] else [""]) + LogLines(cs[1..])
  }

  /** The whole output, ending in a newline; nothing for no commits. */
  function GitOutput(cs: seq<Commit>): string {
    if cs == [] then "" else Join(LogLines(cs), "\n") + "\n"
  }

  /**
   * A commit git can print so that the text reads back: a non-empty hash,
   * no `|` in the first three fields, no line break anywhere, and file
   * paths that are non-empty and neither start nor end with whitespace.
   */
  predicate Printable(c: Commit) {
    && |c.hash| > 0 && !IsSpace(c.hash[0])
    && Free(c.hash, '|') && Free(c.date, '|') && Free(c.author, '|')
    && Free(c.hash, '\n') && Free(c.date, '\n') && Free(c.author, '\n') && Free(c.message, '\n')
    && (forall j :: 0 <= j < |c.files| ==>
          |c.files[j]| > 0 && !IsSpace(c.files[j][0]) && !IsSpace(c.files[j][|c.files[j]| - 1]) && Free(c.files[j], '\n'))
  }

  /**
   * No changed path of the commit reads as a header, that is, none has
   * three or more `|`: the one case the corrected parser cannot tell a
   * file line from the next commit.
   */
  predicate NoHeaderFiles(c: Commit) {
    forall j :: 0 <= j < |c.files| ==> !IsHeader(c.files[j])
  }

  /** Every commit before the last changed some file, so git prints a blank line after each of them. */
  predicate BlankSeparated(cs: seq<Commit>) {
    forall k :: 0 <= k < |cs| - 1 ==> cs[k].files != []
  }

  /** What a parser reads back for a commit: the commit itself, or its message with a `|` appended. */
  function ReadBack(c: Commit, dropTrailing: bool): Commit {
    if dropTrailing then c else c.(message := c.message + "|")
  }

  /** A header splits into hash, date, author, the message's own fields and the empty field after the last `|`. */
  lemma HeaderSplits(c: Commit)
    requires Printable(c)
    ensures Strip(HeaderLine(c)) == HeaderLine(c)
    ensures Split(HeaderLine(c), "|") == [c.hash, c.date, c.author] + Split(c.message, "|") + [""]
  {
    var h := HeaderLine(c);
    assert h[0] == c.hash[0];
    StripNoSpace(h);
    HeaderJoins(c);
    HeaderFieldsFree(c);
    SplitJoinChar([c.hash, c.date, c.author] + Split(c.message, "|") + [""], "|");
  }

  /** Joining the header's fields with `|` prints the header. */
  lemma HeaderJoins(c: Commit)
    ensures Join([c.hash, c.date, c.author] + Split(c.message, "|") + [""], "|") == HeaderLine(c)
  {
    JoinSplit(c.message, "|");
    FieldsJoin(c.hash, c.date, c.author, Split(c.message, "|"));
  }

  /** Three fields, then some parts, then an empty field, joined with `|`. */
  lemma FieldsJoin(a: string, b: string, c: string, ms: seq<string>)
    requires |ms| >= 1
    ensures Join([a, b, c] + ms + [""], "|") == a + "|" + (b + "|" + (c + "|" + (Join(ms, "|") + "|")))
  {
    var tail := ms + [""];
    JoinSnoc(ms, "", "|");
    assert Join(tail, "|") == Join(ms, "|") + "|";
    JoinCons(c, tail, "|");
    JoinCons(b, [c] + tail, "|");
    JoinCons(a, [b] + ([c] + tail), "|");
    ConsThree(a, b, c, ms, "");
  }

  /** Three elements, a run and one more, regrouped from the front. */
  lemma ConsThree<T>(a: T, b: T, c: T, ms: seq<T>, z: T)
    ensures [a, b, c] + ms + [z] == [a] + ([b] + ([c] + (ms + [z])))
  {
    assert [a, b, c] == [a] + ([b] + [c]);
  }

  /** No field of a printable header contains `|`. */
  lemma HeaderFieldsFree(c: Commit)
    requires Printable(c)
    ensures var parts := [c.hash, c.date, c.author] + Split(c.message, "|") + [""];
      forall k :: 0 <= k < |parts| ==> !Contains(parts[k], "|")
  {
    var ms := Split(c.message, "|");
    var parts := [c.hash, c.date, c.author] + ms + [""];
    FreeNotContains(c.hash, '|');
    FreeNotContains(c.date, '|');
    FreeNotContains(c.author, '|');
    assert !Contains("", "|");
    forall k | 0 <= k < |parts|
      ensures !Contains(parts[k], "|")
    {
      if 3 <= k < |parts| - 1 {
        assert parts[k] == ms[k - 3];
      }
    }
  }

  /** The message read back from a printed header. */
  lemma HeaderMessage(c: Commit, dropTrailing: bool)
    requires Printable(c)
    ensures |Split(HeaderLine(c), "|")| >= 4
    ensures MessageOf(Split(HeaderLine(c), "|"), dropTrailing) == ReadBack(c, dropTrailing).message
  {
    HeaderSplits(c);
    var ms := Split(c.message, "|");
    var parts := Split(HeaderLine(c), "|");
    assert parts[3..] == ms + [""];
    JoinSplit(c.message, "|");
    JoinSnoc(ms, "", "|");
    var m := Join(parts[3..], "|");
    assert m == c.message + "|";
    assert EndsWith(m, "|");
    assert m[..|m| - 1] == c.message;
  }

  /**
   * A commit's files form the whole run after its header when they are
   * followed by an empty line or nothing, or, for the corrected parser,
   * by a header.
   */
  lemma {:induction false} FileRunOf(files: seq<string>, rest: seq<string>, headerEnds: bool)
    requires forall j :: 0 <= j < |files| ==> files[j] != "" && !(headerEnds && IsHeader(files[j]))
    requires rest == [] || rest[0] == "" || (headerEnds && IsHeader(rest[0]))
    ensures FileRun(files + rest, headerEnds) == |files|
    decreases |files|
  {
    if files == [] {
      assert files + rest == rest;
    } else {
      FileRunOf(files[1..], rest, headerEnds);
      assert (files + rest)[1..] == files[1..] + rest;
    }
  }

  /** A printed header yields the commit's hash, date and author and the message as each parser reads it. */
  lemma HeaderParsed(c: Commit, dropTrailing: bool)
    requires Printable(c)
    ensures var parts := Split(HeaderLine(c), "|");
      && |parts| >= 4 && parts[0] == c.hash && parts[1] == c.date && parts[2] == c.author
      && MessageOf(parts, dropTrailing) == ReadBack(c, dropTrailing).message
  {
    HeaderMessage(c, dropTrailing);
    HeaderSplits(c);
    FieldsAt(c.hash, c.date, c.author, Split(c.message, "|"), "");
  }

  /** The first three of three elements, a run and one more. */
  lemma FieldsAt<T>(a: T, b: T, c: T, ms: seq<T>, z: T)
    ensures var p := [a, b, c] + ms + [z];
      |p| >= 4 && p[0] == a && p[1] == b && p[2] == c
  {
  }

  /**
   * Where reading resumes after a commit's files: the corrected parser
   * resumes right there, the parser as written one line further on.
   */
  function Resume(rest: seq<string>, headerEnds: bool): seq<string> {
    if headerEnds || rest == [] then rest else rest[1..]
  }

  /**
   * A printed commit followed by an empty line, nothing, or (for the
   * corrected parser) a header is read as one commit, and reading resumes
   * where `Resume` says.
   */
  lemma ParseOneCommit(c: Commit, rest: seq<string>, dropTrailing: bool, headerEnds: bool)
    requires Printable(c) && (headerEnds ==> NoHeaderFiles(c))
    requires rest == [] || rest[0] == "" || (headerEnds && IsHeader(rest[0]))
    ensures ParseLines([HeaderLine(c)] + (c.files + rest), dropTrailing, headerEnds)
         == [ReadBack(c, dropTrailing)] + ParseLines(Resume(rest, headerEnds), dropTrailing, headerEnds)
  {
    HeaderParsed(c, dropTrailing);
    assert HeaderLine(c)[0] == c.hash[0];
    ParseHeaderStep(HeaderLine(c), c.files, rest, dropTrailing, headerEnds);
  }

  /** A header line with its run of file lines, followed by what ends the run, is read as one commit. */
  lemma ParseHeaderStep(h: string, files: seq<string>, rest: seq<string>, dropTrailing: bool, headerEnds: bool)
    requires h != "" && IsHeader(h)
    requires forall j :: 0 <= j < |files| ==> files[j] != "" && !(headerEnds && IsHeader(files[j]))
    requires rest == [] || rest[0] == "" || (headerEnds && IsHeader(rest[0]))
    ensures var parts := Split(h, "|");
      ParseLines([h] + (files + rest), dropTrailing, headerEnds)
        == [Commit(parts[0], parts[1], parts[2], MessageOf(parts, dropTrailing), files)]
           + ParseLines(Resume(rest, headerEnds), dropTrailing, headerEnds)
  {
    var lines := [h] + (files + rest);
    var parts := Split(h, "|");
    FileRunOf(files, rest, headerEnds);
    assert lines[0] == h && lines[1..] == files + rest;
    var n := FileRun(lines[1..], headerEnds);
    assert n == |files|;
    var next := if headerEnds then n + 1 else if n + 2 <= |lines| then n + 2 else |lines|;
    assert ParseLines(lines, dropTrailing, headerEnds)
        == [Commit(parts[0], parts[1], parts[2], MessageOf(parts, dropTrailing), lines[1..n + 1])]
           + ParseLines(lines[next..], dropTrailing, headerEnds);
    assert lines[1..n + 1] == files;
    assert lines[next..] == Resume(rest, headerEnds);
  }

  /** An empty line is skipped. */
  lemma BlankSkipped(lines: seq<string>, dropTrailing: bool, headerEnds: bool)
    ensures ParseLines([""] + lines, dropTrailing, headerEnds) == ParseLines(lines, dropTrailing, headerEnds)
  {
    assert ([""] + lines)[1..] == lines;
  }

  /**
   * A printed commit, the blank line git prints after it when it changed
   * files, and then a header: the commit is read and reading goes on at the
   * header.
   */
  lemma ReadOneThen(c: Commit, next: seq<string>, dropTrailing: bool, headerEnds: bool)
    requires Printable(c) && (headerEnds ==> NoHeaderFiles(c)) && (!headerEnds ==> c.files != [])
    requires next != [] && IsHeader(next[0])
    ensures ParseLines(CommitLines(c) + (if c.files == [] then [] else [""]) + next, dropTrailing, headerEnds)
         == [ReadBack(c, dropTrailing)] + ParseLines(next, dropTrailing, headerEnds)
  {
    if c.files == [] {
      ReadOneThenHeader(c, next, dropTrailing);
    } else {
      ReadOneThenBlank(c, next, dropTrailing, headerEnds);
    }
  }

  /** A commit without changed files, read by the corrected parser, ends at the next header. */
  lemma ReadOneThenHeader(c: Commit, next: seq<string>, dropTrailing: bool)
    requires Printable(c) && c.files == []
    requires next != [] && IsHeader(next[0])
    ensures ParseLines(CommitLines(c) + next, dropTrailing, true)
         == [ReadBack(c, dropTrailing)] + ParseLines(next, dropTrailing, true)
  {
    assert CommitLines(c) + next == [HeaderLine(c)] + (c.files + next);
    ParseOneCommit(c, next, dropTrailing, true);
  }

  /** A commit with changed files ends at the blank line after them, which is skipped. */
  lemma ReadOneThenBlank(c: Commit, next: seq<string>, dropTrailing: bool, headerEnds: bool)
    requires Printable(c) && (headerEnds ==> NoHeaderFiles(c)) && c.files != []
    ensures ParseLines(CommitLines(c) + [""] + next, dropTrailing, headerEnds)
         == [ReadBack(c, dropTrailing)] + ParseLines(next, dropTrailing, headerEnds)
  {
    var rest := [""] + next;
    assert CommitLines(c) + [""] + next == [HeaderLine(c)] + (c.files + rest);
    ParseOneCommit(c, rest, dropTrailing, headerEnds);
    BlankSkipped(next, dropTrailing, headerEnds);
  }

  /** The printed lines of a non-empty history start with a header. */
  lemma LogLinesHeader(cs: seq<Commit>)
    requires |cs| >= 1 && Printable(cs[0])
    ensures LogLines(cs) != [] && IsHeader(LogLines(cs)[0])
  {
    HeaderParsed(cs[0], false);
  }

  /**
   * The parser reads printed lines back commit by commit: the corrected
   * parser on any history whose paths hold fewer than three `|`, the one as
   * written only when every commit but the last changed files.
   */
  lemma {:induction false} LinesReadBack(cs: seq<Commit>, dropTrailing: bool, headerEnds: bool)
    requires forall k :: 0 <= k < |cs| ==> Printable(cs[k])
    requires headerEnds ==> forall k :: 0 <= k < |cs| ==> NoHeaderFiles(cs[k])
    requires !headerEnds ==> BlankSeparated(cs)
    ensures ParseLines(LogLines(cs), dropTrailing, headerEnds)
         == seq(|cs|, k requires 0 <= k < |cs| => ReadBack(cs[k], dropTrailing))
    decreases |cs|
  {
    if |cs| == 1 {
      ParseOneCommit(cs[0], [], dropTrailing, headerEnds);
      assert LogLines(cs) == [HeaderLine(cs[0])] + (cs[0].files + []);
    } else if |cs| > 1 {
      LinesReadBack(cs[1..], dropTrailing, headerEnds);
      ReadBackStep(cs, dropTrailing, headerEnds);
    }
  }

  /** One step of `LinesReadBack`: reading the first commit, given that the rest reads back. */
  lemma ReadBackStep(cs: seq<Commit>, dropTrailing: bool, headerEnds: bool)
    requires |cs| > 1 && Printable(cs[0]) && Printable(cs[1])
    requires headerEnds ==> NoHeaderFiles(cs[0])
    requires !headerEnds ==> cs[0].files != []
    requires ParseLines(LogLines(cs[1..]), dropTrailing, headerEnds)
          == seq(|cs[1..]|, k requires 0 <= k < |cs[1..]| => ReadBack(cs[1..][k], dropTrailing))
    ensures ParseLines(LogLines(cs), dropTrailing, headerEnds)
         == seq(|cs|, k requires 0 <= k < |cs| => ReadBack(cs[k], dropTrailing))
  {
    var tail := cs[1..];
    LogLinesHeader(tail);
    ReadOneThen(cs[0], LogLines(tail), dropTrailing, headerEnds);
    ReadBackCons(cs, dropTrailing);
  }

  /** Reading back a list of commits is reading back its first and then the rest. */
  lemma ReadBackCons(cs: seq<Commit>, dropTrailing: bool)
    requires |cs| > 0
    ensures seq(|cs|, k requires 0 <= k < |cs| => ReadBack(cs[k], dropTrailing))
         == [ReadBack(cs[0], dropTrailing)] + seq(|cs[1..]|, k requires 0 <= k < |cs[1..]| => ReadBack(cs[1..][k], dropTrailing))
  {
  }

  /** The last printed line of a commit: its last file, or its header when it changed none. */
  function LastLine(c: Commit): string {
    if c.files == [] then HeaderLine(c) else c.files[|c.files| - 1]
  }

  /** The last printed line of a commit is not empty and does not end in whitespace. */
  lemma LastLineEnds(c: Commit)
    requires Printable(c)
    ensures |LastLine(c)| > 0 && !IsSpace(LastLine(c)[|LastLine(c)| - 1])
  {
    if c.files != [] {
      var f := c.files[|c.files| - 1];
      assert |f| > 0 && !IsSpace(f[|f| - 1]);
    }
  }

  /** Text that is empty or neither starts nor ends with whitespace: `strip` leaves it as it is. */
  predicate Trimmed(s: string) {
    |s| == 0 || (!IsSpace(s[0]) && !IsSpace(s[|s| - 1]))
  }

  /** The printed lines end with the last commit's last line. */
  lemma {:induction false} LogLinesLast(cs: seq<Commit>)
    requires |cs| >= 1
    ensures |LogLines(cs)| >= 1 && LogLines(cs)[|LogLines(cs)| - 1] == LastLine(cs[|cs| - 1])
    decreases |cs|
  {
    if |cs| > 1 {
      LogLinesLast(cs[1..]);
      assert cs[1..][|cs[1..]| - 1] == cs[|cs| - 1];
    }
  }

  /** No printed line holds a line break or surrounding whitespace. */
  lemma {:induction false} LogLinesClean(cs: seq<Commit>)
    requires forall k :: 0 <= k < |cs| ==> Printable(cs[k])
    ensures forall k :: 0 <= k < |LogLines(cs)| ==> Free(LogLines(cs)[k], '\n') && Trimmed(LogLines(cs)[k])
    decreases |cs|
  {
    if |cs| > 0 {
      var c := cs[0];
      LogLinesClean(cs[1..]);
      var h := HeaderLine(c);
      assert Free(h, '\n');
      assert h[0] == c.hash[0];
    }
  }

  /** Text that neither starts nor ends with whitespace is what `strip` leaves of it plus a newline. */
  lemma StripNewline(x: string)
    requires |x| > 0 && !IsSpace(x[0]) && !IsSpace(x[|x| - 1])
    ensures Strip(x + "\n") == x
  {
  }

  /** Stripping the output removes just the final newline. */
  lemma OutputStrips(cs: seq<Commit>)
    requires |cs| >= 1 && |cs[0].hash| > 0 && !IsSpace(cs[0].hash[0])
    requires var l := LastLine(cs[|cs| - 1]); |l| > 0 && !IsSpace(l[|l| - 1])
    ensures Strip(GitOutput(cs)) == Join(LogLines(cs), "\n")
  {
    var lines := LogLines(cs);
    LogLinesLast(cs);
    var l := LastLine(cs[|cs| - 1]);
    assert lines[|lines| - 1] == l;
    JoinEnds(lines, "\n");
    var x := Join(lines, "\n");
    assert x[|x| - 1] == l[|l| - 1] by {
      LastOfSuffix(x, l);
    }
    assert x[0] == lines[0][0];
    StripNewline(x);
  }

  /** The last character of a text is the last character of any non-empty suffix. */
  lemma LastOfSuffix(x: string, l: string)
    requires EndsWith(x, l) && |l| > 0
    ensures x[|x| - 1] == l[|l| - 1]
  {
    assert x[|x| - |l|..][|l| - 1] == x[|x| - 1];
  }

  /** Splitting the joined lines gives them back. */
  lemma OutputSplits(cs: seq<Commit>)
    requires |cs| >= 1 && forall k :: 0 <= k < |cs| ==> Printable(cs[k])
    ensures Split(Join(LogLines(cs), "\n"), "\n") == LogLines(cs)
  {
    var lines := LogLines(cs);
    LogLinesClean(cs);
    forall k | 0 <= k < |lines|
      ensures !Contains(lines[k], "\n")
    {
      FreeNotContains(lines[k], '\n');
    }
    SplitJoinChar(lines, "\n");
  }

  /** Stripping each printed line changes nothing. */
  lemma LinesStripped(cs: seq<Commit>)
    requires forall k :: 0 <= k < |cs| ==> Printable(cs[k])
    ensures StripAll(LogLines(cs)) == LogLines(cs)
  {
    var lines := LogLines(cs);
    LogLinesClean(cs);
    forall k | 0 <= k < |lines|
      ensures Strip(lines[k]) == lines[k]
    {
      StripNoSpace(lines[k]);
    }
  }

  /** Joining printed lines, stripping the text, splitting it and stripping each line gives the lines back. */
  lemma OutputLines(cs: seq<Commit>)
    requires |cs| >= 1 && forall k :: 0 <= k < |cs| ==> Printable(cs[k])
    ensures StripAll(Split(Strip(GitOutput(cs)), "\n")) == LogLines(cs)
  {
    LastLineEnds(cs[|cs| - 1]);
    OutputStrips(cs);
    OutputSplits(cs);
    LinesStripped(cs);
  }

  /**
   * The corrected parser reads back exactly the commits git printed,
   * including merges and other commits without changed files, as long as
   * no changed path holds three or more `|`.
   */
  lemma LogRoundTrip(cs: seq<Commit>)
    requires forall k :: 0 <= k < |cs| ==> Printable(cs[k]) && NoHeaderFiles(cs[k])
    ensures ParseLog(GitOutput(cs)) == cs
  {
    if cs == [] {
      EmptyOutputParses();
    } else {
      OutputLines(cs);
      LinesReadBack(cs, true, true);
      ReadBackUnchanged(cs);
    }
  }

  /** No commits print nothing, and nothing parses to no commits. */
  lemma EmptyOutputParses()
    ensures ParseLog(GitOutput([])) == []
  {
    assert Split(Strip(""), "\n") == [""];
    assert StripAll([""]) == [""];
  }

  /** The corrected parser reads every commit back unchanged. */
  lemma ReadBackUnchanged(cs: seq<Commit>)
    ensures seq(|cs|, k requires 0 <= k < |cs| => ReadBack(cs[k], true)) == cs
  {
  }

  /**
   * The parser as written, on a history in which every commit but the last
   * changed files: every commit is read, with a `|` appended to its
   * message.
   */
  lemma TrailingPipeKept(cs: seq<Commit>)
    requires |cs| >= 1 && forall k :: 0 <= k < |cs| ==> Printable(cs[k])
    requires BlankSeparated(cs)
    ensures |ParseLogAsWritten(GitOutput(cs))| == |cs|
    ensures forall k :: 0 <= k < |cs| ==> ParseLogAsWritten(GitOutput(cs))[k].message == cs[k].message + "|"
  {
    OutputLines(cs);
    LinesReadBack(cs, false, false);
  }

  /**
   * The parser as written on a commit without changed files followed by
   * another commit: the second commit's header and files are read as files
   * of the first, and the second commit is lost.
   */
  lemma MergeSwallowsNext(m: Commit, c: Commit)
    requires Printable(m) && Printable(c) && m.files == []
    ensures ParseLogAsWritten(GitOutput([m, c])) == [m.(message := m.message + "|", files := CommitLines(c))]
    ensures |ParseLogAsWritten(GitOutput([m, c]))| == 1
  {
    OutputLines([m, c]);
    MergeLines(m, c);
  }

  /** What `MergeSwallowsNext` states, on the printed lines. */
  lemma MergeLines(m: Commit, c: Commit)
    requires Printable(m) && Printable(c) && m.files == []
    ensures ParseLines(LogLines([m, c]), false, false) == [m.(message := m.message + "|", files := CommitLines(c))]
  {
    MergeLogLines(m, c);
    HeaderParsed(m, false);
    assert HeaderLine(m)[0] == m.hash[0];
    assert HeaderLine(c)[0] == c.hash[0];
    ParseHeaderStep(HeaderLine(m), CommitLines(c), [], false, false);
  }

  /** A commit without files and the next one print as the first header followed by the second commit's lines. */
  lemma MergeLogLines(m: Commit, c: Commit)
    requires m.files == []
    ensures LogLines([m, c]) == [HeaderLine(m)] + (CommitLines(c) + [])
  {
    assert [m, c][1..] == [c];
  }

  // ---------------------------------------------------------------------------
  // Grouping by day
  // ---------------------------------------------------------------------------

  /** The leading run of non-whitespace characters. */
  function Word(t: string): (r: string)
    ensures StartsWith(t, r)
    ensures forall i :: 0 <= i < |r| ==> !IsSpace(r[i])
    ensures |r| < |t| ==> IsSpace(t[|r|])
  {
    if t == [] || IsSpace(t[0]) then [] else [t[0]] + Word(t[1..])
  }

  /** `date.split()[0]`: the first whitespace-separated token, `None` where Python raises `IndexError`. */
  function DatePart(date: string): (r: Option<string>)
    ensures r.None? <==> forall i :: 0 <= i < |date| ==> IsSpace(date[i])
    ensures r.Some? ==> r.value != "" && forall i :: 0 <= i < |r.value| ==> !IsSpace(r.value[i])
  {
    var t := LStrip(date);
    if t == [] then None else Some(Word(t))
  }

  /** The commits keyed under `day`. */
  function OnDay(day: string): Commit -> bool {
    (c: Commit) => DatePart(c.date) == Some(day)
  }

  /**
   * `group_commits_by_date`: each commit is appended to the list of its
   * day; a commit whose date has no token is skipped.
   */
  function GroupByDate(commits: seq<Commit>): (r: map<string, seq<Commit>>)
    ensures forall day :: day in r ==> r[day] != []
    ensures forall day, i :: day in r && 0 <= i < |r[day]| ==> r[day][i] in commits && DatePart(r[day][i].date) == Some(day)
    decreases |commits|
  {
    if commits == [] then map[]
    else
      var g := GroupByDate(commits[..|commits| - 1]);
      var c := commits[|commits| - 1];
      var key := DatePart(c.date);
      if key.None? then g else g[key.value := (if key.value in g then g[key.value] else []) + [c]]
  }

  /** A day is a key exactly when some commit falls on it, and its list is those commits in input order. */
  lemma {:induction false} GroupIsFilter(commits: seq<Commit>)
    ensures forall day :: day in GroupByDate(commits) <==> Filter(commits, OnDay(day)) != []
    ensures forall day :: day in GroupByDate(commits) ==> GroupByDate(commits)[day] == Filter(commits, OnDay(day))
    decreases |commits|
  {
    if commits != [] {
      var init := commits[..|commits| - 1];
      var c := commits[|commits| - 1];
      assert commits == init + [c];
      GroupIsFilter(init);
      var g := GroupByDate(init);
      GroupSnoc(g, init, c, OnDay, DatePart(c.date));
    }
  }

  // ---------------------------------------------------------------------------
  // Changed files by category
  // ---------------------------------------------------------------------------

  /** The categories of `categorize_files`, in the order their rules are tried. */
  datatype FileKind = PythonFile | ScriptFile | DocFile | ConfigFile | ExcelFile | TestFile | OtherFile

  /** The category's key in the result. */
  function CategoryName(k: FileKind): string {
    match k
    case PythonFile => "Python"
    case ScriptFile => "JavaScript/TypeScript"
    case DocFile => "ドキュメント"
    case ConfigFile => "設定ファイル"
    case ExcelFile => "Excel"
    case TestFile => "テスト"
    case OtherFile => "その他"
  }

  /** The first rule a path matches: extensions first, then `test`/`spec` anywhere in the lower-cased path. */
  function KindOf(path: string): (r: FileKind)
    ensures r == PythonFile <==> EndsWith(path, ".py") || EndsWith(path, ".pyw")
    ensures r == TestFile ==> Contains(Lower(path), "test") || Contains(Lower(path), "spec")
    ensures r == OtherFile ==> !Contains(Lower(path), "test") && !Contains(Lower(path), "spec")
  {
    if EndsWith(path, ".py") || EndsWith(path, ".pyw") then PythonFile
    else if EndsWith(path, ".js") || EndsWith(path, ".ts") || EndsWith(path, ".jsx") || EndsWith(path, ".tsx") then ScriptFile
    else if EndsWith(path, ".md") then DocFile
    else if EndsWith(path, ".json") || EndsWith(path, ".yaml") || EndsWith(path, ".yml") || EndsWith(path, ".toml") then ConfigFile
    else if EndsWith(path, ".xlsx") || EndsWith(path, ".xls") then ExcelFile
    else if Contains(Lower(path), "test") || Contains(Lower(path), "spec") then TestFile
    else OtherFile
  }

  /** The paths of one category. */
  function OfKind(k: FileKind): string -> bool {
    (p: string) => KindOf(p) == k
  }

  /** `categorize_files`: each path is appended to the list of its category. */
  function CategorizeFiles(files: seq<string>): (r: map<FileKind, seq<string>>)
    ensures forall k :: k in r ==> r[k] != []
    ensures forall k, i :: k in r && 0 <= i < |r[k]| ==> r[k][i] in files && KindOf(r[k][i]) == k
    decreases |files|
  {
    if files == [] then map[]
    else
      var g := CategorizeFiles(files[..|files| - 1]);
      var f := files[|files| - 1];
      var k := KindOf(f);
      g[k := (if k in g then g[k] else []) + [f]]
  }

  /** A category is a key exactly when some path falls in it, and its list is those paths in input order. */
  lemma {:induction false} CategorizeIsFilter(files: seq<string>)
    ensures forall k :: k in CategorizeFiles(files) <==> Filter(files, OfKind(k)) != []
    ensures forall k :: k in CategorizeFiles(files) ==> CategorizeFiles(files)[k] == Filter(files, OfKind(k))
    decreases |files|
  {
    if files != [] {
      var init := files[..|files| - 1];
      var f := files[|files| - 1];
      assert files == init + [f];
      CategorizeIsFilter(init);
      GroupSnoc(CategorizeFiles(init), init, f, OfKind, Some(KindOf(f)));
    }
  }

  /** Every category once. */
  const AllKinds: seq<FileKind> := [PythonFile, ScriptFile, DocFile, ConfigFile, ExcelFile, TestFile, OtherFile]

  /** The total size of the lists of the given categories. */
  function Sizes(g: map<FileKind, seq<string>>, kinds: seq<FileKind>): nat {
    if kinds == [] then 0 else (if kinds[0] in g then |g[kinds[0]]| else 0) + Sizes(g, kinds[1..])
  }

  /** Replacing one category's list changes the total by the change in that list's size. */
  lemma {:induction false} SizesUpdate(g: map<FileKind, seq<string>>, kinds: seq<FileKind>, k: FileKind, v: seq<string>)
    requires forall i, j :: 0 <= i < j < |kinds| ==> kinds[i] != kinds[j]
    ensures Sizes(g[k := v], kinds) + (if k in kinds && k in g then |g[k]| else 0) == Sizes(g, kinds) + (if k in kinds then |v| else 0)
    decreases |kinds|
  {
    if kinds != [] {
      SizesUpdate(g, kinds[1..], k, v);
      if kinds[0] == k {
        assert k !in kinds[1..];
      } else if k in kinds {
        assert k in kinds[1..];
      }
    }
  }

  /** Every path lands in exactly one list: the sizes add up to the number of paths. */
  lemma {:induction false} CategorySizesSum(files: seq<string>)
    ensures Sizes(CategorizeFiles(files), AllKinds) == |files|
    decreases |files|
  {
    if files != [] {
      var init := files[..|files| - 1];
      var f := files[|files| - 1];
      CategorySizesSum(init);
      var g := CategorizeFiles(init);
      var k := KindOf(f);
      var v := (if k in g then g[k] else []) + [f];
      assert CategorizeFiles(files) == g[k := v];
      assert k in AllKinds;
      AllKindsDistinct();
      SizesUpdate(g, AllKinds, k, v);
      assert Sizes(g[k := v], AllKinds) == |init| + 1;
    } else {
      SizesEmpty(AllKinds);
    }
  }

  /** Each category is listed once. */
  lemma AllKindsDistinct()
    ensures forall i, j :: 0 <= i < j < |AllKinds| ==> AllKinds[i] != AllKinds[j]
  {
  }

  /** No lists, no paths. */
  lemma {:induction false} SizesEmpty(kinds: seq<FileKind>)
    ensures Sizes(map[], kinds) == 0
    decreases |kinds|
  {
    if kinds != [] {
      SizesEmpty(kinds[1..]);
    }
  }

  /** A Python file counts as Python even when its path names a test: the extension rules come first. */
  lemma PythonBeforeTests(path: string)
    requires EndsWith(path, ".py") && Contains(Lower(path), "test")
    ensures KindOf(path) == PythonFile && KindOf(path) != TestFile
  {
  }

  // ---------------------------------------------------------------------------
  // The portfolio's date style
  // ---------------------------------------------------------------------------

  /** `format_date_for_portfolio`: `YYYY-MM-DD` becomes `YYYY年/MM月/DD日`; anything else comes back unchanged. */
  function PortfolioDate(s: string): (r: string)
    ensures Parse(DashDate, s).None? ==> r == s
  {
    match Parse(DashDate, s)
    case None => s
    case Some(st) => Format(KanjiDate, st)
  }

  /** `strftime("%Y年/%m月/%d日")`: the zero-padded fields between the kanji markers. */
  lemma FormatKanji(st: Stamp)
    requires st.date.year >= 0 && st.date.month >= 0 && st.date.day >= 0
    requires st.hour >= 0 && st.minute >= 0 && st.second >= 0
    ensures Format(KanjiDate, st)
         == Padded(st.date.year, 4) + "年/" + Padded(st.date.month, 2) + "月/" + Padded(st.date.day, 2) + "日"
  {
    var a := [Directive(Year), Literal('年'), Literal('/')];
    var b := [Directive(Month), Literal('月'), Literal('/')];
    var c := [Directive(Day), Literal('日')];
    assert KanjiDate == a + (b + c);
    FormatAppend(a, b + c, st);
    FormatAppend(b, c, st);
    FormatThree(Directive(Year), Literal('年'), Literal('/'), st);
    FormatThree(Directive(Month), Literal('月'), Literal('/'), st);
    FormatTwo(Directive(Day), Literal('日'), st);
    KanjiJoin(Padded(st.date.year, 4), Padded(st.date.month, 2), Padded(st.date.day, 2));
  }

  /** The three fields with their markers, however the concatenation is grouped. */
  lemma KanjiJoin(y: string, m: string, d: string)
    ensures (y + ['年'] + ['/']) + ((m + ['月'] + ['/']) + (d + ['日'])) == y + "年/" + m + "月/" + d + "日"
  {
  }

  /** A stored date comes out with its year, month and day zero-padded between the kanji markers. */
  lemma PortfolioDateOf(d: Date)
    requires ValidDate(d)
    ensures PortfolioDate(DateString(d))
         == Padded(d.year, 4) + "年/" + Padded(d.month, 2) + "月/" + Padded(d.day, 2) + "日"
  {
    ParseDateString(d);
    FormatKanji(Stamp(d, 0, 0, 0));
  }
}
