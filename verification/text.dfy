/**
 * Python string behaviour used throughout the program, stated over `seq<char>`:
 * `str.strip`, `str.split(sep)` / `sep.join`, `startswith` / `endswith` / `in`,
 * ASCII `lower`, the `int()` constructor on decimal text, zero-padded `{n:0Wd}`
 * formatting and code-point ordering of strings.
 */
module Text {
  import opened Wrappers

  // ---------------------------------------------------------------------------
  // Characters
  // ---------------------------------------------------------------------------

  /** `str.isspace()` restricted to the ASCII range. */
  predicate IsSpace(c: char) {
    c == ' ' || (9 <= c as int <= 13) || (28 <= c as int <= 31)
  }

  predicate IsDigit(c: char) {
    '0' <= c <= '9'
  }

  function DigitValue(c: char): (v: nat)
    requires IsDigit(c)
    ensures v < 10
  {
    (c as int - '0' as int) as nat
  }

  function DigitChar(v: nat): (c: char)
    requires v < 10
    ensures IsDigit(c) && DigitValue(c) == v
  {
    ('0' as int + v) as char
  }

  /** `str.lower()` restricted to ASCII letters. */
  function LowerChar(c: char): char {
    if 'A' <= c <= 'Z' then (c as int + 32) as char else c
  }

  function Lower(s: string): (r: string)
    ensures |r| == |s|
    ensures forall i :: 0 <= i < |s| ==> r[i] == LowerChar(s[i])
  {
    if |s| == 0 then [] else [LowerChar(s[0])] + Lower(s[1..])
  }

  // ---------------------------------------------------------------------------
  // Substrings
  // ---------------------------------------------------------------------------

  predicate StartsWith(s: string, prefix: string) {
    |prefix| <= |s| && s[..|prefix|] == prefix
  }

  predicate EndsWith(s: string, suffix: string) {
    |suffix| <= |s| && s[|s| - |suffix|..] == suffix
  }

  /** `sep` occurs in `s` starting at index `i`. */
  predicate OccursAt(s: string, sep: string, i: int) {
    0 <= i && i + |sep| <= |s| && s[i..i + |sep|] == sep
  }

  /** Python's `sub in s`. */
  predicate Contains(s: string, sub: string) {
    exists i :: 0 <= i <= |s| - |sub| && OccursAt(s, sub, i)
  }

  /** A slice of text that does not contain `sub` does not contain it either. */
  lemma SliceNotContains(s: string, a: int, b: int, sub: string)
    requires 0 <= a <= b <= |s| && !Contains(s, sub)
    ensures !Contains(s[a..b], sub)
  {
    if Contains(s[a..b], sub) {
      var i :| 0 <= i <= b - a - |sub| && OccursAt(s[a..b], sub, i);
      forall j | a + i <= j < a + i + |sub|
        ensures s[j] == sub[j - a - i]
      {
        assert s[j] == s[a..b][j - a];
      }
      assert s[a + i..a + i + |sub|] == sub;
      assert OccursAt(s, sub, a + i);
    }
  }

  /** The first index at or after `from` where `sep` occurs (Python's `s.find(sep, from)`). */
  function FindFrom(s: string, sep: string, from: nat): (r: Option<nat>)
    requires |sep| > 0
    requires from <= |s|
    ensures r.Some? ==> from <= r.value && OccursAt(s, sep, r.value)
    ensures r.Some? ==> forall i :: from <= i < r.value ==> !OccursAt(s, sep, i)
    ensures r.None? ==> forall i :: from <= i <= |s| ==> !OccursAt(s, sep, i)
    decreases |s| - from
  {
    if from + |sep| > |s| then None
    else if s[from..from + |sep|] == sep then Some(from)
    else FindFrom(s, sep, from + 1)
  }

  function Find(s: string, sep: string): (r: Option<nat>)
    requires |sep| > 0
    ensures r.Some? ==> OccursAt(s, sep, r.value)
    ensures r.Some? ==> forall i :: 0 <= i < r.value ==> !OccursAt(s, sep, i)
    ensures r.None? ==> forall i :: 0 <= i <= |s| ==> !OccursAt(s, sep, i)
  {
    FindFrom(s, sep, 0)
  }

  lemma FindNoneNotContains(s: string, sep: string)
    requires |sep| > 0
    ensures Find(s, sep).None? <==> !Contains(s, sep)
  {
    if Find(s, sep).Some? {
      assert OccursAt(s, sep, Find(s, sep).value);
    }
  }

  // ---------------------------------------------------------------------------
  // split / join
  // ---------------------------------------------------------------------------

  /** Python's `s.split(sep)` for a non-empty separator: left-to-right, non-overlapping. */
  function Split(s: string, sep: string): (parts: seq<string>)
    requires |sep| > 0
    ensures |parts| >= 1
    ensures forall k :: 0 <= k < |parts| ==> !Contains(parts[k], sep)
    decreases |s|
  {
    match Find(s, sep)
    case None =>
      FindNoneNotContains(s, sep);
      [s]
    case Some(k) =>
      assert Find(s[..k], sep).None? by {
        forall i | 0 <= i <= k
          ensures !OccursAt(s[..k], sep, i)
        {
          if OccursAt(s[..k], sep, i) {
            assert s[..k][i..i + |sep|] == s[i..i + |sep|];
            assert OccursAt(s, sep, i);
          }
        }
      }
      FindNoneNotContains(s[..k], sep);
      [s[..k]] + Split(s[k + |sep|..], sep)
  }

  /** Python's `sep.join(parts)`. */
  function Join(parts: seq<string>, sep: string): string {
    if |parts| == 0 then ""
    else if |parts| == 1 then parts[0]
    else parts[0] + sep + Join(parts[1..], sep)
  }

  /** The first occurrence of the separator ends the first part. */
  lemma SplitAt(s: string, sep: string, k: nat)
    requires |sep| > 0 && Find(s, sep) == Some(k)
    ensures k + |sep| <= |s|
    ensures Split(s, sep) == [s[..k]] + Split(s[k + |sep|..], sep)
    ensures s == s[..k] + sep + s[k + |sep|..]
  {
    FoundSplits(s, sep, k);
  }

  /** The text is the part before the first occurrence, the separator, and the rest. */
  lemma FoundSplits(s: string, sep: string, k: nat)
    requires |sep| > 0 && Find(s, sep) == Some(k)
    ensures k + |sep| <= |s| && s == s[..k] + sep + s[k + |sep|..]
  {
    assert s[k..k + |sep|] == sep;
  }

  /** Joining a part in front of at least one other puts the separator between. */
  lemma JoinCons(x: string, parts: seq<string>, sep: string)
    requires |parts| >= 1
    ensures Join([x] + parts, sep) == x + sep + Join(parts, sep)
  {
    assert ([x] + parts)[1..] == parts;
  }

  /** Splitting and re-joining on the same separator gives back the text. */
  lemma {:induction false} JoinSplit(s: string, sep: string)
    requires |sep| > 0
    ensures Join(Split(s, sep), sep) == s
    decreases |s|
  {
    match Find(s, sep)
    case None =>
    case Some(k) =>
      SplitAt(s, sep, k);
      var rest := s[k + |sep|..];
      JoinSplit(rest, sep);
      JoinCons(s[..k], Split(rest, sep), sep);
  }

  /** With a one-character separator it is enough that no part contains it. */
  lemma SplitJoinChar(parts: seq<string>, sep: string)
    requires |sep| == 1 && |parts| >= 1
    requires forall k :: 0 <= k < |parts| ==> !Contains(parts[k], sep)
    ensures Split(Join(parts, sep), sep) == parts
  {
    assert sep[..0] == "";
    forall k | 0 <= k < |parts| - 1
      ensures !Contains(parts[k] + sep[..|sep| - 1], sep)
    {
      assert parts[k] + sep[..0] == parts[k];
    }
    SplitJoin(parts, sep);
  }

  /** Joining parts that do not contain the separator and splitting again gives the parts back. */
  lemma {:induction false} SplitJoin(parts: seq<string>, sep: string)
    requires |sep| > 0 && |parts| >= 1
    requires forall k :: 0 <= k < |parts| ==> !Contains(parts[k], sep)
    requires forall k :: 0 <= k < |parts| - 1 ==> !Contains(parts[k] + sep[..|sep| - 1], sep)
    ensures Split(Join(parts, sep), sep) == parts
    decreases |parts|
  {
    if |parts| == 1 {
      FindNoneNotContains(parts[0], sep);
    } else {
      var rest := parts[1..];
      assert forall k :: 0 <= k < |rest| ==> rest[k] == parts[k + 1];
      SplitJoin(rest, sep);
      SplitJoinStep(parts[0], rest, sep);
      assert parts == [parts[0]] + rest;
    }
  }

  /** One more part in front of a join that splits back. */
  lemma SplitJoinStep(p: string, rest: seq<string>, sep: string)
    requires |sep| > 0 && |rest| >= 1
    requires !Contains(p, sep) && !Contains(p + sep[..|sep| - 1], sep)
    requires Split(Join(rest, sep), sep) == rest
    ensures Split(Join([p] + rest, sep), sep) == [p] + rest
  {
    var t := Join(rest, sep);
    var s := p + sep + t;
    JoinCons(p, rest, sep);
    FirstSeparator(p, t, sep);
    SplitAt(s, sep, |p|);
    assert s[..|p|] == p;
    assert s[|p| + |sep|..] == t;
  }

  /**
   * In `p + sep + t` the first separator is the one after `p`, when neither
   * `p` nor `p` followed by all but the last character of the separator
   * contains one.
   */
  lemma FirstSeparator(p: string, t: string, sep: string)
    requires |sep| > 0 && !Contains(p, sep) && !Contains(p + sep[..|sep| - 1], sep)
    ensures Find(p + sep + t, sep) == Some(|p|)
  {
    var s := p + sep + t;
    assert OccursAt(s, sep, |p|) by { assert s[|p|..|p| + |sep|] == sep; }
    forall i | 0 <= i < |p|
      ensures !OccursAt(s, sep, i)
    {
      if OccursAt(s, sep, i) {
        if i + |sep| <= |p| {
          assert p[i..i + |sep|] == s[i..i + |sep|];
          assert OccursAt(p, sep, i);
        } else {
          var q := p + sep[..|sep| - 1];
          assert i + |sep| <= |q|;
          assert q[i..i + |sep|] == s[i..i + |sep|];
          assert OccursAt(q, sep, i);
        }
      }
    }
  }

  /** Joining one more part appends the separator and that part. */
  lemma {:induction false} JoinSnoc(parts: seq<string>, x: string, sep: string)
    requires |parts| >= 1
    ensures Join(parts + [x], sep) == Join(parts, sep) + sep + x
    decreases |parts|
  {
    if |parts| > 1 {
      JoinSnoc(parts[1..], x, sep);
      assert (parts + [x])[1..] == parts[1..] + [x];
    }
  }

  /** Every part occurs in the join. */
  lemma {:induction false} JoinContains(parts: seq<string>, sep: string, x: string)
    requires x in parts
    ensures Contains(Join(parts, sep), x)
    decreases |parts|
  {
    var j := Join(parts, sep);
    if parts[0] == x {
      if |parts| > 1 {
        assert j == x + sep + Join(parts[1..], sep);
      }
      assert j[0..|x|] == x;
      assert OccursAt(j, x, 0);
    } else {
      assert x in parts[1..];
      JoinContains(parts[1..], sep, x);
      var tail := Join(parts[1..], sep);
      var i :| 0 <= i <= |tail| - |x| && OccursAt(tail, x, i);
      var off := |parts[0]| + |sep|;
      assert j == parts[0] + sep + tail;
      assert j[off + i..off + i + |x|] == tail[i..i + |x|];
      assert OccursAt(j, x, off + i);
    }
  }

  /** A join starts with its first part and ends with its last. */
  lemma {:induction false} JoinEnds(parts: seq<string>, sep: string)
    requires |parts| >= 1
    ensures StartsWith(Join(parts, sep), parts[0])
    ensures EndsWith(Join(parts, sep), parts[|parts| - 1])
    decreases |parts|
  {
    if |parts| > 1 {
      JoinEnds(parts[1..], sep);
      var j := Join(parts, sep);
      assert j == parts[0] + sep + Join(parts[1..], sep);
      assert j[..|parts[0]|] == parts[0];
    }
  }

  /** Python's `s.split(sep)[0]`: the text before the first occurrence of `sep`. */
  function BeforeFirst(s: string, sep: string): (r: string)
    requires |sep| > 0
    ensures StartsWith(s, r)
    ensures !Contains(r, sep)
    ensures |r| < |s| ==> OccursAt(s, sep, |r|)
    ensures forall i :: 0 <= i < |r| ==> !OccursAt(s, sep, i)
  {
    match Find(s, sep)
    case None =>
      FindNoneNotContains(s, sep);
      s
    case Some(k) =>
      assert Split(s, sep)[0] == s[..k];
      Split(s, sep)[0]
  }

  // ---------------------------------------------------------------------------
  // strip
  // ---------------------------------------------------------------------------

  /** `str.lstrip()`: drops the leading whitespace. */
  function LStrip(s: string): (r: string)
    ensures |r| <= |s| && r == s[|s| - |r|..]
    ensures |r| > 0 ==> !IsSpace(r[0])
    ensures forall i :: 0 <= i < |s| - |r| ==> IsSpace(s[i])
  {
    if |s| > 0 && IsSpace(s[0]) then LStrip(s[1..]) else s
  }

  /** `str.rstrip()`: drops the trailing whitespace. */
  function RStrip(s: string): (r: string)
    ensures |r| <= |s| && r == s[..|r|]
    ensures |r| > 0 ==> !IsSpace(r[|r| - 1])
    ensures forall i :: |r| <= i < |s| ==> IsSpace(s[i])
  {
    if |s| > 0 && IsSpace(s[|s| - 1]) then RStrip(s[..|s| - 1]) else s
  }

  /** The number of whitespace characters `str.lstrip()` removes. */
  function LeadingSpace(s: string): nat {
    |s| - |LStrip(s)|
  }

  /**
   * `str.strip()`: the slice of `s` left after dropping whitespace at both ends;
   * everything dropped is whitespace and the slice neither starts nor ends with it.
   */
  function Strip(s: string): (r: string)
    ensures LeadingSpace(s) + |r| <= |s|
    ensures r == s[LeadingSpace(s)..LeadingSpace(s) + |r|]
    ensures forall i :: 0 <= i < LeadingSpace(s) ==> IsSpace(s[i])
    ensures forall i :: LeadingSpace(s) + |r| <= i < |s| ==> IsSpace(s[i])
    ensures |r| > 0 ==> !IsSpace(r[0]) && !IsSpace(r[|r| - 1])
  {
    StripTail(s, LStrip(s), RStrip(LStrip(s)));
    RStrip(LStrip(s))
  }

  /** What `rstrip` drops from the left-stripped text is whitespace at the end of the original. */
  lemma StripTail(s: string, l: string, r: string)
    requires |l| <= |s| && l == s[|s| - |l|..]
    requires |r| <= |l| && r == l[..|r|]
    requires forall i :: |r| <= i < |l| ==> IsSpace(l[i])
    ensures |s| - |l| + |r| <= |s| && r == s[|s| - |l|..|s| - |l| + |r|]
    ensures forall i :: |s| - |l| + |r| <= i < |s| ==> IsSpace(s[i])
  {
    var lead := |s| - |l|;
    forall i | lead + |r| <= i < |s|
      ensures IsSpace(s[i])
    {
      assert s[i] == l[i - lead];
    }
  }

  /** Text without surrounding whitespace is its own strip. */
  lemma StripNoSpace(s: string)
    requires |s| > 0 ==> !IsSpace(s[0]) && !IsSpace(s[|s| - 1])
    ensures Strip(s) == s
  {
  }

  // ---------------------------------------------------------------------------
  // Decimal numbers
  // ---------------------------------------------------------------------------

  predicate AllDigits(s: string) {
    forall i :: 0 <= i < |s| ==> IsDigit(s[i])
  }

  /** The value of a string of decimal digits, most significant first. */
  function DigitsValue(s: string): nat
    requires AllDigits(s)
  {
    if |s| == 0 then 0 else 10 * DigitsValue(s[..|s| - 1]) + DigitValue(s[|s| - 1])
  }

  /** Leading zeros do not change the value of a digit string. */
  lemma {:induction false} LeadingZeros(z: nat, s: string)
    requires AllDigits(s)
    ensures AllDigits(Zeros(z) + s) && DigitsValue(Zeros(z) + s) == DigitsValue(s)
    decreases |s|, z
  {
    if |s| == 0 {
      if z > 0 {
        assert Zeros(z) + s == Zeros(z - 1) + "0";
        LeadingZeros(z - 1, "");
        assert Zeros(z - 1) + "" == Zeros(z - 1);
      }
    } else {
      var init := s[..|s| - 1];
      LeadingZeros(z, init);
      assert (Zeros(z) + s)[..|Zeros(z) + s| - 1] == Zeros(z) + init;
    }
  }

  function Zeros(n: nat): (r: string)
    ensures |r| == n && forall i :: 0 <= i < n ==> r[i] == '0'
  {
    if n == 0 then "" else "0" + Zeros(n - 1)
  }

  /** `str(n)` for a natural number: its shortest decimal spelling. */
  function NatToString(n: nat): (r: string)
    ensures |r| >= 1 && AllDigits(r)
    ensures DigitsValue(r) == n
    ensures |r| > 1 ==> r[0] != '0'
  {
    if n < 10 then [DigitChar(n)]
    else
      var r := NatToString(n / 10) + [DigitChar(n % 10)];
      assert r[..|r| - 1] == NatToString(n / 10);
      r
  }

  /** The length of a shortest decimal spelling grows with the number. */
  lemma {:induction false} NatToStringLength(n: nat, width: nat)
    requires n < Pow10(width)
    ensures |NatToString(n)| <= width || (n == 0 && width == 0)
  {
    if n >= 10 {
      assert width >= 1;
      NatToStringLength(n / 10, width - 1);
    }
  }

  function Pow10(k: nat): (r: nat)
    ensures r >= 1
  {
    if k == 0 then 1 else 10 * Pow10(k - 1)
  }

  /** Python's `f"{n:0{width}d}"` for a natural number: zero-padded to at least `width` digits. */
  function Padded(n: nat, width: nat): (r: string)
    ensures AllDigits(r) && DigitsValue(r) == n
    ensures |r| == if |NatToString(n)| >= width then |NatToString(n)| else width
  {
    var s := NatToString(n);
    var r := if |s| >= width then s else Zeros(width - |s|) + s;
    LeadingZeros(if |s| >= width then 0 else width - |s|, s);
    assert Zeros(0) + s == s;
    r
  }

  /** A number below `10^width` zero-pads to exactly `width` digits. */
  lemma PaddedExact(n: nat, width: nat)
    requires width >= 1 && n < Pow10(width)
    ensures |Padded(n, width)| == width
  {
    NatToStringLength(n, width);
  }

  /** The digits of a padded number spell it back: the parsing partner of `Padded`. */
  lemma PaddedParses(n: nat, width: nat)
    ensures ParseDecimal(Padded(n, width)) == Some(n)
  {
    var r := Padded(n, width);
    assert forall k :: 0 <= k < |r| ==> r[k] != '_';
    NoUnderscoreDigits(r);
  }

  lemma NoUnderscoreDigits(s: string)
    requires |s| > 0 && AllDigits(s)
    ensures ParseDecimal(s) == Some(DigitsValue(s))
  {
    assert RemoveUnderscores(s) == s by { RemoveUnderscoresNone(s); }
  }

  lemma {:induction false} RemoveUnderscoresNone(s: string)
    requires AllDigits(s)
    ensures RemoveUnderscores(s) == s
  {
    if |s| > 0 {
      RemoveUnderscoresNone(s[1..]);
    }
  }

  function RemoveUnderscores(s: string): (r: string)
    ensures |r| <= |s|
  {
    if |s| == 0 then "" else (if s[0] == '_' then "" else [s[0]]) + RemoveUnderscores(s[1..])
  }

  /**
   * Decimal digits in the form Python's `int()` accepts: digits, with single
   * underscores allowed between two digits.
   */
  predicate WellFormedDecimal(s: string) {
    && |s| > 0
    && IsDigit(s[0]) && IsDigit(s[|s| - 1])
    && (forall i :: 0 <= i < |s| ==> IsDigit(s[i]) || s[i] == '_')
    && (forall i :: 0 <= i < |s| - 1 ==> !(s[i] == '_' && s[i + 1] == '_'))
  }

  lemma {:induction false} RemoveUnderscoresDigits(s: string)
    requires forall i :: 0 <= i < |s| ==> IsDigit(s[i]) || s[i] == '_'
    ensures AllDigits(RemoveUnderscores(s))
  {
    if |s| > 0 {
      RemoveUnderscoresDigits(s[1..]);
    }
  }

  /** The value of unsigned decimal text, or `None` when `int()` would reject it. */
  function ParseDecimal(s: string): (r: Option<nat>)
    ensures r.Some? <==> WellFormedDecimal(s)
  {
    if WellFormedDecimal(s) then
      RemoveUnderscoresDigits(s);
      Some(DigitsValue(RemoveUnderscores(s)))
    else None
  }

  /**
   * Python's `int(s)` on text: surrounding whitespace is ignored, an optional
   * sign is allowed, and anything else is a `ValueError` (here `None`).
   */
  function ParseInt(s: string): (r: Option<int>)
    ensures r.Some? ==> |Strip(s)| > 0
    ensures r.Some? && r.value < 0 ==> Strip(s)[0] == '-'
  {
    var t := Strip(s);
    if |t| == 0 then None
    else if t[0] == '-' then
      (match ParseDecimal(t[1..])
       case Some(v) => var neg: int := -(v as int); Some(neg)
       case None => None)
    else if t[0] == '+' then
      (match ParseDecimal(t[1..])
       case Some(v) => Some(v as int)
       case None => None)
    else
      (match ParseDecimal(t)
       case Some(v) => Some(v as int)
       case None => None)
  }

  /** Digits alone, with no sign and no surrounding whitespace, parse as their decimal value. */
  lemma ParseIntDigits(s: string, v: nat)
    requires |s| > 0 && AllDigits(s) && ParseDecimal(s) == Some(v)
    ensures ParseInt(s) == Some(v as int)
  {
    assert IsDigit(s[0]) && IsDigit(s[|s| - 1]);
    StripNoSpace(s);
  }

  /** `int(str(n))` gives `n` back: the spelling of a natural number parses to it. */
  lemma ParseIntNat(n: nat)
    ensures ParseInt(NatToString(n)) == Some(n)
  {
    var s := NatToString(n);
    assert !IsSpace(s[0]) && !IsSpace(s[|s| - 1]);
    StripNoSpace(s);
    assert s[0] != '-' && s[0] != '+';
    NoUnderscoreDigits(s);
    assert ParseDecimal(s) == Some(n);
  }

  // ---------------------------------------------------------------------------
  // Ordering of strings
  // ---------------------------------------------------------------------------

  /** Python's `a <= b` on strings: lexicographic by code point. */
  predicate LexLe(a: string, b: string) {
    |a| == 0 || (|b| > 0 && (a[0] < b[0] || (a[0] == b[0] && LexLe(a[1..], b[1..]))))
  }

  lemma {:induction false} LexLeTotal(a: string, b: string)
    ensures LexLe(a, b) || LexLe(b, a)
  {
    if |a| > 0 && |b| > 0 && a[0] == b[0] {
      LexLeTotal(a[1..], b[1..]);
    }
  }

  lemma {:induction false} LexLeTrans(a: string, b: string, c: string)
    requires LexLe(a, b) && LexLe(b, c)
    ensures LexLe(a, c)
  {
    if |a| > 0 && a[0] == b[0] && b[0] == c[0] {
      LexLeTrans(a[1..], b[1..], c[1..]);
    }
  }

  lemma {:induction false} LexLeAntisym(a: string, b: string)
    requires LexLe(a, b) && LexLe(b, a)
    ensures a == b
  {
    if |a| > 0 {
      LexLeAntisym(a[1..], b[1..]);
      assert a == [a[0]] + a[1..];
      assert b == [b[0]] + b[1..];
    }
  }

  lemma {:induction false} LexLeRefl(a: string)
    ensures LexLe(a, a)
  {
    if |a| > 0 {
      LexLeRefl(a[1..]);
    }
  }
}
