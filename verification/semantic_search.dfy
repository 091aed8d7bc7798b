/**
 * The semantic-search interface of the portfolio generator: building the
 * query text for a cell and reading file paths out of whatever the search
 * tool returns. The search itself is a function passed in by the caller.
 */
module SemanticSearch {
  import opened Wrappers
  import opened Text

  // ---------------------------------------------------------------------------
  // Queries
  // ---------------------------------------------------------------------------

  /** `generate_search_query`: the instruction and the description separated by a space, or the description alone. */
  function SearchQuery(description: string, instruction: string): (r: string)
    ensures EndsWith(r, description)
    ensures instruction != "" ==> StartsWith(r, instruction + " ")
  {
    if instruction != "" then instruction + " " + description else description
  }

  /** The question every formatted query ends with. */
  function Question(description: string): string {
    "How is " + description + " implemented or described?"
  }

  /** `format_query_for_codebase_search`: the context, if any, and the question, joined with a space. */
  function CodebaseQuery(description: string, context: string): (r: string)
  {
    Join((if context != "" then [context] else []) + [Question(description)], " ")
  }

  /** The formatted query is the question, preceded by the context and a space when there is a context. */
  lemma CodebaseQueryShape(description: string, context: string)
    ensures context == "" ==> CodebaseQuery(description, context) == Question(description)
    ensures context != "" ==> CodebaseQuery(description, context) == context + " " + Question(description)
  {
    var q := Question(description);
    assert Join([q], " ") == q;
    if context != "" {
      assert ([context] + [q])[1..] == [q];
    } else {
      assert [] + [q] == [q];
    }
  }

  /** Both kinds of query put the instruction first and keep the description. */
  lemma QueriesAgree(description: string, instruction: string)
    requires instruction != ""
    ensures StartsWith(SearchQuery(description, instruction), instruction + " ")
    ensures StartsWith(CodebaseQuery(description, instruction), instruction + " ")
    ensures Contains(CodebaseQuery(description, instruction), description)
  {
    CodebaseQueryShape(description, instruction);
    var r := CodebaseQuery(description, instruction);
    var at := |instruction| + 1 + |"How is "|;
    assert r == instruction + " " + "How is " + description + " implemented or described?";
    assert r[..|instruction + " "|] == instruction + " ";
    assert r[at..at + |description|] == description;
    assert OccursAt(r, description, at);
  }

  // ---------------------------------------------------------------------------
  // Search results
  // ---------------------------------------------------------------------------

  /** The values a result's fields can hold, as far as truthiness and equality go. */
  datatype Value = Str(s: string) | Int(i: int) | Null

  /** Python truthiness: the empty string, zero and `None` are false. */
  predicate IsTruthy(v: Value) {
    match v
    case Str(s) => s != ""
    case Int(i) => i != 0
    case Null => false
  }

  /** One search result: a dictionary, a bare string, or anything else. */
  datatype Entry = Dict(fields: map<string, Value>) | Plain(s: string) | Other

  /** `dict.get(key)`: `None` for a missing key. */
  function Get(fields: map<string, Value>, key: string): Value {
    if key in fields then fields[key] else Null
  }

  /** Python's `a or b`: `a` when it is truthy, else `b`. */
  function Or(a: Value, b: Value): (r: Value)
    ensures IsTruthy(a) ==> r == a
    ensures !IsTruthy(a) ==> r == b
  {
    if IsTruthy(a) then a else b
  }

  /** The keys a dictionary result may carry its path under, in the order they are tried. */
  const PathKeys: seq<string> := ["file", "path", "filepath"]

  /**
   * The path one result names: the first truthy one of `file`, `path` and
   * `filepath` for a dictionary (the last one even when falsy), the string
   * itself for a string, and `None` for anything else.
   */
  function PathOf(e: Entry): (r: Value)
    ensures e.Other? ==> r == Null
    ensures e.Plain? ==> r == Str(e.s)
    ensures e.Dict? ==> (IsTruthy(r) <==> exists key :: key in PathKeys && IsTruthy(Get(e.fields, key)))
    ensures e.Dict? && IsTruthy(r) ==> r in e.fields.Values
  {
    match e
    case Dict(f) => Or(Get(f, "file"), Or(Get(f, "path"), Get(f, "filepath")))
    case Plain(s) => Str(s)
    case Other => Null
  }

  /** The truthy paths of the results, in order and with repeats. */
  function Candidates(results: seq<Entry>): (r: seq<Value>)
    ensures |r| <= |results|
    ensures forall v :: v in r ==> IsTruthy(v)
  {
    if results == [] then []
    else
      var last := PathOf(results[|results| - 1]);
      Candidates(results[..|results| - 1]) + (if IsTruthy(last) then [last] else [])
  }

  /** Every value once, at its first occurrence. */
  function Dedup(s: seq<Value>): (r: seq<Value>)
    ensures forall v :: v in r <==> v in s
    ensures Distinct(r)
  {
    if s == [] then []
    else
      var d := Dedup(s[..|s| - 1]);
      var last := s[|s| - 1];
      assert s == s[..|s| - 1] + [last];
      if last in d then d else d + [last]
  }

  predicate Distinct(s: seq<Value>) {
    forall i, j :: 0 <= i < j < |s| ==> s[i] != s[j]
  }

  /**
   * `extract_files_from_search_results`: the paths of the results, each kept
   * once in the order it first appears; nothing for `None` or no results.
   */
  method ExtractFiles(results: Option<seq<Entry>>) returns (paths: seq<Value>)
    ensures results.None? || results.value == [] ==> paths == []
    ensures results.Some? ==> paths == Dedup(Candidates(results.value))
    ensures Distinct(paths) && forall v :: v in paths ==> IsTruthy(v)
    ensures results.Some? ==> forall v :: v in paths <==> v in Candidates(results.value)
  {
    if results.None? || results.value == [] {
      return [];
    }
    var rs := results.value;
    paths := [];
    var seen: set<Value> := {};
    var i := 0;
    while i < |rs|
      invariant 0 <= i <= |rs|
      invariant paths == Dedup(Candidates(rs[..i]))
      invariant forall v :: v in seen <==> v in paths
    {
      var path := PathOf(rs[i]);
      var c := Candidates(rs[..i]);
      CandidatesStep(rs, i);
      if IsTruthy(path) {
        assert Candidates(rs[..i + 1]) == c + [path];
        DedupSnoc(c, path);
        if path !in seen {
          paths := paths + [path];
          seen := seen + {path};
        } else {
          assert path in Dedup(c);
        }
      } else {
        assert c + [] == c;
      }
      i := i + 1;
    }
    assert rs[..|rs|] == rs;
  }

  /** One more result adds its path, when truthy, to the candidates. */
  lemma CandidatesStep(rs: seq<Entry>, i: int)
    requires 0 <= i < |rs|
    ensures var path := PathOf(rs[i]);
      Candidates(rs[..i + 1]) == Candidates(rs[..i]) + (if IsTruthy(path) then [path] else [])
  {
    assert rs[..i + 1][..i] == rs[..i];
  }

  /** One more value is appended exactly when it is new. */
  lemma DedupSnoc(s: seq<Value>, x: Value)
    ensures Dedup(s + [x]) == if x in Dedup(s) then Dedup(s) else Dedup(s) + [x]
  {
    assert (s + [x])[..|s + [x]| - 1] == s;
  }

  /** Values that are already distinct come back as they are. */
  lemma {:induction false} DedupDistinct(s: seq<Value>)
    requires Distinct(s)
    ensures Dedup(s) == s
  {
    if s != [] {
      var init := s[..|s| - 1];
      assert Distinct(init);
      DedupDistinct(init);
      assert s[|s| - 1] !in init;
      assert s == init + [s[|s| - 1]];
    }
  }

  /** De-duplicating twice changes nothing. */
  lemma DedupIdempotent(s: seq<Value>)
    ensures Dedup(Dedup(s)) == Dedup(s)
  {
    DedupDistinct(Dedup(s));
  }

  /**
   * Reading more results only appends: the paths of a prefix of the results
   * are a prefix of the paths of all of them, which is what keeping the
   * first-occurrence order means.
   */
  lemma {:induction false} DedupPrefix(s: seq<Value>, k: nat)
    requires k <= |s|
    ensures IsPrefix(Dedup(s), Dedup(s[..k]))
    decreases |s| - k
  {
    if k < |s| {
      DedupPrefix(s, k + 1);
      assert s[..k + 1][..k] == s[..k];
    } else {
      assert s[..k] == s;
    }
  }

  /** `a` begins with `b`. */
  predicate IsPrefix(a: seq<Value>, b: seq<Value>) {
    |b| <= |a| && a[..|b|] == b
  }

  // ---------------------------------------------------------------------------
  // get_relevant_files_for_cell
  // ---------------------------------------------------------------------------

  /** What the search tool does with a query: returns results (or `None`), or raises. */
  datatype SearchOutcome = Returned(results: Option<seq<Entry>>) | Raised

  /**
   * `get_relevant_files_for_cell`: the query is formatted with the
   * instruction as its context and handed to the search tool with the target
   * directories (none meaning all); no tool, or a tool that raises, gives no
   * files.
   */
  method RelevantFiles(description: string, instruction: string,
                       search: Option<(string, seq<string>) -> SearchOutcome>,
                       targets: Option<seq<string>>) returns (paths: seq<Value>)
    ensures search.None? ==> paths == []
    ensures search.Some? && search.value(CodebaseQuery(description, instruction), targets.GetOr([])).Raised? ==> paths == []
    ensures search.Some? ==>
      match search.value(CodebaseQuery(description, instruction), targets.GetOr([]))
      case Raised => paths == []
      case Returned(None) => paths == []
      case Returned(Some(rs)) => paths == Dedup(Candidates(rs))
  {
    var query := CodebaseQuery(description, instruction);
    if search.None? {
      return [];
    }
    var outcome := search.value(query, targets.GetOr([]));
    match outcome
    case Raised =>
      paths := [];
    case Returned(results) =>
      paths := ExtractFiles(results);
  }
}
