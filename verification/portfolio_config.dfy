/**
 * The portfolio generator's configuration: the checks a loaded JSON document
 * must pass, the values read from it with their defaults, and where the
 * Excel template is found. Reading the file and decoding the JSON are left
 * to the caller; the model starts from the decoded document.
 */
module PortfolioConfig {
  import opened Wrappers
  import opened Text

  /** A decoded JSON value. */
  datatype Json =
    | JStr(s: string)
    | JNum(n: int)
    | JBool(b: bool)
    | JNull
    | JArray(items: seq<Json>)
    | JObject(fields: map<string, Json>)

  /** `dict.get(key, default)`. */
  function GetOr(fields: map<string, Json>, key: string, default: Json): (r: Json)
    ensures key in fields ==> r == fields[key]
    ensures key !in fields ==> r == default
  {
    if key in fields then fields[key] else default
  }

  // ---------------------------------------------------------------------------
  // Validation
  // ---------------------------------------------------------------------------

  /** The keys every configuration must have, in the order they are checked. */
  const RequiredFields: seq<string> := ["version", "excel_template", "cell_mapping"]

  /** Why a configuration is refused (`ConfigLoadError`). */
  datatype ConfigError =
    | MissingField(name: string)
    | TemplateNotObject
    | TemplateWithoutFile
    | MappingNotObject

  /** The first required key the document lacks, if any. */
  function FirstMissing(data: map<string, Json>, fields: seq<string>): (r: Option<string>)
    ensures r.None? <==> forall k :: 0 <= k < |fields| ==> fields[k] in data
    ensures r.Some? ==> r.value in fields && r.value !in data
    ensures r.Some? ==> forall k :: 0 <= k < |fields| && fields[k] != r.value && fields[k] !in data ==>
      exists j :: 0 <= j < k && fields[j] == r.value
  {
    if fields == [] then None
    else if fields[0] !in data then Some(fields[0])
    else
      var rest := FirstMissing(data, fields[1..]);
      assert rest.Some? ==> forall k :: 1 <= k < |fields| ==> fields[k] == fields[1..][k - 1];
      rest
  }

  /** Everything the checks demand of a document. */
  predicate Valid(data: map<string, Json>) {
    && "version" in data && "excel_template" in data && "cell_mapping" in data
    && data["excel_template"].JObject?
    && "file" in data["excel_template"].fields
    && data["cell_mapping"].JObject?
  }

  /**
   * `PortfolioConfig._validate_config`: the three required keys are checked
   * in order, then that `excel_template` is an object with a `file` key,
   * then that `cell_mapping` is an object; the first failure is reported.
   */
  function Validate(data: map<string, Json>): (r: Result<map<string, Json>, ConfigError>)
    ensures r.Ok? <==> Valid(data)
    ensures r.Ok? ==> r.value == data
    ensures r.Err? && r.error.MissingField? ==> r.error.name in RequiredFields && r.error.name !in data
    ensures (forall k :: 0 <= k < |RequiredFields| ==> RequiredFields[k] in data) ==> !(r.Err? && r.error.MissingField?)
    ensures "version" !in data ==> r == Err(MissingField("version"))
  {
    assert RequiredFields[0] == "version" && RequiredFields[1] == "excel_template" && RequiredFields[2] == "cell_mapping";
    match FirstMissing(data, RequiredFields)
    case Some(name) => Err(MissingField(name))
    case None =>
      if !data["excel_template"].JObject? then Err(TemplateNotObject)
      else if "file" !in data["excel_template"].fields then Err(TemplateWithoutFile)
      else if !data["cell_mapping"].JObject? then Err(MappingNotObject)
      else Ok(data)
  }

  /** A configuration that passed the checks (the constructor always runs them). */
  type Config = data: map<string, Json> | Valid(data)
    witness map["version" := JStr("1.0"), "excel_template" := JObject(map["file" := JStr("")]),
                "cell_mapping" := JObject(map[])]

  /** The required keys are checked in order: with `version` present, a missing `excel_template` is reported whatever else is missing. */
  lemma MissingReportedInOrder(data: map<string, Json>)
    requires "version" in data && "excel_template" !in data
    ensures Validate(data) == Err(MissingField("excel_template"))
  {
    var fields := RequiredFields;
    assert fields[0] == "version" && fields[1] == "excel_template" && fields[2] == "cell_mapping";
    var r := FirstMissing(data, fields);
    assert r.Some?;
  }

  // ---------------------------------------------------------------------------
  // Properties
  // ---------------------------------------------------------------------------

  /** `version`: always present in a checked configuration, so its default is never used. */
  function Version(c: Config): (r: Json)
    ensures r == c["version"]
  {
    GetOr(c, "version", JStr("1.0"))
  }

  /** `description`, empty when absent. */
  function Description(c: Config): (r: Json)
    ensures "description" !in c ==> r == JStr("")
    ensures "description" in c ==> r == c["description"]
  {
    GetOr(c, "description", JStr(""))
  }

  /** `excel_template`: the template object. */
  function ExcelTemplate(c: Config): (r: map<string, Json>)
    ensures "file" in r
  {
    GetOr(c, "excel_template", JObject(map[])).fields
  }

  /** `excel_template_file`: always present in a checked configuration. */
  function ExcelTemplateFile(c: Config): (r: Json)
    ensures r == ExcelTemplate(c)["file"]
  {
    GetOr(ExcelTemplate(c), "file", JStr(""))
  }

  /** `excel_template_sheet`, `フォーマット` when absent. */
  function ExcelTemplateSheet(c: Config): (r: Json)
    ensures "sheet" !in ExcelTemplate(c) ==> r == JStr("フォーマット")
    ensures "sheet" in ExcelTemplate(c) ==> r == ExcelTemplate(c)["sheet"]
  {
    GetOr(ExcelTemplate(c), "sheet", JStr("フォーマット"))
  }

  /** `cell_mapping`: the mapping object. */
  function CellMapping(c: Config): (r: map<string, Json>)
    ensures r == c["cell_mapping"].fields
  {
    GetOr(c, "cell_mapping", JObject(map[])).fields
  }

  /** `data_sources`, an empty object when absent. */
  function DataSources(c: Config): (r: Json)
    ensures "data_sources" !in c ==> r == JObject(map[])
    ensures "data_sources" in c ==> r == c["data_sources"]
  {
    GetOr(c, "data_sources", JObject(map[]))
  }

  /** `text_transforms`, an empty object when absent. */
  function TextTransforms(c: Config): (r: Json)
    ensures "text_transforms" !in c ==> r == JObject(map[])
    ensures "text_transforms" in c ==> r == c["text_transforms"]
  {
    GetOr(c, "text_transforms", JObject(map[]))
  }

  /** `get_cell_config`: the cell's entry of the mapping, `None` for a cell it does not name. */
  function CellConfig(c: Config, cell: string): (r: Option<Json>)
    ensures r.None? <==> cell !in c["cell_mapping"].fields
    ensures r.Some? ==> r.value == c["cell_mapping"].fields[cell]
  {
    if cell in CellMapping(c) then Some(CellMapping(c)[cell]) else None
  }

  /** A checked configuration's defaults: the minimal document reads back its defaults everywhere. */
  lemma MinimalDefaults(file: Json)
    ensures var c: Config := map["version" := JStr("1.0"), "excel_template" := JObject(map["file" := file]),
                                 "cell_mapping" := JObject(map[])];
      && Description(c) == JStr("")
      && ExcelTemplateFile(c) == file
      && ExcelTemplateSheet(c) == JStr("フォーマット")
      && DataSources(c) == JObject(map[])
      && TextTransforms(c) == JObject(map[])
      && forall cell :: CellConfig(c, cell) == None
  {
    var c: Config := map["version" := JStr("1.0"), "excel_template" := JObject(map["file" := file]),
                         "cell_mapping" := JObject(map[])];
    assert "description" !in c && "data_sources" !in c && "text_transforms" !in c;
    assert "sheet" !in ExcelTemplate(c);
  }

  // ---------------------------------------------------------------------------
  // POSIX paths
  // ---------------------------------------------------------------------------

  /** `os.path.isabs`. */
  predicate IsAbs(p: string) {
    StartsWith(p, "/")
  }

  /** `os.path.join(a, b)` for two parts. */
  function PathJoin(a: string, b: string): (r: string)
    ensures IsAbs(b) ==> r == b
    ensures !IsAbs(b) ==> EndsWith(r, b) && StartsWith(r, a)
  {
    if IsAbs(b) then b
    else if a == "" || EndsWith(a, "/") then a + b
    else a + "/" + b
  }

  /** The index of the last `/` (Python's `p.rfind("/")`), -1 when there is none. */
  function LastSlash(p: string): (r: int)
    ensures -1 <= r < |p|
    ensures r >= 0 ==> p[r] == '/'
    ensures forall k :: r < k < |p| ==> p[k] != '/'
  {
    if p == [] then -1
    else if p[|p| - 1] == '/' then |p| - 1
    else LastSlash(p[..|p| - 1])
  }

  /** Drops trailing slashes (`rstrip("/")`). */
  function RStripSlashes(s: string): (r: string)
    ensures |r| <= |s| && r == s[..|r|]
    ensures |r| > 0 ==> r[|r| - 1] != '/'
    ensures forall k :: |r| <= k < |s| ==> s[k] == '/'
  {
    if s != [] && s[|s| - 1] == '/' then RStripSlashes(s[..|s| - 1]) else s
  }

  /**
   * `os.path.dirname`: everything up to the last `/`, with trailing slashes
   * dropped unless the head is made of slashes only.
   */
  function Dirname(p: string): (r: string)
    ensures StartsWith(p, r)
  {
    var head := p[..LastSlash(p) + 1];
    if head != "" && exists k :: 0 <= k < |head| && head[k] != '/' then RStripSlashes(head) else head
  }

  /** The directory of a file directly inside `dir` is `dir`. */
  lemma DirnameOfChild(dir: string, name: string)
    requires dir != "" && dir[|dir| - 1] != '/'
    requires forall k :: 0 <= k < |name| ==> name[k] != '/'
    ensures Dirname(dir + "/" + name) == dir
  {
    var p := dir + "/" + name;
    assert p[|dir|] == '/';
    assert forall k :: |dir| < k < |p| ==> p[k] == name[k - |dir| - 1];
    assert LastSlash(p) == |dir|;
    var head := p[..|dir| + 1];
    assert head == dir + "/";
    assert head[|dir| - 1] != '/';
    assert RStripSlashes(head) == RStripSlashes(dir);
  }

  /** The file name the configuration has below the working directory. */
  const ConfigDir: string := ".cursor"
  const ConfigFile: string := "portfolio_config.json"
  const ConfigTail: string := ConfigDir + "/" + ConfigFile

  /** A concatenation starts with its first part and ends with its second. */
  lemma ConcatEnds(a: string, b: string)
    ensures StartsWith(a + b, a) && EndsWith(a + b, b)
  {
    assert (a + b)[..|a|] == a;
    assert (a + b)[|a + b| - |b|..] == b;
  }

  /** Neither fixed part of the default path holds a slash. */
  lemma ConfigNamesHaveNoSlash()
    ensures forall k :: 0 <= k < |ConfigDir| ==> ConfigDir[k] != '/'
    ensures forall k :: 0 <= k < |ConfigFile| ==> ConfigFile[k] != '/'
  {
  }

  /** Concatenation may be regrouped. */
  lemma Regroup(a: string, b: string, c: string, d: string, e: string)
    ensures a + b + (c + d + e) == a + b + c + d + e
  {
  }

  /** Neither fixed part of the default path is absolute, and the directory part does not end in a slash. */
  lemma ConfigNamesRelative()
    ensures !IsAbs(ConfigDir) && !IsAbs(ConfigFile)
    ensures ConfigDir != "" && ConfigDir[|ConfigDir| - 1] != '/'
  {
    assert ConfigDir[..1][0] == '.';
    assert ConfigFile[..1][0] == 'p';
  }

  /** Joining a relative part appends it, after a slash unless the base is empty or already ends in one. */
  lemma JoinRelative(a: string, b: string)
    requires !IsAbs(b)
    ensures PathJoin(a, b) == (if a == "" || EndsWith(a, "/") then a else a + "/") + b
  {
  }

  /** A text whose last part ends in something other than a slash does not end in a slash. */
  lemma NoTrailingSlash(a: string, b: string)
    requires b != "" && b[|b| - 1] != '/'
    ensures !EndsWith(a + b, "/")
  {
    var s := a + b;
    assert s[|s| - 1] == b[|b| - 1];
    assert s[|s| - 1..] == [s[|s| - 1]];
  }

  /** Joining the two fixed parts onto `cwd` appends the fixed tail, with a slash before it where `cwd` lacks one. */
  lemma {:induction false} JoinConfigParts(cwd: string)
    ensures PathJoin(PathJoin(cwd, ConfigDir), ConfigFile)
         == (if cwd == "" || EndsWith(cwd, "/") then cwd else cwd + "/") + ConfigTail
  {
    var front := if cwd == "" || EndsWith(cwd, "/") then cwd else cwd + "/";
    ConfigNamesRelative();
    JoinRelative(cwd, ConfigDir);
    NoTrailingSlash(front, ConfigDir);
    JoinRelative(front + ConfigDir, ConfigFile);
    Regroup(front, "", ConfigDir, "/", ConfigFile);
    assert front + "" == front;
  }

  /** Where the configuration is looked for by default: `os.path.join(cwd, ".cursor", "portfolio_config.json")`. */
  function DefaultConfigPath(cwd: string): (r: string)
    ensures StartsWith(r, cwd)
    ensures EndsWith(r, ConfigTail)
    ensures cwd != "" && !EndsWith(cwd, "/") ==> r == cwd + "/" + ConfigTail
  {
    JoinConfigParts(cwd);
    var front := if cwd == "" || EndsWith(cwd, "/") then cwd else cwd + "/";
    ConcatEnds(front, ConfigTail);
    assert front[..|cwd|] == cwd;
    PathJoin(PathJoin(cwd, ConfigDir), ConfigFile)
  }

  /** With no project root given, the root is the directory above the one holding the configuration file. */
  lemma DefaultRoot(root: string)
    requires root != "" && root[|root| - 1] != '/'
    ensures Dirname(Dirname(DefaultConfigPath(root))) == root
  {
    var dir := root + "/" + ConfigDir;
    assert !EndsWith(root, "/") by { assert root[|root| - 1..] == [root[|root| - 1]]; }
    Regroup(root, "/", ConfigDir, "/", ConfigFile);
    assert dir[|dir| - 1] == ConfigDir[|ConfigDir| - 1] == 'r';
    ConfigNamesHaveNoSlash();
    DirnameOfChild(dir, ConfigFile);
    DirnameOfChild(root, ConfigDir);
  }

  /** Joining a relative part to a directory without a trailing slash puts one slash between. */
  lemma JoinBetween(a: string, b: string)
    requires a != "" && a[|a| - 1] != '/' && b != "" && b[0] != '/'
    ensures PathJoin(a, b) == a + "/" + b
  {
    assert !EndsWith(a, "/") by {
      assert a[|a| - 1..] != "/";
    }
  }

  /**
   * `get_excel_template_path`: an absolute template path is returned as it
   * is; a relative one is joined to the project root (by default the
   * directory above the configuration file's) and made absolute by
   * `absolute`, which stands for `os.path.abspath` and its use of the
   * working directory. A template path that is not a string makes
   * `os.path.isabs` raise, which is `None` here.
   */
  function TemplatePath(c: Config, projectRoot: Option<string>, configPath: string,
                        absolute: string -> string): (r: Option<string>)
    ensures r.Some? <==> ExcelTemplateFile(c).JStr?
    ensures r.Some? && IsAbs(ExcelTemplateFile(c).s) ==> r.value == ExcelTemplateFile(c).s
    ensures r.Some? && !IsAbs(ExcelTemplateFile(c).s) ==>
      r.value == absolute(PathJoin(projectRoot.GetOr(Dirname(Dirname(configPath))), ExcelTemplateFile(c).s))
  {
    var root := projectRoot.GetOr(Dirname(Dirname(configPath)));
    match ExcelTemplateFile(c)
    case JStr(file) => if IsAbs(file) then Some(file) else Some(absolute(PathJoin(root, file)))
    case _ => None
  }

  /** With the default root, a relative template sits next to the configuration's directory. */
  lemma TemplateBesideConfig(c: Config, root: string, absolute: string -> string)
    requires root != "" && root[|root| - 1] != '/'
    requires ExcelTemplateFile(c).JStr? && !IsAbs(ExcelTemplateFile(c).s)
    ensures TemplatePath(c, None, DefaultConfigPath(root), absolute)
         == Some(absolute(root + "/" + ExcelTemplateFile(c).s))
  {
    DefaultRoot(root);
  }
}
