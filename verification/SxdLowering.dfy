/** The lowering of a `.sxd` tree into the typed configuration: it stops at the first error. */
module SxdLowering {
  import opened Prelude
  import opened SxdTree

  datatype IgnoreBlock = IgnoreBlock(patterns: string)
  datatype ProjectBlock = ProjectBlock(slug: string, displayLabel: Option<string>, paths: seq<string>)
  datatype GroupBlock = GroupBlock(slug: string, displayLabel: Option<string>, members: seq<string>)
  datatype PortBlock = PortBlock(port: Option<int>)

  datatype Config = Config(
    version: Option<string>, ignore: Option<IgnoreBlock>, projects: seq<ProjectBlock>, groups: seq<GroupBlock>,
    mcp: Option<PortBlock>, viz: Option<PortBlock>)

  const EMPTY_CONFIG := Config(None, None, [], [], None, None)

  // ---- values ----

  function PlainText(parts: seq<Part>, context: string, out: string): Result<string> {
    if parts == [] then Ok(out) else
    match parts[0]
    case Lit(text) => PlainText(parts[1..], context, out + text)
    case Interp(_) => Err(Interpolated(context))
    case OtherPart => Err(UnknownPart(context))
  }

  method StringLitToPlain(parts: seq<Part>, context: string) returns (r: Result<string>)
    ensures r == PlainText(parts, context, "")
  {
    var out := "";
    for k := 0 to |parts|
      invariant PlainText(parts, context, "") == PlainText(parts[k..], context, out)
    {
      assert parts[k..][1..] == parts[k + 1..];
      match parts[k] {
        case Lit(text) => out := out + text;
        case Interp(_) => return Err(Interpolated(context));
        case OtherPart => return Err(UnknownPart(context));
      }
    }
    r := Ok(out);
  }

  function ExpectString(v: Value, context: string): Result<string> {
    if v.expr.Str? then PlainText(v.expr.parts, context, "") else Err(NotAString(context))
  }

  function ExpectStrings(items: seq<Value>, context: string): Result<seq<string>> {
    if items == [] then Ok([]) else
    var first := ExpectString(items[0], context);
    if first.Err? then Err(first.rule) else
    var rest := ExpectStrings(items[1..], context);
    if rest.Err? then rest else Ok([first.value] + rest.value)
  }

  function ExpectStringList(v: Value, context: string): Result<seq<string>> {
    if v.expr.List? then ExpectStrings(v.expr.items, context) else Err(NotAList(context))
  }

  function ExpectPort(v: Value, context: string): Result<int> {
    if !v.expr.Int? then Err(NotAPort(context))
    else if v.expr.n < 1 || v.expr.n > MAX_PORT then Err(PortOutOfRange(context, v.expr.n))
    else Ok(v.expr.n)
  }

  // ---- the fields of one block ----

  /** What the assignments of a block have set so far. */
  datatype Fields = Fields(texts: map<string, string>, lists: map<string, seq<string>>, ports: map<string, int>)

  const NO_FIELDS := Fields(map[], map[], map[])

  function SetText(key: string, v: Value, context: string, st: Fields): Result<Fields> {
    var r := ExpectString(v, context);
    if r.Err? then Err(r.rule) else Ok(st.(texts := st.texts[key := r.value]))
  }

  function SetList(key: string, v: Value, context: string, st: Fields): Result<Fields> {
    var r := ExpectStringList(v, context);
    if r.Err? then Err(r.rule) else Ok(st.(lists := st.lists[key := r.value]))
  }

  function SetPort(key: string, v: Value, context: string, st: Fields): Result<Fields> {
    var r := ExpectPort(v, context);
    if r.Err? then Err(r.rule) else Ok(st.(ports := st.ports[key := r.value]))
  }

  function IgnoreField(key: string, v: Value, st: Fields): Result<Fields> {
    if key != "patterns" then Err(UnknownField("ignore", "", key))
    else SetText("patterns", v, "ignore.patterns", st)
  }

  function ProjectField(slug: string, key: string, v: Value, st: Fields): Result<Fields> {
    match key
    case "label" => SetText("label", v, "project.label", st)
    case "path" => SetText("path", v, "project.path", st)
    case "paths" => SetList("paths", v, "project.paths", st)
    case _ => Err(UnknownField("project", slug, key))
  }

  function GroupField(slug: string, key: string, v: Value, st: Fields): Result<Fields> {
    match key
    case "label" => SetText("label", v, "group.label", st)
    case "members" => SetList("members", v, "group.members", st)
    case _ => Err(UnknownField("group", slug, key))
  }

  function McpField(key: string, v: Value, st: Fields): Result<Fields> {
    match key
    case "port" => SetPort("port", v, "mcp.port", st)
    case _ => Err(UnknownField("mcp", "", key))
  }

  function VizField(key: string, v: Value, st: Fields): Result<Fields> {
    match key
    case "port" => SetPort("port", v, "viz.port", st)
    case _ => Err(UnknownField("viz", "", key))
  }

  predicate IsBlock(kind: string) {
    kind in {"ignore", "project", "group", "mcp", "viz"}
  }

  /** The slug of a project or group; the other blocks have none. */
  function Slug(b: Stmt): Result<string>
    requires b.Block?
  {
    match b.kind
    case "project" => if b.blockLabel.Some? then Ok(b.blockLabel.value) else Err(MissingLabel("project"))
    case "group" => if b.blockLabel.Some? then Ok(b.blockLabel.value) else Err(MissingLabel("group"))
    case _ => Ok("")
  }

  /** One statement inside a block: every kind of block takes assignments only. */
  function LowerField(kind: string, slug: string, s: Stmt, st: Fields): Result<Fields>
    requires IsBlock(kind)
  {
    if !s.Assign? then Err(OnlyAssignments(kind, slug)) else
    match kind
    case "ignore" => IgnoreField(s.key, s.value, st)
    case "project" => ProjectField(slug, s.key, s.value, st)
    case "group" => GroupField(slug, s.key, s.value, st)
    case "mcp" => McpField(s.key, s.value, st)
    case _ => VizField(s.key, s.value, st)
  }

  function LowerFields(kind: string, slug: string, stmts: seq<Stmt>, st: Fields): Result<Fields>
    requires IsBlock(kind)
  {
    if stmts == [] then Ok(st) else
    var next := LowerField(kind, slug, stmts[0], st);
    if next.Err? then next else LowerFields(kind, slug, stmts[1..], next.value)
  }

  method LowerBlockFields(b: Stmt, slug: string) returns (r: Result<Fields>)
    requires b.Block? && IsBlock(b.kind)
    ensures r == LowerFields(b.kind, slug, b.stmts, NO_FIELDS)
  {
    var st := NO_FIELDS;
    for k := 0 to |b.stmts|
      invariant LowerFields(b.kind, slug, b.stmts, NO_FIELDS) == LowerFields(b.kind, slug, b.stmts[k..], st)
    {
      assert b.stmts[k..][1..] == b.stmts[k + 1..];
      var next := LowerField(b.kind, slug, b.stmts[k], st);
      if next.Err? {
        return next;
      }
      st := next.value;
    }
    r := Ok(st);
  }

  function TextField(st: Fields, key: string): Option<string> {
    if key in st.texts then Some(st.texts[key]) else None
  }

  function PortField(st: Fields): Option<int> {
    if "port" in st.ports then Some(st.ports["port"]) else None
  }

  function ProjectPaths(st: Fields, slug: string): Result<seq<string>> {
    if "path" in st.texts && "paths" in st.lists then Err(PathAndPaths(slug))
    else if "path" in st.texts then Ok([st.texts["path"]])
    else if "paths" !in st.lists then Err(NoPath(slug))
    else if st.lists["paths"] == [] then Err(EmptyPaths(slug))
    else Ok(st.lists["paths"])
  }

  /** What a block adds to the configuration once its fields are read. */
  function AddBlock(b: Stmt, slug: string, st: Fields, out: Config): Result<Config>
    requires b.Block? && IsBlock(b.kind)
  {
    match b.kind
    case "ignore" => Ok(out.(ignore := Some(IgnoreBlock(if "patterns" in st.texts then st.texts["patterns"] else ""))))
    case "project" =>
      var paths := ProjectPaths(st, slug);
      if paths.Err? then Err(paths.rule)
      else Ok(out.(projects := out.projects + [ProjectBlock(slug, TextField(st, "label"), paths.value)]))
    case "group" =>
      var members := if "members" in st.lists then st.lists["members"] else [];
      Ok(out.(groups := out.groups + [GroupBlock(slug, TextField(st, "label"), members)]))
    case "mcp" => Ok(out.(mcp := Some(PortBlock(PortField(st)))))
    case _ => Ok(out.(viz := Some(PortBlock(PortField(st)))))
  }

  // ---- the file ----

  /** `mcp` and `viz` may appear once. */
  predicate Repeats(b: Stmt, hasMcp: bool, hasViz: bool)
    requires b.Block?
  {
    (b.kind == "mcp" && hasMcp) || (b.kind == "viz" && hasViz)
  }

  function LowerBlock(b: Stmt, out: Config): Result<Config>
    requires b.Block?
  {
    if !IsBlock(b.kind) then Err(UnknownBlock(b.kind))
    else if Repeats(b, out.mcp.Some?, out.viz.Some?) then Err(Duplicate(b.kind))
    else
      var slug := Slug(b);
      if slug.Err? then Err(slug.rule) else
      var st := LowerFields(b.kind, slug.value, b.stmts, NO_FIELDS);
      if st.Err? then Err(st.rule) else AddBlock(b, slug.value, st.value, out)
  }

  function LowerStmt(s: Stmt, out: Config): Result<Config> {
    match s
    case Assign(_, key, value) =>
      if key != "version" then Err(UnknownAssign(key)) else
      var version := ExpectString(value, "version");
      if version.Err? then Err(version.rule) else Ok(out.(version := Some(version.value)))
    case Block(_, _, _, _) => LowerBlock(s, out)
    case OtherStmt => Err(UnknownStatement)
  }

  function LowerStmts(stmts: seq<Stmt>, out: Config): Result<Config> {
    if stmts == [] then Ok(out) else
    var next := LowerStmt(stmts[0], out);
    if next.Err? then next else LowerStmts(stmts[1..], next.value)
  }

  method LowerTopStmt(s: Stmt, out: Config) returns (r: Result<Config>)
    ensures r == LowerStmt(s, out)
  {
    if !s.Block? || !IsBlock(s.kind) || Repeats(s, out.mcp.Some?, out.viz.Some?) || Slug(s).Err? {
      return LowerStmt(s, out);
    }
    var slug := Slug(s).value;
    var st := LowerBlockFields(s, slug);
    r := if st.Err? then Err(st.rule) else AddBlock(s, slug, st.value, out);
  }

  method LowerFile(stmts: seq<Stmt>) returns (r: Result<Config>)
    ensures r == LowerStmts(stmts, EMPTY_CONFIG)
  {
    var out := EMPTY_CONFIG;
    for k := 0 to |stmts|
      invariant LowerStmts(stmts, EMPTY_CONFIG) == LowerStmts(stmts[k..], out)
    {
      assert stmts[k..][1..] == stmts[k + 1..];
      var next := LowerTopStmt(stmts[k], out);
      if next.Err? {
        return next;
      }
      out := next.value;
    }
    r := Ok(out);
  }

  // ---- what a lowered configuration guarantees ----

  predicate PortOk(b: Option<PortBlock>) {
    b.Some? && b.value.port.Some? ==> 1 <= b.value.port.value <= MAX_PORT
  }

  ghost predicate Sensible(c: Config) {
    && PortOk(c.mcp) && PortOk(c.viz)
    && forall k :: 0 <= k < |c.projects| ==> c.projects[k].paths != []
  }

  /** The labels of the blocks of one kind, in order. */
  function Labels(stmts: seq<Stmt>, kind: string): seq<string> {
    if stmts == [] then [] else
    (if stmts[0].Block? && stmts[0].kind == kind && stmts[0].blockLabel.Some? then [stmts[0].blockLabel.value] else [])
    + Labels(stmts[1..], kind)
  }

  ghost function ProjectSlugs(c: Config): seq<string> {
    seq(|c.projects|, k requires 0 <= k < |c.projects| => c.projects[k].slug)
  }

  ghost function GroupSlugs(c: Config): seq<string> {
    seq(|c.groups|, k requires 0 <= k < |c.groups| => c.groups[k].slug)
  }

  lemma {:induction false} PortsInRange(kind: string, slug: string, stmts: seq<Stmt>, st: Fields)
    requires IsBlock(kind) && LowerFields(kind, slug, stmts, st).Ok? && forall key :: key in st.ports ==>
      1 <= st.ports[key] <= MAX_PORT
    ensures forall key :: key in LowerFields(kind, slug, stmts, st).value.ports ==>
      1 <= LowerFields(kind, slug, stmts, st).value.ports[key] <= MAX_PORT
  {
    if stmts != [] {
      PortsInRange(kind, slug, stmts[1..], LowerField(kind, slug, stmts[0], st).value);
    }
  }

  lemma StepGuarantees(s: Stmt, out: Config)
    requires Sensible(out) && LowerStmt(s, out).Ok?
    ensures var r := LowerStmt(s, out).value;
      && Sensible(r)
      && ProjectSlugs(r) == ProjectSlugs(out) + Labels([s], "project")
      && GroupSlugs(r) == GroupSlugs(out) + Labels([s], "group")
  {
    var r := LowerStmt(s, out).value;
    assert Labels([], "project") == Labels([], "group") == [];
    assert [s][1..] == [];
    if s.Block? {
      PortsInRange(s.kind, Slug(s).value, s.stmts, NO_FIELDS);
    }
  }

  /**
   A configuration that loads has ports a socket can bind, a path for every project,
   and one project and group per block, in order.
   */
  lemma {:induction false} LoweredIsSensible(stmts: seq<Stmt>, out: Config)
    requires Sensible(out) && LowerStmts(stmts, out).Ok?
    ensures var r := LowerStmts(stmts, out).value;
      && Sensible(r)
      && ProjectSlugs(r) == ProjectSlugs(out) + Labels(stmts, "project")
      && GroupSlugs(r) == GroupSlugs(out) + Labels(stmts, "group")
  {
    if stmts != [] {
      var s := stmts[0];
      StepGuarantees(s, out);
      LoweredIsSensible(stmts[1..], LowerStmt(s, out).value);
      LabelsCons(stmts, "project");
      LabelsCons(stmts, "group");
    }
  }

  lemma LabelsCons(stmts: seq<Stmt>, kind: string)
    requires stmts != []
    ensures Labels(stmts, kind) == Labels([stmts[0]], kind) + Labels(stmts[1..], kind)
  {
    assert [stmts[0]][1..] == [];
  }
}
