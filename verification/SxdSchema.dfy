/** The editor's validator of the same schema: it goes on after an error and collects them all. */
module SxdSchema {
  import opened SxdTree

  /** A message and the token it is shown at. */
  datatype Diag = Diag(span: int, rule: Rule)

  // ---- values ----

  function PartsDiags(parts: seq<Part>, context: string): seq<Diag> {
    if parts == [] then [] else
    (if parts[0].Interp? then [Diag(parts[0].span, Interpolated(context))] else []) + PartsDiags(parts[1..], context)
  }

  function StringDiags(v: Value, context: string): seq<Diag> {
    if v.expr.Str? then PartsDiags(v.expr.parts, context) else [Diag(v.span, NotAString(context))]
  }

  function ItemsDiags(items: seq<Value>, context: string): seq<Diag> {
    if items == [] then [] else StringDiags(items[0], context) + ItemsDiags(items[1..], context)
  }

  function ListDiags(v: Value, context: string): seq<Diag> {
    if v.expr.List? then ItemsDiags(v.expr.items, context) else [Diag(v.span, NotAList(context))]
  }

  function PortDiags(v: Value, context: string): seq<Diag> {
    if !v.expr.Int? then [Diag(v.span, NotAPort(context))]
    else if v.expr.n < 1 || v.expr.n > MAX_PORT then [Diag(v.span, PortOutOfRange(context, v.expr.n))]
    else []
  }

  method ExpectPlainString(v: Value, context: string, diags: seq<Diag>) returns (r: seq<Diag>)
    ensures r == diags + StringDiags(v, context)
  {
    r := diags;
    if !v.expr.Str? {
      return r + [Diag(v.span, NotAString(context))];
    }
    var parts := v.expr.parts;
    for k := 0 to |parts|
      invariant r + PartsDiags(parts[k..], context) == diags + PartsDiags(parts, context)
    {
      assert parts[k..][1..] == parts[k + 1..];
      if parts[k].Interp? {
        r := r + [Diag(parts[k].span, Interpolated(context))];
      }
    }
  }

  method ExpectStringList(v: Value, context: string, diags: seq<Diag>) returns (r: seq<Diag>)
    ensures r == diags + ListDiags(v, context)
  {
    r := diags;
    if !v.expr.List? {
      return r + [Diag(v.span, NotAList(context))];
    }
    var items := v.expr.items;
    for k := 0 to |items|
      invariant r + ItemsDiags(items[k..], context) == diags + ItemsDiags(items, context)
    {
      assert items[k..][1..] == items[k + 1..];
      ghost var before := r;
      r := ExpectPlainString(items[k], context, r);
      assert r + ItemsDiags(items[k + 1..], context) == before + ItemsDiags(items[k..], context);
    }
  }

  // ---- blocks ----

  function IgnoreDiags(span: int, key: string, v: Value): seq<Diag> {
    if key == "patterns" then StringDiags(v, "ignore.patterns")
    else [Diag(span, UnknownField("ignore", "", key))]
  }

  function ProjectDiags(slug: string, span: int, key: string, v: Value): seq<Diag> {
    match key
    case "label" => StringDiags(v, "project.label")
    case "path" => StringDiags(v, "project.path")
    case "paths" => ListDiags(v, "project.paths")
    case _ => [Diag(span, UnknownField("project", slug, key))]
  }

  function GroupDiags(slug: string, span: int, key: string, v: Value): seq<Diag> {
    match key
    case "label" => StringDiags(v, "group.label")
    case "members" => ListDiags(v, "group.members")
    case _ => [Diag(span, UnknownField("group", slug, key))]
  }

  function McpDiags(span: int, key: string, v: Value): seq<Diag> {
    match key
    case "port" => PortDiags(v, "mcp.port")
    case _ => [Diag(span, UnknownField("mcp", "", key))]
  }

  function VizDiags(span: int, key: string, v: Value): seq<Diag> {
    match key
    case "port" => PortDiags(v, "viz.port")
    case _ => [Diag(span, UnknownField("viz", "", key))]
  }

  predicate IsKnownBlock(kind: string) {
    kind == "ignore" || kind == "project" || kind == "group" || kind == "mcp" || kind == "viz"
  }

  /** Projects and groups have to be named. */
  predicate LacksLabel(b: Stmt)
    requires b.Block?
  {
    (b.kind == "project" || b.kind == "group") && b.blockLabel.None?
  }

  function SlugShown(b: Stmt): string
    requires b.Block?
  {
    if (b.kind == "project" || b.kind == "group") && b.blockLabel.Some? then b.blockLabel.value else ""
  }

  function FieldDiags(kind: string, slug: string, s: Stmt): seq<Diag> {
    match s
    case OtherStmt => []
    case Block(span, _, _, _) => [Diag(span, OnlyAssignments(kind, slug))]
    case Assign(span, key, value) =>
      match kind
      case "ignore" => IgnoreDiags(span, key, value)
      case "project" => ProjectDiags(slug, span, key, value)
      case "group" => GroupDiags(slug, span, key, value)
      case "mcp" => McpDiags(span, key, value)
      case _ => VizDiags(span, key, value)
  }

  function FieldsDiags(kind: string, slug: string, stmts: seq<Stmt>): seq<Diag> {
    if stmts == [] then [] else FieldDiags(kind, slug, stmts[0]) + FieldsDiags(kind, slug, stmts[1..])
  }

  predicate HasField(stmts: seq<Stmt>, key: string) {
    exists k :: 0 <= k < |stmts| && stmts[k].Assign? && stmts[k].key == key
  }

  function PathDiags(b: Stmt, hasPath: bool, hasPaths: bool): seq<Diag>
    requires b.Block?
  {
    if b.kind != "project" then []
    else if hasPath && hasPaths then [Diag(b.kindSpan, PathAndPaths(SlugShown(b)))]
    else if !hasPath && !hasPaths then [Diag(b.kindSpan, NoPath(SlugShown(b)))]
    else []
  }

  function BlockDiags(b: Stmt): seq<Diag>
    requires b.Block?
  {
    if !IsKnownBlock(b.kind) then [Diag(b.kindSpan, UnknownBlock(b.kind))]
    else if LacksLabel(b) then [Diag(b.kindSpan, MissingLabel(b.kind))]
    else
      FieldsDiags(b.kind, SlugShown(b), b.stmts)
      + PathDiags(b, HasField(b.stmts, "path"), HasField(b.stmts, "paths"))
  }

  method ValidateProjectAssign(slug: string, span: int, key: string, v: Value, diags: seq<Diag>) returns (r: seq<Diag>)
    ensures r == diags + ProjectDiags(slug, span, key, v)
  {
    match key {
      case "label" => r := ExpectPlainString(v, "project.label", diags);
      case "path" => r := ExpectPlainString(v, "project.path", diags);
      case "paths" => r := ExpectStringList(v, "project.paths", diags);
      case _ => r := diags + [Diag(span, UnknownField("project", slug, key))];
    }
  }

  method ValidateGroupAssign(slug: string, span: int, key: string, v: Value, diags: seq<Diag>) returns (r: seq<Diag>)
    ensures r == diags + GroupDiags(slug, span, key, v)
  {
    match key {
      case "label" => r := ExpectPlainString(v, "group.label", diags);
      case "members" => r := ExpectStringList(v, "group.members", diags);
      case _ => r := diags + [Diag(span, UnknownField("group", slug, key))];
    }
  }

  method ValidateIgnoreAssign(span: int, key: string, v: Value, diags: seq<Diag>) returns (r: seq<Diag>)
    ensures r == diags + IgnoreDiags(span, key, v)
  {
    if key == "patterns" {
      r := ExpectPlainString(v, "ignore.patterns", diags);
    } else {
      r := diags + [Diag(span, UnknownField("ignore", "", key))];
    }
  }

  method ValidateField(kind: string, slug: string, s: Stmt, diags: seq<Diag>) returns (r: seq<Diag>)
    ensures r == diags + FieldDiags(kind, slug, s)
  {
    r := diags;
    match s {
      case OtherStmt =>
      case Block(span, _, _, _) => r := r + [Diag(span, OnlyAssignments(kind, slug))];
      case Assign(span, key, value) =>
        match kind {
          case "ignore" => r := ValidateIgnoreAssign(span, key, value, r);
          case "project" => r := ValidateProjectAssign(slug, span, key, value, r);
          case "group" => r := ValidateGroupAssign(slug, span, key, value, r);
          case "mcp" => r := r + McpDiags(span, key, value);
          case _ => r := r + VizDiags(span, key, value);
        }
    }
  }

  method ValidateFields(b: Stmt, diags: seq<Diag>) returns (r: seq<Diag>, hasPath: bool, hasPaths: bool)
    requires b.Block?
    ensures r == diags + FieldsDiags(b.kind, SlugShown(b), b.stmts)
    ensures hasPath == HasField(b.stmts, "path") && hasPaths == HasField(b.stmts, "paths")
  {
    r, hasPath, hasPaths := diags, false, false;
    var stmts, slug := b.stmts, SlugShown(b);
    for k := 0 to |stmts|
      invariant r + FieldsDiags(b.kind, slug, stmts[k..]) == diags + FieldsDiags(b.kind, slug, stmts)
      invariant hasPath == HasField(stmts[..k], "path") && hasPaths == HasField(stmts[..k], "paths")
    {
      HasFieldSnoc(stmts, k, "path");
      HasFieldSnoc(stmts, k, "paths");
      var s := stmts[k];
      if s.Assign? && s.key == "path" {
        hasPath := true;
      }
      if s.Assign? && s.key == "paths" {
        hasPaths := true;
      }
      FieldsDiagsStep(b.kind, slug, stmts, k, r);
      r := ValidateField(b.kind, slug, s, r);
    }
    assert stmts[..|stmts|] == stmts;
  }

  method ValidateBlock(b: Stmt, diags: seq<Diag>) returns (r: seq<Diag>)
    requires b.Block?
    ensures r == diags + BlockDiags(b)
  {
    r := diags;
    if !IsKnownBlock(b.kind) {
      return r + [Diag(b.kindSpan, UnknownBlock(b.kind))];
    }
    if LacksLabel(b) {
      return r + [Diag(b.kindSpan, MissingLabel(b.kind))];
    }
    var hasPath, hasPaths;
    r, hasPath, hasPaths := ValidateFields(b, r);
    ghost var fields := r;
    if b.kind == "project" && hasPath && hasPaths {
      r := r + [Diag(b.kindSpan, PathAndPaths(SlugShown(b)))];
    }
    if b.kind == "project" && !hasPath && !hasPaths {
      r := r + [Diag(b.kindSpan, NoPath(SlugShown(b)))];
    }
    assert r == fields + PathDiags(b, hasPath, hasPaths);
  }

  lemma FieldsDiagsStep(kind: string, slug: string, stmts: seq<Stmt>, k: nat, before: seq<Diag>)
    requires k < |stmts|
    ensures before + FieldsDiags(kind, slug, stmts[k..]) ==
      before + FieldDiags(kind, slug, stmts[k]) + FieldsDiags(kind, slug, stmts[k + 1..])
  {
    assert stmts[k..][1..] == stmts[k + 1..];
  }

  lemma HasFieldSnoc(stmts: seq<Stmt>, k: nat, key: string)
    requires k < |stmts|
    ensures HasField(stmts[..k + 1], key) == (HasField(stmts[..k], key) || (stmts[k].Assign? && stmts[k].key == key))
  {
    var a, b := stmts[..k], stmts[..k + 1];
    if HasField(a, key) {
      var j :| 0 <= j < |a| && a[j].Assign? && a[j].key == key;
      assert b[j] == a[j];
    }
    if stmts[k].Assign? && stmts[k].key == key {
      assert b[k] == stmts[k];
    }
  }

  // ---- the file ----

  /** `mcp` and `viz` may appear once. */
  function RepeatDiags(s: Stmt, seenMcp: bool, seenViz: bool): seq<Diag> {
    if s.Block? && ((s.kind == "mcp" && seenMcp) || (s.kind == "viz" && seenViz))
    then [Diag(s.kindSpan, Duplicate(s.kind))] else []
  }

  function TopDiags(s: Stmt): seq<Diag> {
    match s
    case Assign(span, key, value) =>
      if key == "version" then StringDiags(value, "version") else [Diag(span, UnknownAssign(key))]
    case Block(_, _, _, _) => BlockDiags(s)
    case OtherStmt => []
  }

  function StmtsDiags(stmts: seq<Stmt>, seenMcp: bool, seenViz: bool): seq<Diag> {
    if stmts == [] then [] else
    var s := stmts[0];
    RepeatDiags(s, seenMcp, seenViz) + TopDiags(s)
    + StmtsDiags(stmts[1..], seenMcp || (s.Block? && s.kind == "mcp"), seenViz || (s.Block? && s.kind == "viz"))
  }

  method ValidateTopStmt(s: Stmt, diags: seq<Diag>) returns (r: seq<Diag>)
    ensures r == diags + TopDiags(s)
  {
    match s {
      case Assign(span, key, value) =>
        if key == "version" {
          r := ExpectPlainString(value, "version", diags);
        } else {
          r := diags + [Diag(span, UnknownAssign(key))];
        }
      case Block(_, _, _, _) => r := ValidateBlock(s, diags);
      case OtherStmt => r := diags;
    }
  }

  method CheckSingleton(s: Stmt, seenMcp: bool, seenViz: bool, diags: seq<Diag>)
    returns (r: seq<Diag>, mcp: bool, viz: bool)
    ensures r == diags + RepeatDiags(s, seenMcp, seenViz)
    ensures mcp == (seenMcp || (s.Block? && s.kind == "mcp")) && viz == (seenViz || (s.Block? && s.kind == "viz"))
  {
    r, mcp, viz := diags, seenMcp, seenViz;
    if s.Block? && s.kind == "mcp" {
      if mcp {
        r := r + [Diag(s.kindSpan, Duplicate("mcp"))];
      }
      mcp := true;
    } else if s.Block? && s.kind == "viz" {
      if viz {
        r := r + [Diag(s.kindSpan, Duplicate("viz"))];
      }
      viz := true;
    }
  }

  method Validate(stmts: seq<Stmt>) returns (diags: seq<Diag>)
    ensures diags == StmtsDiags(stmts, false, false)
  {
    diags := [];
    var seenMcp, seenViz := false, false;
    for k := 0 to |stmts|
      invariant diags + StmtsDiags(stmts[k..], seenMcp, seenViz) == StmtsDiags(stmts, false, false)
    {
      assert stmts[k..][1..] == stmts[k + 1..];
      ghost var before, mcp, viz := diags, seenMcp, seenViz;
      diags, seenMcp, seenViz := CheckSingleton(stmts[k], seenMcp, seenViz, diags);
      diags := ValidateTopStmt(stmts[k], diags);
      StmtsDiagsStep(stmts, k, mcp, viz, before);
    }
  }

  lemma StmtsDiagsStep(stmts: seq<Stmt>, k: nat, mcp: bool, viz: bool, before: seq<Diag>)
    requires k < |stmts|
    ensures var s := stmts[k];
      before + StmtsDiags(stmts[k..], mcp, viz) == before + RepeatDiags(s, mcp, viz) + TopDiags(s)
        + StmtsDiags(stmts[k + 1..], mcp || (s.Block? && s.kind == "mcp"), viz || (s.Block? && s.kind == "viz"))
  {
    assert stmts[k..][1..] == stmts[k + 1..];
    var s := stmts[k];
    Regroup(before, RepeatDiags(s, mcp, viz), TopDiags(s),
      StmtsDiags(stmts[k + 1..], mcp || (s.Block? && s.kind == "mcp"), viz || (s.Block? && s.kind == "viz")));
  }

  lemma Regroup<T>(a: seq<T>, b: seq<T>, c: seq<T>, d: seq<T>)
    ensures a + (b + c + d) == a + b + c + d
  {
  }
}
