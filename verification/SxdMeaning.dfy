/**
 Which files load, and what they say, without the lowering: a table of the fields, and
 what each block of a loaded file contributes to the configuration.
 */
module SxdMeaning {
  import opened Prelude
  import opened SxdTree
  import opened L = SxdLowering
  import opened M = SxdMirror

  // ---- the schema ----

  datatype Sort = Text | Texts | Port

  /** The fields of each block and the values they take. */
  function Declared(kind: string, key: string): Option<Sort> {
    match (kind, key)
    case ("ignore", "patterns") => Some(Text)
    case ("project", "label") => Some(Text)
    case ("project", "path") => Some(Text)
    case ("project", "paths") => Some(Texts)
    case ("group", "label") => Some(Text)
    case ("group", "members") => Some(Texts)
    case ("mcp", "port") => Some(Port)
    case ("viz", "port") => Some(Port)
    case _ => None
  }

  ghost predicate IsText(v: Value) {
    v.expr.Str? && forall k :: 0 <= k < |v.expr.parts| ==> v.expr.parts[k].Lit?
  }

  ghost predicate AreTexts(items: seq<Value>) {
    forall k :: 0 <= k < |items| ==> IsText(items[k])
  }

  ghost predicate FitsSort(v: Value, sort: Sort) {
    match sort
    case Text => IsText(v)
    case Texts => v.expr.List? && AreTexts(v.expr.items)
    case Port => v.expr.Int? && 1 <= v.expr.n <= 65535
  }

  ghost predicate GoodField(kind: string, s: Stmt) {
    s.Assign? && Declared(kind, s.key).Some? && FitsSort(s.value, Declared(kind, s.key).value)
  }

  ghost predicate GoodFields(kind: string, stmts: seq<Stmt>) {
    forall k :: 0 <= k < |stmts| ==> GoodField(kind, stmts[k])
  }

  /** A project says where it is, in one way, and not nowhere. */
  ghost predicate Located(stmts: seq<Stmt>) {
    var one, many := LastValue(stmts, "path"), LastValue(stmts, "paths");
    one.Some? != many.Some? && (many.Some? ==> many.value.expr != List([]))
  }

  ghost predicate GoodBlock(b: Stmt)
    requires b.Block?
  {
    && b.kind in {"ignore", "project", "group", "mcp", "viz"}
    && (b.kind == "project" || b.kind == "group" ==> b.blockLabel.Some?)
    && GoodFields(b.kind, b.stmts)
    && (b.kind == "project" ==> Located(b.stmts))
  }

  ghost predicate GoodTop(s: Stmt) {
    match s
    case Assign(_, key, value) => key == "version" && IsText(value)
    case Block(_, _, _, _) => GoodBlock(s)
    case OtherStmt => false
  }

  /** The blocks of one kind, in order. */
  function BlocksOf(stmts: seq<Stmt>, kind: string): seq<Stmt> {
    if stmts == [] then [] else
    (if stmts[0].Block? && stmts[0].kind == kind then [stmts[0]] else []) + BlocksOf(stmts[1..], kind)
  }

  ghost predicate GoodFile(stmts: seq<Stmt>) {
    && (forall k :: 0 <= k < |stmts| ==> GoodTop(stmts[k]))
    && |BlocksOf(stmts, "mcp")| <= 1 && |BlocksOf(stmts, "viz")| <= 1
  }

  // ---- what a file says ----

  /** The text of the last assignment of a field, or nothing. */
  ghost predicate SaysLast(stmts: seq<Stmt>, key: string, text: Option<string>) {
    var last := LastValue(stmts, key);
    last.Some? == text.Some? && (last.Some? ==> SaysText(last.value, text.value))
  }

  ghost predicate SaysProject(b: Stmt, p: ProjectBlock)
    requires b.Block?
  {
    && b.blockLabel == Some(p.slug) && SaysLast(b.stmts, "label", p.displayLabel)
    && var one, many := LastValue(b.stmts, "path"), LastValue(b.stmts, "paths");
       if one.Some? then |p.paths| == 1 && SaysText(one.value, p.paths[0])
       else many.Some? && many.value.expr.List? && SaysTexts(many.value.expr.items, p.paths)
  }

  ghost predicate SaysGroup(b: Stmt, g: GroupBlock)
    requires b.Block?
  {
    && b.blockLabel == Some(g.slug) && SaysLast(b.stmts, "label", g.displayLabel)
    && var last := LastValue(b.stmts, "members");
       if last.Some? then last.value.expr.List? && SaysTexts(last.value.expr.items, g.members) else g.members == []
  }

  ghost predicate SaysPatterns(b: Stmt, i: IgnoreBlock)
    requires b.Block?
  {
    var last := LastValue(b.stmts, "patterns");
    if last.Some? then SaysText(last.value, i.patterns) else i.patterns == ""
  }

  ghost predicate SaysPort(b: Stmt, p: PortBlock)
    requires b.Block?
  {
    var last := LastValue(b.stmts, "port");
    p.port == if last.Some? && last.value.expr.Int? then Some(last.value.expr.n) else None
  }

  ghost predicate SaysProjects(blocks: seq<Stmt>, projects: seq<ProjectBlock>) {
    |blocks| == |projects| && forall k :: 0 <= k < |blocks| ==> blocks[k].Block? && SaysProject(blocks[k], projects[k])
  }

  ghost predicate SaysGroups(blocks: seq<Stmt>, groups: seq<GroupBlock>) {
    |blocks| == |groups| && forall k :: 0 <= k < |blocks| ==> blocks[k].Block? && SaysGroup(blocks[k], groups[k])
  }

  /** What the last block of a kind says, or what was there before. */
  ghost predicate SaysIgnore(blocks: seq<Stmt>, before: Option<IgnoreBlock>, i: Option<IgnoreBlock>) {
    if blocks == [] then i == before
    else var last := blocks[|blocks| - 1]; i.Some? && last.Block? && SaysPatterns(last, i.value)
  }

  ghost predicate SaysPorts(blocks: seq<Stmt>, before: Option<PortBlock>, p: Option<PortBlock>) {
    if blocks == [] then p == before
    else var last := blocks[|blocks| - 1]; p.Some? && last.Block? && SaysPort(last, p.value)
  }

  ghost predicate SaysVersion(stmts: seq<Stmt>, before: Option<string>, version: Option<string>) {
    if LastValue(stmts, "version").None? then version == before else SaysLast(stmts, "version", version)
  }

  /** The configuration says what the file says, beyond what it said before. */
  ghost predicate SaysFrom(stmts: seq<Stmt>, before: Config, c: Config) {
    && SaysVersion(stmts, before.version, c.version)
    && SaysIgnore(BlocksOf(stmts, "ignore"), before.ignore, c.ignore)
    && before.projects <= c.projects
    && SaysProjects(BlocksOf(stmts, "project"), c.projects[|before.projects|..])
    && before.groups <= c.groups && SaysGroups(BlocksOf(stmts, "group"), c.groups[|before.groups|..])
    && SaysPorts(BlocksOf(stmts, "mcp"), before.mcp, c.mcp)
    && SaysPorts(BlocksOf(stmts, "viz"), before.viz, c.viz)
  }

  ghost predicate Says(stmts: seq<Stmt>, c: Config) {
    && SaysVersion(stmts, None, c.version)
    && SaysIgnore(BlocksOf(stmts, "ignore"), None, c.ignore)
    && SaysProjects(BlocksOf(stmts, "project"), c.projects) && SaysGroups(BlocksOf(stmts, "group"), c.groups)
    && SaysPorts(BlocksOf(stmts, "mcp"), None, c.mcp) && SaysPorts(BlocksOf(stmts, "viz"), None, c.viz)
  }

  // ---- values ----

  lemma TextLoads(v: Value, context: string)
    ensures ExpectString(v, context).Ok? <==> IsText(v)
    ensures ExpectString(v, context).Ok? ==> SaysText(v, ExpectString(v, context).value)
  {
    if v.expr.Str? {
      PlainIsJoined(v.expr.parts, context, "");
    }
    if ExpectString(v, context).Ok? {
      StringSays(v, context);
    }
  }

  lemma {:induction false} TextsLoad(items: seq<Value>, context: string)
    ensures ExpectStrings(items, context).Ok? <==> AreTexts(items)
    ensures ExpectStrings(items, context).Ok? ==> SaysTexts(items, ExpectStrings(items, context).value)
  {
    if items != [] {
      TextLoads(items[0], context);
      TextsLoad(items[1..], context);
      AreTextsCons(items);
      if ExpectStrings(items, context).Ok? {
        StringsSay(items, context);
      }
    }
  }

  lemma AreTextsCons(items: seq<Value>)
    requires items != []
    ensures AreTexts(items) <==> IsText(items[0]) && AreTexts(items[1..])
  {
    forall k | 0 < k < |items| ensures items[k] == items[1..][k - 1] {}
  }

  // ---- fields ----

  /** What an assignment leaves under its key. */
  ghost predicate Sets(sort: Sort, key: string, v: Value, r: Fields) {
    match sort
    case Text => key in r.texts && SaysText(v, r.texts[key])
    case Texts => v.expr.List? && key in r.lists && SaysTexts(v.expr.items, r.lists[key])
    case Port => v.expr.Int? && key in r.ports && r.ports[key] == v.expr.n
  }

  ghost predicate Keeps(sort: Sort, key: string, st: Fields, r: Fields) {
    match sort
    case Text => TextField(r, key) == TextField(st, key)
    case Texts => (key in r.lists <==> key in st.lists) && (key in r.lists ==> r.lists[key] == st.lists[key])
    case Port => (key in r.ports <==> key in st.ports) && (key in r.ports ==> r.ports[key] == st.ports[key])
  }

  /** One field is set and no other touched. */
  ghost predicate SetsOnly(sort: Sort, key: string, v: Value, st: Fields, r: Fields) {
    && Sets(sort, key, v, r)
    && forall other, otherSort :: otherSort != sort || other != key ==> Keeps(otherSort, other, st, r)
  }

  lemma SetTextIs(key: string, v: Value, context: string, st: Fields)
    ensures SetText(key, v, context, st).Ok? <==> FitsSort(v, Text)
    ensures SetText(key, v, context, st).Ok? ==> SetsOnly(Text, key, v, st, SetText(key, v, context, st).value)
  {
    TextLoads(v, context);
  }

  lemma SetListIs(key: string, v: Value, context: string, st: Fields)
    ensures SetList(key, v, context, st).Ok? <==> FitsSort(v, Texts)
    ensures SetList(key, v, context, st).Ok? ==> SetsOnly(Texts, key, v, st, SetList(key, v, context, st).value)
  {
    if v.expr.List? {
      TextsLoad(v.expr.items, context);
    }
  }

  lemma SetPortIs(key: string, v: Value, context: string, st: Fields)
    ensures SetPort(key, v, context, st).Ok? <==> FitsSort(v, Port)
    ensures SetPort(key, v, context, st).Ok? ==> SetsOnly(Port, key, v, st, SetPort(key, v, context, st).value)
  {
  }

  /** One assignment: accepted exactly when the table has it, and then it sets its own field only. */
  ghost predicate FieldIs(kind: string, s: Stmt, st: Fields, r: Result<Fields>) {
    && (r.Ok? <==> GoodField(kind, s))
    && (r.Ok? ==> Sets(Declared(kind, s.key).value, s.key, s.value, r.value))
    && (r.Ok? ==> forall key, sort :: Declared(kind, key) == Some(sort) && key != s.key ==>
          Keeps(sort, key, st, r.value))
  }

  lemma ProjectFieldIs(slug: string, s: Stmt, st: Fields)
    requires s.Assign?
    ensures FieldIs("project", s, st, ProjectField(slug, s.key, s.value, st))
  {
    match s.key
    case "label" => SetTextIs("label", s.value, "project.label", st);
    case "path" => SetTextIs("path", s.value, "project.path", st);
    case "paths" => SetListIs("paths", s.value, "project.paths", st);
    case _ =>
  }

  lemma GroupFieldIs(slug: string, s: Stmt, st: Fields)
    requires s.Assign?
    ensures FieldIs("group", s, st, GroupField(slug, s.key, s.value, st))
  {
    match s.key
    case "label" => SetTextIs("label", s.value, "group.label", st);
    case "members" => SetListIs("members", s.value, "group.members", st);
    case _ =>
  }

  lemma OtherFieldIs(s: Stmt, st: Fields)
    requires s.Assign?
    ensures FieldIs("ignore", s, st, IgnoreField(s.key, s.value, st))
    ensures FieldIs("mcp", s, st, McpField(s.key, s.value, st))
    ensures FieldIs("viz", s, st, VizField(s.key, s.value, st))
  {
    SetTextIs("patterns", s.value, "ignore.patterns", st);
    SetPortIs("port", s.value, "mcp.port", st);
    SetPortIs("port", s.value, "viz.port", st);
  }

  lemma LowerFieldIs(kind: string, slug: string, s: Stmt, st: Fields)
    requires IsBlock(kind)
    ensures FieldIs(kind, s, st, LowerField(kind, slug, s, st))
  {
    if s.Assign? {
      match kind
      case "project" => ProjectFieldIs(slug, s, st);
      case "group" => GroupFieldIs(slug, s, st);
      case _ => OtherFieldIs(s, st);
    }
  }

  lemma GoodFieldsCons(kind: string, stmts: seq<Stmt>)
    requires stmts != []
    ensures GoodFields(kind, stmts) <==> GoodField(kind, stmts[0]) && GoodFields(kind, stmts[1..])
  {
    forall k | 0 < k < |stmts| ensures stmts[k] == stmts[1..][k - 1] {}
  }

  /** The assignments of a block load exactly when the table has them all, and the last of each field counts. */
  lemma {:induction false} FieldsMean(kind: string, slug: string, stmts: seq<Stmt>, st: Fields)
    requires IsBlock(kind)
    ensures LowerFields(kind, slug, stmts, st).Ok? <==> GoodFields(kind, stmts)
    ensures forall key :: LowerFields(kind, slug, stmts, st).Ok? && Declared(kind, key).Some? ==>
      FieldMeans(kind, stmts, key, st, LowerFields(kind, slug, stmts, st).value)
  {
    if stmts != [] {
      var s, next := stmts[0], LowerField(kind, slug, stmts[0], st);
      LowerFieldIs(kind, slug, s, st);
      GoodFieldsCons(kind, stmts);
      if next.Ok? {
        FieldsMean(kind, slug, stmts[1..], next.value);
        var r := LowerFields(kind, slug, stmts, st);
        forall key | r.Ok? && Declared(kind, key).Some? ensures FieldMeans(kind, stmts, key, st, r.value) {
          FieldThen(kind, stmts, key, st, next.value, r.value);
        }
      }
    }
  }

  lemma FieldThen(kind: string, stmts: seq<Stmt>, key: string, st: Fields, next: Fields, r: Fields)
    requires Declared(kind, key).Some? && stmts != [] && FieldIs(kind, stmts[0], st, Ok(next))
    requires FieldMeans(kind, stmts[1..], key, next, r)
    ensures FieldMeans(kind, stmts, key, st, r)
  {
    var sort := Declared(kind, key).value;
    assert key != stmts[0].key ==> Keeps(sort, key, st, next);
    assert key == stmts[0].key ==> Sets(sort, key, stmts[0].value, next);
  }

  ghost predicate FieldMeans(kind: string, stmts: seq<Stmt>, key: string, st: Fields, r: Fields)
    requires Declared(kind, key).Some?
  {
    var last, sort := LastValue(stmts, key), Declared(kind, key).value;
    if last.Some? then Sets(sort, key, last.value, r) else Keeps(sort, key, st, r)
  }

  // ---- blocks ----

  /** What a good block adds. */
  ghost predicate Adds(b: Stmt, out: Config, c: Config)
    requires b.Block?
  {
    match b.kind
    case "ignore" => c.ignore.Some? && SaysPatterns(b, c.ignore.value) && c == out.(ignore := c.ignore)
    case "project" =>
      && |c.projects| == |out.projects| + 1 && SaysProject(b, c.projects[|out.projects|])
      && c == out.(projects := out.projects + [c.projects[|out.projects|]])
    case "group" =>
      && |c.groups| == |out.groups| + 1 && SaysGroup(b, c.groups[|out.groups|])
      && c == out.(groups := out.groups + [c.groups[|out.groups|]])
    case "mcp" => c.mcp.Some? && SaysPort(b, c.mcp.value) && c == out.(mcp := c.mcp)
    case "viz" => c.viz.Some? && SaysPort(b, c.viz.value) && c == out.(viz := c.viz)
    case _ => false
  }

  lemma ProjectMeans(b: Stmt, st: Fields, slug: string)
    requires b.Block? && b.kind == "project" && b.blockLabel == Some(slug)
    requires GoodFields("project", b.stmts)
    requires forall key :: Declared("project", key).Some? ==> FieldMeans("project", b.stmts, key, NO_FIELDS, st)
    ensures ProjectPaths(st, slug).Ok? <==> Located(b.stmts)
    ensures ProjectPaths(st, slug).Ok? ==>
      SaysProject(b, ProjectBlock(slug, TextField(st, "label"), ProjectPaths(st, slug).value))
  {
    assert FieldMeans("project", b.stmts, "label", NO_FIELDS, st);
    assert FieldMeans("project", b.stmts, "path", NO_FIELDS, st);
    assert FieldMeans("project", b.stmts, "paths", NO_FIELDS, st);
  }

  lemma GroupMeans(b: Stmt, st: Fields, slug: string)
    requires b.Block? && b.kind == "group" && b.blockLabel == Some(slug)
    requires forall key :: Declared("group", key).Some? ==> FieldMeans("group", b.stmts, key, NO_FIELDS, st)
    ensures SaysGroup(b, GroupBlock(slug, TextField(st, "label"),
      if "members" in st.lists then st.lists["members"] else []))
  {
    assert FieldMeans("group", b.stmts, "label", NO_FIELDS, st);
    assert FieldMeans("group", b.stmts, "members", NO_FIELDS, st);
  }

  lemma PortMeans(b: Stmt, st: Fields)
    requires b.Block? && (b.kind == "mcp" || b.kind == "viz")
    requires forall key :: Declared(b.kind, key).Some? ==> FieldMeans(b.kind, b.stmts, key, NO_FIELDS, st)
    ensures SaysPort(b, PortBlock(PortField(st)))
  {
    assert FieldMeans(b.kind, b.stmts, "port", NO_FIELDS, st);
  }

  lemma BlockMeans(b: Stmt, out: Config)
    requires b.Block? && !Repeats(b, out.mcp.Some?, out.viz.Some?)
    ensures LowerBlock(b, out).Ok? <==> GoodBlock(b)
    ensures LowerBlock(b, out).Ok? ==> Adds(b, out, LowerBlock(b, out).value)
  {
    if IsBlock(b.kind) && Slug(b).Ok? {
      var slug := Slug(b).value;
      var st := LowerFields(b.kind, slug, b.stmts, NO_FIELDS);
      FieldsMean(b.kind, slug, b.stmts, NO_FIELDS);
      if st.Ok? {
        match b.kind {
          case "ignore" => assert FieldMeans("ignore", b.stmts, "patterns", NO_FIELDS, st.value);
          case "project" => ProjectMeans(b, st.value, slug);
          case "group" => GroupMeans(b, st.value, slug);
          case _ => PortMeans(b, st.value);
        }
      }
    }
  }

  // ---- the file ----

  /** A statement that is not a second `mcp` or `viz`. */
  predicate Fresh(s: Stmt, out: Config) {
    !(s.Block? && ((s.kind == "mcp" && out.mcp.Some?) || (s.kind == "viz" && out.viz.Some?)))
  }

  lemma OneStmt(s: Stmt, kind: string)
    ensures BlocksOf([s], kind) == if s.Block? && s.kind == kind then [s] else []
    ensures LastValue([s], "version") == if s.Assign? && s.key == "version" then Some(s.value) else None
  {
    assert [s][1..] == [] && BlocksOf([], kind) == [] && LastValue([], "version") == None;
  }

  lemma OneStmtBlocks(s: Stmt)
    ensures BlocksOf([s], "ignore") == if s.Block? && s.kind == "ignore" then [s] else []
    ensures BlocksOf([s], "project") == if s.Block? && s.kind == "project" then [s] else []
    ensures BlocksOf([s], "group") == if s.Block? && s.kind == "group" then [s] else []
    ensures BlocksOf([s], "mcp") == if s.Block? && s.kind == "mcp" then [s] else []
    ensures BlocksOf([s], "viz") == if s.Block? && s.kind == "viz" then [s] else []
    ensures LastValue([s], "version") == if s.Assign? && s.key == "version" then Some(s.value) else None
  {
    OneStmt(s, "ignore");
    OneStmt(s, "project");
    OneStmt(s, "group");
    OneStmt(s, "mcp");
    OneStmt(s, "viz");
  }

  lemma NoMoreBlocks(c: Config)
    ensures SaysProjects([], c.projects[|c.projects|..]) && SaysGroups([], c.groups[|c.groups|..])
  {
  }

  lemma OneMoreProject(b: Stmt, before: seq<ProjectBlock>, p: ProjectBlock)
    requires b.Block? && SaysProject(b, p)
    ensures before <= before + [p] && SaysProjects([b], (before + [p])[|before|..])
  {
    assert (before + [p])[|before|..] == [p];
  }

  lemma OneMoreGroup(b: Stmt, before: seq<GroupBlock>, g: GroupBlock)
    requires b.Block? && SaysGroup(b, g)
    ensures before <= before + [g] && SaysGroups([b], (before + [g])[|before|..])
  {
    assert (before + [g])[|before|..] == [g];
  }

  lemma {:induction false} AddsSays(b: Stmt, out: Config, c: Config)
    requires b.Block? && Adds(b, out, c)
    ensures SaysFrom([b], out, c)
  {
    OneStmtBlocks(b);
    NoMoreBlocks(out);
    match b.kind
    case "project" => OneMoreProject(b, out.projects, c.projects[|out.projects|]);
    case "group" => OneMoreGroup(b, out.groups, c.groups[|out.groups|]);
    case _ =>
  }

  lemma VersionSays(s: Stmt, out: Config, text: string)
    requires s.Assign? && s.key == "version" && SaysText(s.value, text)
    ensures SaysFrom([s], out, out.(version := Some(text)))
  {
    OneStmtBlocks(s);
    NoMoreBlocks(out);
  }

  lemma StmtMeans(s: Stmt, out: Config)
    ensures LowerStmt(s, out).Ok? <==> GoodTop(s) && Fresh(s, out)
    ensures LowerStmt(s, out).Ok? ==> SaysFrom([s], out, LowerStmt(s, out).value)
  {
    match s
    case Assign(_, key, value) =>
      TextLoads(value, "version");
      if key == "version" && IsText(value) {
        VersionSays(s, out, ExpectString(value, "version").value);
      }
    case Block(_, _, _, _) =>
      if Fresh(s, out) {
        BlockMeans(s, out);
        if LowerBlock(s, out).Ok? {
          AddsSays(s, out, LowerBlock(s, out).value);
        }
      }
    case OtherStmt =>
  }

  lemma {:induction false} BlocksThen(a: seq<Stmt>, b: seq<Stmt>, kind: string)
    ensures BlocksOf(a + b, kind) == BlocksOf(a, kind) + BlocksOf(b, kind)
  {
    if a == [] {
      assert a + b == b;
    } else {
      assert (a + b)[1..] == a[1..] + b;
      BlocksThen(a[1..], b, kind);
    }
  }

  lemma ProjectsThen(a: seq<Stmt>, b: seq<Stmt>, x: seq<ProjectBlock>, y: seq<ProjectBlock>, z: seq<ProjectBlock>)
    requires x <= y <= z && SaysProjects(a, y[|x|..]) && SaysProjects(b, z[|y|..])
    ensures x <= z && SaysProjects(a + b, z[|x|..])
  {
    assert z[|x|..] == y[|x|..] + z[|y|..];
  }

  lemma GroupsThen(a: seq<Stmt>, b: seq<Stmt>, x: seq<GroupBlock>, y: seq<GroupBlock>, z: seq<GroupBlock>)
    requires x <= y <= z && SaysGroups(a, y[|x|..]) && SaysGroups(b, z[|y|..])
    ensures x <= z && SaysGroups(a + b, z[|x|..])
  {
    assert z[|x|..] == y[|x|..] + z[|y|..];
  }

  lemma {:induction false} SaysThen(stmts: seq<Stmt>, out: Config, next: Config, c: Config)
    requires stmts != [] && SaysFrom([stmts[0]], out, next) && SaysFrom(stmts[1..], next, c)
    ensures SaysFrom(stmts, out, c)
  {
    var a, b := [stmts[0]], stmts[1..];
    assert a + b == stmts && a[1..] == [] && LastValue([], "version") == None;
    BlocksThen(a, b, "ignore");
    BlocksThen(a, b, "project");
    BlocksThen(a, b, "group");
    BlocksThen(a, b, "mcp");
    BlocksThen(a, b, "viz");
    ProjectsThen(BlocksOf(a, "project"), BlocksOf(b, "project"), out.projects, next.projects, c.projects);
    GroupsThen(BlocksOf(a, "group"), BlocksOf(b, "group"), out.groups, next.groups, c.groups);
  }

  /** What is left of the two blocks that may appear once. */
  ghost predicate GoodFrom(stmts: seq<Stmt>, out: Config) {
    && (forall k :: 0 <= k < |stmts| ==> GoodTop(stmts[k]))
    && |BlocksOf(stmts, "mcp")| <= (if out.mcp.Some? then 0 else 1)
    && |BlocksOf(stmts, "viz")| <= (if out.viz.Some? then 0 else 1)
  }

  lemma GoodFromCons(stmts: seq<Stmt>, out: Config, next: Config)
    requires stmts != [] && GoodTop(stmts[0]) && Fresh(stmts[0], out)
    requires next.mcp.Some? <==> out.mcp.Some? || (stmts[0].Block? && stmts[0].kind == "mcp")
    requires next.viz.Some? <==> out.viz.Some? || (stmts[0].Block? && stmts[0].kind == "viz")
    ensures GoodFrom(stmts, out) <==> GoodFrom(stmts[1..], next)
  {
    forall k | 0 < k < |stmts| ensures stmts[k] == stmts[1..][k - 1] {}
  }

  lemma {:induction false} FileLoads(stmts: seq<Stmt>, out: Config)
    ensures LowerStmts(stmts, out).Ok? <==> GoodFrom(stmts, out)
    ensures LowerStmts(stmts, out).Ok? ==> SaysFrom(stmts, out, LowerStmts(stmts, out).value)
  {
    if stmts != [] {
      var next := LowerStmt(stmts[0], out);
      StmtMeans(stmts[0], out);
      if next.Ok? {
        StmtSeen(stmts[0], out);
        FileLoads(stmts[1..], next.value);
        GoodFromCons(stmts, out, next.value);
        if LowerStmts(stmts, out).Ok? {
          SaysThen(stmts, out, next.value, LowerStmts(stmts, out).value);
        }
      }
    }
  }

  // ---- no other configuration says the same ----

  lemma SameTexts(items: seq<Value>, a: seq<string>, b: seq<string>)
    requires SaysTexts(items, a) && SaysTexts(items, b)
    ensures a == b
  {
    forall k | 0 <= k < |a| ensures a[k] == b[k] { assert SaysText(items[k], a[k]) && SaysText(items[k], b[k]); }
  }

  lemma SameProject(b: Stmt, x: ProjectBlock, y: ProjectBlock)
    requires b.Block? && SaysProject(b, x) && SaysProject(b, y)
    ensures x == y
  {
    var one, many := LastValue(b.stmts, "path"), LastValue(b.stmts, "paths");
    if one.None? {
      SameTexts(many.value.expr.items, x.paths, y.paths);
    }
    assert x.paths == y.paths;
  }

  lemma SameGroup(b: Stmt, x: GroupBlock, y: GroupBlock)
    requires b.Block? && SaysGroup(b, x) && SaysGroup(b, y)
    ensures x == y
  {
    var last := LastValue(b.stmts, "members");
    if last.Some? {
      SameTexts(last.value.expr.items, x.members, y.members);
    }
  }

  lemma OneConfig(stmts: seq<Stmt>, c: Config, d: Config)
    requires Says(stmts, c) && Says(stmts, d)
    ensures c == d
  {
    var ps, gs := BlocksOf(stmts, "project"), BlocksOf(stmts, "group");
    forall k | 0 <= k < |ps| ensures c.projects[k] == d.projects[k] {
      SameProject(ps[k], c.projects[k], d.projects[k]);
    }
    forall k | 0 <= k < |gs| ensures c.groups[k] == d.groups[k] {
      SameGroup(gs[k], c.groups[k], d.groups[k]);
    }
    assert c.projects == d.projects && c.groups == d.groups;
  }

  /** A file loads as a configuration exactly when the schema allows it and that is what it says. */
  lemma LoadsAsIff(stmts: seq<Stmt>, c: Config)
    ensures LowerStmts(stmts, EMPTY_CONFIG) == Ok(c) <==> GoodFile(stmts) && Says(stmts, c)
  {
    FileLoads(stmts, EMPTY_CONFIG);
    var r := LowerStmts(stmts, EMPTY_CONFIG);
    if r.Ok? {
      SaysAlone(stmts, r.value);
      if Says(stmts, c) {
        OneConfig(stmts, r.value, c);
      }
    }
  }

  lemma SaysAlone(stmts: seq<Stmt>, c: Config)
    requires SaysFrom(stmts, EMPTY_CONFIG, c)
    ensures Says(stmts, c)
  {
    assert c.projects[0..] == c.projects && c.groups[0..] == c.groups;
  }
}
