/**
 Everything the editor shows, and nothing else: a message is among the diagnostics of a
 file exactly when some statement breaks that rule at that token.
 */
module SxdComplaints {
  import opened Prelude
  import opened SxdTree
  import opened S = SxdSchema
  import opened SxdMeaning
  import opened M = SxdMirror

  // ---- what there is to say ----

  ghost predicate TextComplaint(v: Value, context: string, d: Diag) {
    if v.expr.Str? then
      exists k :: 0 <= k < |v.expr.parts| && v.expr.parts[k].Interp?
        && d == Diag(v.expr.parts[k].span, Interpolated(context))
    else d == Diag(v.span, NotAString(context))
  }

  ghost predicate TextsComplaint(v: Value, context: string, d: Diag) {
    if v.expr.List? then exists k :: 0 <= k < |v.expr.items| && TextComplaint(v.expr.items[k], context, d)
    else d == Diag(v.span, NotAList(context))
  }

  ghost predicate PortComplaint(v: Value, context: string, d: Diag) {
    if v.expr.Int? then !(1 <= v.expr.n <= 65535) && d == Diag(v.span, PortOutOfRange(context, v.expr.n))
    else d == Diag(v.span, NotAPort(context))
  }

  ghost predicate ValueComplaint(v: Value, sort: Sort, context: string, d: Diag) {
    match sort
    case Text => TextComplaint(v, context, d)
    case Texts => TextsComplaint(v, context, d)
    case Port => PortComplaint(v, context, d)
  }

  ghost predicate FieldComplaint(kind: string, slug: string, s: Stmt, d: Diag) {
    match s
    case OtherStmt => false
    case Block(span, _, _, _) => d == Diag(span, OnlyAssignments(kind, slug))
    case Assign(span, key, v) =>
      if Declared(kind, key).Some? then ValueComplaint(v, Declared(kind, key).value, kind + "." + key, d)
      else d == Diag(span, UnknownField(kind, slug, key))
  }

  /** A project with both ways to say where it is, or with neither. */
  ghost predicate PathComplaint(b: Stmt, slug: string, d: Diag)
    requires b.Block?
  {
    var one, many := LastValue(b.stmts, "path").Some?, LastValue(b.stmts, "paths").Some?;
    b.kind == "project" && one == many && d == Diag(b.kindSpan, if one then PathAndPaths(slug) else NoPath(slug))
  }

  ghost predicate BlockComplaint(b: Stmt, d: Diag)
    requires b.Block?
  {
    var named := b.kind == "project" || b.kind == "group";
    if b.kind !in {"ignore", "project", "group", "mcp", "viz"} then d == Diag(b.kindSpan, UnknownBlock(b.kind))
    else if named && b.blockLabel.None? then d == Diag(b.kindSpan, MissingLabel(b.kind))
    else
      var slug := if named then b.blockLabel.value else "";
      || (exists k :: 0 <= k < |b.stmts| && FieldComplaint(b.kind, slug, b.stmts[k], d))
      || PathComplaint(b, slug, d)
  }

  predicate IsBlockOf(s: Stmt, kind: string) { s.Block? && s.kind == kind }

  /** A second block where one is allowed. */
  ghost predicate RepeatComplaint(stmts: seq<Stmt>, k: nat, d: Diag)
    requires k < |stmts|
  {
    var s := stmts[k];
    && s.Block? && (s.kind == "mcp" || s.kind == "viz") && d == Diag(s.kindSpan, Duplicate(s.kind))
    && exists j :: 0 <= j < k && IsBlockOf(stmts[j], s.kind)
  }

  ghost predicate TopComplaint(s: Stmt, d: Diag) {
    match s
    case Assign(span, key, v) =>
      if key == "version" then TextComplaint(v, "version", d) else d == Diag(span, UnknownAssign(key))
    case Block(_, _, _, _) => BlockComplaint(s, d)
    case OtherStmt => false
  }

  ghost predicate FileComplaint(stmts: seq<Stmt>, d: Diag) {
    exists k :: 0 <= k < |stmts| && (RepeatComplaint(stmts, k, d) || TopComplaint(stmts[k], d))
  }

  // ---- the validator says it ----

  lemma {:induction false} PartsSaid(parts: seq<Part>, context: string, d: Diag)
    ensures d in PartsDiags(parts, context) <==>
      exists k :: 0 <= k < |parts| && parts[k].Interp? && d == Diag(parts[k].span, Interpolated(context))
  {
    if parts != [] {
      var rest := parts[1..];
      PartsSaid(rest, context, d);
      assert forall k :: 0 <= k < |rest| ==> rest[k] == parts[k + 1];
      assert forall k :: 0 < k < |parts| ==> parts[k] == rest[k - 1];
    }
  }

  lemma TextSaid(v: Value, context: string, d: Diag)
    ensures d in StringDiags(v, context) <==> TextComplaint(v, context, d)
  {
    if v.expr.Str? {
      PartsSaid(v.expr.parts, context, d);
    }
  }

  lemma {:induction false} ItemsSaid(items: seq<Value>, context: string, d: Diag)
    ensures d in ItemsDiags(items, context) <==> exists k :: 0 <= k < |items| && TextComplaint(items[k], context, d)
  {
    if items != [] {
      var rest := items[1..];
      TextSaid(items[0], context, d);
      ItemsSaid(rest, context, d);
      assert forall k :: 0 <= k < |rest| ==> rest[k] == items[k + 1];
      assert forall k :: 0 < k < |items| ==> items[k] == rest[k - 1];
    }
  }

  lemma TextsSaid(v: Value, context: string, d: Diag)
    ensures d in ListDiags(v, context) <==> TextsComplaint(v, context, d)
  {
    if v.expr.List? {
      ItemsSaid(v.expr.items, context, d);
    }
  }

  lemma ProjectSaid(slug: string, span: int, key: string, v: Value, d: Diag)
    ensures d in ProjectDiags(slug, span, key, v) <==> FieldComplaint("project", slug, Assign(span, key, v), d)
  {
    TextSaid(v, "project.label", d);
    TextSaid(v, "project.path", d);
    TextsSaid(v, "project.paths", d);
    assert "project" + "." + "label" == "project.label" && "project" + "." + "path" == "project.path";
    assert "project" + "." + "paths" == "project.paths";
  }

  lemma GroupSaid(slug: string, span: int, key: string, v: Value, d: Diag)
    ensures d in GroupDiags(slug, span, key, v) <==> FieldComplaint("group", slug, Assign(span, key, v), d)
  {
    TextSaid(v, "group.label", d);
    TextsSaid(v, "group.members", d);
    assert "group" + "." + "label" == "group.label" && "group" + "." + "members" == "group.members";
  }

  lemma PortSaid(span: int, key: string, v: Value, d: Diag)
    ensures d in McpDiags(span, key, v) <==> FieldComplaint("mcp", "", Assign(span, key, v), d)
    ensures d in VizDiags(span, key, v) <==> FieldComplaint("viz", "", Assign(span, key, v), d)
  {
    assert "mcp" + "." + "port" == "mcp.port" && "viz" + "." + "port" == "viz.port";
  }

  lemma IgnoreSaid(span: int, key: string, v: Value, d: Diag)
    ensures d in IgnoreDiags(span, key, v) <==> FieldComplaint("ignore", "", Assign(span, key, v), d)
  {
    TextSaid(v, "ignore.patterns", d);
    assert "ignore" + "." + "patterns" == "ignore.patterns";
  }

  lemma FieldSaid(kind: string, slug: string, s: Stmt, d: Diag)
    requires IsKnownBlock(kind) && (kind == "project" || kind == "group" || slug == "")
    ensures d in FieldDiags(kind, slug, s) <==> FieldComplaint(kind, slug, s, d)
  {
    if s.Assign? {
      match kind
      case "ignore" => IgnoreSaid(s.keySpan, s.key, s.value, d);
      case "project" => ProjectSaid(slug, s.keySpan, s.key, s.value, d);
      case "group" => GroupSaid(slug, s.keySpan, s.key, s.value, d);
      case _ => PortSaid(s.keySpan, s.key, s.value, d);
    }
  }

  lemma {:induction false} FieldsSaid(kind: string, slug: string, stmts: seq<Stmt>, d: Diag)
    requires IsKnownBlock(kind) && (kind == "project" || kind == "group" || slug == "")
    ensures d in FieldsDiags(kind, slug, stmts) <==>
      exists k :: 0 <= k < |stmts| && FieldComplaint(kind, slug, stmts[k], d)
  {
    if stmts != [] {
      var rest := stmts[1..];
      FieldSaid(kind, slug, stmts[0], d);
      FieldsSaid(kind, slug, rest, d);
      assert forall k :: 0 <= k < |rest| ==> rest[k] == stmts[k + 1];
      assert forall k :: 0 < k < |stmts| ==> stmts[k] == rest[k - 1];
    }
  }

  lemma {:induction false} HasFieldIs(stmts: seq<Stmt>, key: string)
    ensures HasField(stmts, key) <==> LastValue(stmts, key).Some?
  {
    if stmts != [] {
      HasFieldCons(stmts, key);
      HasFieldIs(stmts[1..], key);
    }
  }

  lemma BlockSaid(b: Stmt, d: Diag)
    requires b.Block?
    ensures d in BlockDiags(b) <==> BlockComplaint(b, d)
  {
    HasFieldIs(b.stmts, "path");
    HasFieldIs(b.stmts, "paths");
    if IsKnownBlock(b.kind) && !LacksLabel(b) {
      FieldsSaid(b.kind, SlugShown(b), b.stmts, d);
    }
  }

  lemma TopSaid(s: Stmt, d: Diag)
    ensures d in TopDiags(s) <==> TopComplaint(s, d)
  {
    match s
    case Assign(_, _, value) => TextSaid(value, "version", d);
    case Block(_, _, _, _) => BlockSaid(s, d);
    case OtherStmt =>
  }

  ghost predicate SeenIn(stmts: seq<Stmt>, k: nat, kind: string)
    requires k <= |stmts|
  {
    exists j :: 0 <= j < k && IsBlockOf(stmts[j], kind)
  }

  lemma SeenNext(stmts: seq<Stmt>, k: nat, kind: string)
    requires k < |stmts|
    ensures SeenIn(stmts, k + 1, kind) <==> SeenIn(stmts, k, kind) || IsBlockOf(stmts[k], kind)
  {
  }

  /** The diagnostics from statement `k` on. */
  lemma {:induction false} RestSaid(stmts: seq<Stmt>, k: nat, d: Diag)
    requires k <= |stmts|
    ensures d in StmtsDiags(stmts[k..], SeenIn(stmts, k, "mcp"), SeenIn(stmts, k, "viz")) <==>
      exists j :: k <= j < |stmts| && (RepeatComplaint(stmts, j, d) || TopComplaint(stmts[j], d))
    decreases |stmts| - k
  {
    if k < |stmts| {
      var s := stmts[k];
      assert stmts[k..][0] == s && stmts[k..][1..] == stmts[k + 1..];
      RestSaid(stmts, k + 1, d);
      SeenNext(stmts, k, "mcp");
      SeenNext(stmts, k, "viz");
      TopSaid(s, d);
      assert d in RepeatDiags(s, SeenIn(stmts, k, "mcp"), SeenIn(stmts, k, "viz")) <==> RepeatComplaint(stmts, k, d);
    }
  }

  /** A message is shown exactly when some statement gives cause for it. */
  lemma ShownIff(stmts: seq<Stmt>, d: Diag)
    ensures d in StmtsDiags(stmts, false, false) <==> FileComplaint(stmts, d)
  {
    assert stmts[0..] == stmts;
    RestSaid(stmts, 0, d);
  }
}
