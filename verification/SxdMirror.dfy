/**
 The two readings of the schema agree: what the lowering refuses is what the
 validator reports, but for one rule that only the lowering has and for the
 constructs of a newer grammar that only the lowering refuses.
 */
module SxdMirror {
  import opened Prelude
  import opened SxdTree
  import L = SxdLowering
  import S = SxdSchema

  // ---- grammar this program knows ----

  ghost predicate KnownParts(parts: seq<Part>) {
    forall k :: 0 <= k < |parts| ==> !parts[k].OtherPart?
  }

  ghost predicate KnownString(v: Value) { v.expr.Str? ==> KnownParts(v.expr.parts) }

  ghost predicate KnownItems(items: seq<Value>) {
    forall k :: 0 <= k < |items| ==> KnownString(items[k])
  }

  ghost predicate KnownValue(v: Value) {
    KnownString(v) && (v.expr.List? ==> KnownItems(v.expr.items))
  }

  ghost predicate KnownStmt(s: Stmt) { !s.OtherStmt? && (s.Assign? ==> KnownValue(s.value)) }

  ghost predicate KnownStmts(stmts: seq<Stmt>) {
    forall k :: 0 <= k < |stmts| ==> KnownStmt(stmts[k])
  }

  ghost predicate KnownTop(s: Stmt) { KnownStmt(s) && (s.Block? ==> KnownStmts(s.stmts)) }

  ghost predicate KnownFile(stmts: seq<Stmt>) {
    forall k :: 0 <= k < |stmts| ==> KnownTop(stmts[k])
  }

  // ---- the rule only the lowering has ----

  /** The value of the last assignment of a field. */
  ghost function LastValue(stmts: seq<Stmt>, key: string): Option<Value> {
    if stmts == [] then None else
    var later := LastValue(stmts[1..], key);
    if later.Some? then later
    else if stmts[0].Assign? && stmts[0].key == key then Some(stmts[0].value)
    else None
  }

  ghost predicate EndsEmpty(stmts: seq<Stmt>) {
    var last := LastValue(stmts, "paths");
    last.Some? && last.value.expr == List([])
  }

  /** A project whose last `paths` is the empty list. */
  ghost predicate Pathless(s: Stmt) {
    s.Block? && s.kind == "project" && s.blockLabel.Some? && EndsEmpty(s.stmts)
  }

  ghost predicate SomePathless(stmts: seq<Stmt>) {
    exists k :: 0 <= k < |stmts| && Pathless(stmts[k])
  }

  // ---- one reading beside the other ----

  function Failure<T>(r: Result<T>): Option<Rule> {
    if r.Ok? then None else Some(r.rule)
  }

  /**
   A lowering that failed, or not, beside the diagnostics of the same piece of the
   tree. `pathless` says that the one extra rule is broken in it.
   */
  ghost predicate Mirrors(failure: Option<Rule>, diags: seq<S.Diag>, known: bool, pathless: bool) {
    && (failure.None? <==> diags == [] && known && !pathless)
    && (known && failure.Some? && !failure.value.EmptyPaths? ==> diags != [] && diags[0].rule == failure.value)
    && (failure.Some? && failure.value.EmptyPaths? ==> pathless)
  }

  /** Sequencing: the lowering of the second piece runs only if the first succeeded. */
  lemma MirrorsThen(
    f: Option<Rule>, d: seq<S.Diag>, known: bool, pathless: bool,
    f': Option<Rule>, d': seq<S.Diag>, known': bool, pathless': bool)
    requires Mirrors(f, d, known, pathless)
    requires f.None? ==> Mirrors(f', d', known', pathless')
    ensures Mirrors(if f.Some? then f else f', d + d', known && known', pathless || pathless')
  {
  }

  // ---- values ----

  lemma {:induction false} PartsMirror(parts: seq<Part>, context: string, out: string)
    ensures Mirrors(Failure(L.PlainText(parts, context, out)), S.PartsDiags(parts, context), KnownParts(parts), false)
  {
    if parts != [] {
      var head, rest := parts[0], parts[1..];
      assert KnownParts(parts) <==> !head.OtherPart? && KnownParts(rest) by { KnownPartsCons(parts); }
      if head.Lit? {
        PartsMirror(rest, context, out + head.text);
      }
    }
  }

  lemma KnownPartsCons(parts: seq<Part>)
    requires parts != []
    ensures KnownParts(parts) <==> !parts[0].OtherPart? && KnownParts(parts[1..])
  {
    if !parts[0].OtherPart? && KnownParts(parts[1..]) {
      forall k | 0 <= k < |parts| ensures !parts[k].OtherPart? {
        if k > 0 { assert parts[k] == parts[1..][k - 1]; }
      }
    }
  }

  lemma StringMirror(v: Value, context: string)
    ensures Mirrors(Failure(L.ExpectString(v, context)), S.StringDiags(v, context), KnownString(v), false)
  {
    if v.expr.Str? {
      PartsMirror(v.expr.parts, context, "");
    }
  }

  lemma KnownItemsCons(items: seq<Value>)
    requires items != []
    ensures KnownItems(items) <==> KnownString(items[0]) && KnownItems(items[1..])
  {
    if KnownString(items[0]) && KnownItems(items[1..]) {
      forall k | 0 <= k < |items| ensures KnownString(items[k]) {
        if k > 0 { assert items[k] == items[1..][k - 1]; }
      }
    }
  }

  lemma {:induction false} ItemsMirror(items: seq<Value>, context: string)
    ensures Mirrors(Failure(L.ExpectStrings(items, context)), S.ItemsDiags(items, context), KnownItems(items), false)
    ensures L.ExpectStrings(items, context).Ok? ==> |L.ExpectStrings(items, context).value| == |items|
  {
    if items != [] {
      var head, rest := items[0], items[1..];
      KnownItemsCons(items);
      StringMirror(head, context);
      ItemsMirror(rest, context);
      MirrorsThen(Failure(L.ExpectString(head, context)), S.StringDiags(head, context), KnownString(head), false,
        Failure(L.ExpectStrings(rest, context)), S.ItemsDiags(rest, context), KnownItems(rest), false);
    }
  }

  lemma ListMirror(v: Value, context: string)
    ensures Mirrors(Failure(L.ExpectStringList(v, context)), S.ListDiags(v, context), KnownValue(v), false)
    ensures L.ExpectStringList(v, context).Ok? ==> (L.ExpectStringList(v, context).value == [] <==> v.expr == List([]))
  {
    if v.expr.List? {
      ItemsMirror(v.expr.items, context);
    }
  }

  // ---- fields ----

  lemma FieldMirror(kind: string, slug: string, s: Stmt, st: L.Fields)
    requires L.IsBlock(kind)
    ensures Mirrors(Failure(L.LowerField(kind, slug, s, st)), S.FieldDiags(kind, slug, s), KnownStmt(s), false)
  {
    if s.Assign? {
      match kind
      case "ignore" => IgnoreMirror(s.keySpan, s.key, s.value, st);
      case "project" => ProjectFieldMirror(slug, s.keySpan, s.key, s.value, st);
      case "group" => GroupMirror(slug, s.keySpan, s.key, s.value, st);
      case _ =>
    }
  }

  lemma IgnoreMirror(span: int, key: string, v: Value, st: L.Fields)
    ensures Mirrors(Failure(L.IgnoreField(key, v, st)), S.IgnoreDiags(span, key, v), KnownValue(v), false)
  {
    StringMirror(v, "ignore.patterns");
  }

  lemma ProjectFieldMirror(slug: string, span: int, key: string, v: Value, st: L.Fields)
    ensures Mirrors(Failure(L.ProjectField(slug, key, v, st)), S.ProjectDiags(slug, span, key, v), KnownValue(v), false)
  {
    StringMirror(v, "project.label");
    StringMirror(v, "project.path");
    ListMirror(v, "project.paths");
  }

  lemma GroupMirror(slug: string, span: int, key: string, v: Value, st: L.Fields)
    ensures Mirrors(Failure(L.GroupField(slug, key, v, st)), S.GroupDiags(slug, span, key, v), KnownValue(v), false)
  {
    StringMirror(v, "group.label");
    ListMirror(v, "group.members");
  }

  lemma KnownStmtsCons(stmts: seq<Stmt>)
    requires stmts != []
    ensures KnownStmts(stmts) <==> KnownStmt(stmts[0]) && KnownStmts(stmts[1..])
  {
    if KnownStmt(stmts[0]) && KnownStmts(stmts[1..]) {
      forall k | 0 <= k < |stmts| ensures KnownStmt(stmts[k]) {
        if k > 0 { assert stmts[k] == stmts[1..][k - 1]; }
      }
    }
  }

  lemma {:induction false} FieldsMirror(kind: string, slug: string, stmts: seq<Stmt>, st: L.Fields)
    requires L.IsBlock(kind)
    ensures Mirrors(Failure(L.LowerFields(kind, slug, stmts, st)), S.FieldsDiags(kind, slug, stmts),
      KnownStmts(stmts), false)
  {
    if stmts != [] {
      var head, rest := stmts[0], stmts[1..];
      KnownStmtsCons(stmts);
      FieldMirror(kind, slug, head, st);
      var next := L.LowerField(kind, slug, head, st);
      if next.Ok? {
        FieldsMirror(kind, slug, rest, next.value);
      }
      var after := if next.Ok? then Failure(L.LowerFields(kind, slug, rest, next.value)) else None;
      MirrorsThen(Failure(next), S.FieldDiags(kind, slug, head), KnownStmt(head), false, after,
        S.FieldsDiags(kind, slug, rest), KnownStmts(rest), false);
    }
  }

  /** What one accepted assignment does to the two path fields of a project. */
  lemma OneField(slug: string, s: Stmt, st: L.Fields)
    requires L.LowerField("project", slug, s, st).Ok?
    ensures var r := L.LowerField("project", slug, s, st).value;
      && s.Assign?
      && ("path" in r.texts <==> "path" in st.texts || s.key == "path")
      && ("paths" in r.lists <==> "paths" in st.lists || s.key == "paths")
      && ("paths" in r.lists ==>
        (r.lists["paths"] == [] <==> if s.key == "paths" then s.value.expr == List([]) else st.lists["paths"] == []))
  {
    ListMirror(s.value, "project.paths");
  }

  lemma HasFieldCons(stmts: seq<Stmt>, key: string)
    requires stmts != []
    ensures S.HasField(stmts, key) <==> (stmts[0].Assign? && stmts[0].key == key) || S.HasField(stmts[1..], key)
  {
    var rest := stmts[1..];
    if S.HasField(rest, key) {
      var k :| 0 <= k < |rest| && rest[k].Assign? && rest[k].key == key;
      assert stmts[k + 1] == rest[k];
    }
    if S.HasField(stmts, key) && !(stmts[0].Assign? && stmts[0].key == key) {
      var k :| 0 <= k < |stmts| && stmts[k].Assign? && stmts[k].key == key;
      assert rest[k - 1] == stmts[k];
    }
  }

  /** What the assignments of a project leave in its two path fields. */
  lemma {:induction false} PathFields(slug: string, stmts: seq<Stmt>, st: L.Fields)
    requires L.LowerFields("project", slug, stmts, st).Ok?
    ensures var r := L.LowerFields("project", slug, stmts, st).value;
      && ("path" in r.texts <==> "path" in st.texts || S.HasField(stmts, "path"))
      && ("paths" in r.lists <==> "paths" in st.lists || S.HasField(stmts, "paths"))
      && (S.HasField(stmts, "paths") <==> LastValue(stmts, "paths").Some?)
      && ("paths" in r.lists ==> (r.lists["paths"] == [] <==>
        if LastValue(stmts, "paths").Some? then EndsEmpty(stmts) else st.lists["paths"] == []))
  {
    if stmts != [] {
      OneField(slug, stmts[0], st);
      PathFields(slug, stmts[1..], L.LowerField("project", slug, stmts[0], st).value);
      HasFieldCons(stmts, "path");
      HasFieldCons(stmts, "paths");
    }
  }

  // ---- blocks ----

  /** Both readings know the same blocks, and ask the same ones for a label. */
  lemma BlocksAgree(b: Stmt)
    requires b.Block?
    ensures L.IsBlock(b.kind) <==> S.IsKnownBlock(b.kind)
    ensures L.Slug(b) == if S.LacksLabel(b) then Err(MissingLabel(b.kind)) else Ok(S.SlugShown(b))
  {
  }

  lemma ProjectMirror(b: Stmt, st: L.Fields)
    requires b.Block? && b.kind == "project" && b.blockLabel.Some?
    requires L.LowerFields(b.kind, S.SlugShown(b), b.stmts, L.NO_FIELDS) == Ok(st)
    ensures Mirrors(Failure(L.ProjectPaths(st, S.SlugShown(b))),
      S.PathDiags(b, S.HasField(b.stmts, "path"), S.HasField(b.stmts, "paths")), true, Pathless(b))
  {
    PathFields(S.SlugShown(b), b.stmts, L.NO_FIELDS);
  }

  /** What follows the fields of a block. */
  ghost function AfterFields(b: Stmt, out: L.Config): Option<Rule>
    requires b.Block? && L.IsBlock(b.kind)
  {
    var st := L.LowerFields(b.kind, S.SlugShown(b), b.stmts, L.NO_FIELDS);
    if st.Err? then None else Failure(L.AddBlock(b, S.SlugShown(b), st.value, out))
  }

  lemma AfterFieldsMirror(b: Stmt, out: L.Config)
    requires b.Block? && L.IsBlock(b.kind) && !S.LacksLabel(b)
    requires L.LowerFields(b.kind, S.SlugShown(b), b.stmts, L.NO_FIELDS).Ok?
    ensures Mirrors(AfterFields(b, out), S.PathDiags(b, S.HasField(b.stmts, "path"), S.HasField(b.stmts, "paths")),
      true, Pathless(b))
  {
    if b.kind == "project" {
      ProjectMirror(b, L.LowerFields(b.kind, S.SlugShown(b), b.stmts, L.NO_FIELDS).value);
    }
  }

  lemma LabelledBlockMirror(b: Stmt, out: L.Config)
    requires b.Block? && L.IsBlock(b.kind) && !S.LacksLabel(b)
    requires !L.Repeats(b, out.mcp.Some?, out.viz.Some?)
    ensures Mirrors(Failure(L.LowerBlock(b, out)), S.BlockDiags(b), KnownStmts(b.stmts), Pathless(b))
  {
    BlocksAgree(b);
    var st := L.LowerFields(b.kind, S.SlugShown(b), b.stmts, L.NO_FIELDS);
    FieldsMirror(b.kind, S.SlugShown(b), b.stmts, L.NO_FIELDS);
    if st.Ok? {
      AfterFieldsMirror(b, out);
    }
    MirrorsThen(Failure(st), S.FieldsDiags(b.kind, S.SlugShown(b), b.stmts), KnownStmts(b.stmts), false,
      AfterFields(b, out), S.PathDiags(b, S.HasField(b.stmts, "path"),
        S.HasField(b.stmts, "paths")), true, Pathless(b));
  }

  lemma BlockMirror(b: Stmt, out: L.Config)
    requires b.Block?
    ensures Mirrors(Failure(L.LowerBlock(b, out)), S.RepeatDiags(b, out.mcp.Some?, out.viz.Some?) + S.BlockDiags(b),
      KnownStmts(b.stmts), Pathless(b))
  {
    BlocksAgree(b);
    if L.IsBlock(b.kind) && !L.Repeats(b, out.mcp.Some?, out.viz.Some?) && !S.LacksLabel(b) {
      LabelledBlockMirror(b, out);
    }
  }

  // ---- the file ----

  lemma StmtMirror(s: Stmt, out: L.Config)
    ensures Mirrors(Failure(L.LowerStmt(s, out)), S.RepeatDiags(s, out.mcp.Some?, out.viz.Some?) + S.TopDiags(s),
      KnownTop(s), Pathless(s))
  {
    match s
    case Assign(_, _, value) => StringMirror(value, "version");
    case Block(_, _, _, _) => BlockMirror(s, out);
    case OtherStmt =>
  }

  lemma StmtSeen(s: Stmt, out: L.Config)
    requires L.LowerStmt(s, out).Ok?
    ensures var r := L.LowerStmt(s, out).value;
      && r.mcp.Some? == (out.mcp.Some? || (s.Block? && s.kind == "mcp"))
      && r.viz.Some? == (out.viz.Some? || (s.Block? && s.kind == "viz"))
  {
  }

  lemma FileCons(stmts: seq<Stmt>)
    requires stmts != []
    ensures KnownFile(stmts) <==> KnownTop(stmts[0]) && KnownFile(stmts[1..])
    ensures SomePathless(stmts) <==> Pathless(stmts[0]) || SomePathless(stmts[1..])
  {
    var rest := stmts[1..];
    if KnownTop(stmts[0]) && KnownFile(rest) {
      forall k | 0 <= k < |stmts| ensures KnownTop(stmts[k]) {
        if k > 0 { assert stmts[k] == rest[k - 1]; }
      }
    }
    if SomePathless(rest) {
      var k :| 0 <= k < |rest| && Pathless(rest[k]);
      assert stmts[k + 1] == rest[k];
    }
    if SomePathless(stmts) && !Pathless(stmts[0]) {
      var k :| 0 <= k < |stmts| && Pathless(stmts[k]);
      assert rest[k - 1] == stmts[k];
    }
  }

  lemma {:induction false} StmtsMirror(stmts: seq<Stmt>, out: L.Config)
    ensures Mirrors(Failure(L.LowerStmts(stmts, out)), S.StmtsDiags(stmts, out.mcp.Some?, out.viz.Some?),
      KnownFile(stmts), SomePathless(stmts))
  {
    if stmts != [] {
      var s, rest := stmts[0], stmts[1..];
      var next := L.LowerStmt(s, out);
      FileCons(stmts);
      StmtMirror(s, out);
      var mcp, viz := out.mcp.Some? || (s.Block? && s.kind == "mcp"), out.viz.Some? || (s.Block? && s.kind == "viz");
      if next.Ok? {
        StmtSeen(s, out);
        StmtsMirror(rest, next.value);
      }
      var after := if next.Ok? then Failure(L.LowerStmts(rest, next.value)) else None;
      MirrorsThen(Failure(next), S.RepeatDiags(s, out.mcp.Some?, out.viz.Some?) + S.TopDiags(s), KnownTop(s),
        Pathless(s),
        after, S.StmtsDiags(rest, mcp, viz), KnownFile(rest), SomePathless(rest));
    }
  }

  /** A file loads exactly when the editor is silent, the grammar is known and every project keeps a path. */
  lemma LoadsIffSilent(stmts: seq<Stmt>)
    ensures L.LowerStmts(stmts, L.EMPTY_CONFIG).Ok? <==>
      S.StmtsDiags(stmts, false, false) == [] && KnownFile(stmts) && !SomePathless(stmts)
  {
    StmtsMirror(stmts, L.EMPTY_CONFIG);
  }

  /** The error that stops the daemon is the first one the editor shows, unless it is the extra rule. */
  lemma FirstErrorIsFirstDiag(stmts: seq<Stmt>)
    requires KnownFile(stmts) && L.LowerStmts(stmts, L.EMPTY_CONFIG).Err?
    ensures var error, diags := L.LowerStmts(stmts, L.EMPTY_CONFIG).rule, S.StmtsDiags(stmts, false, false);
      if error.EmptyPaths? then SomePathless(stmts) else diags != [] && diags[0].rule == error
  {
    StmtsMirror(stmts, L.EMPTY_CONFIG);
  }

  /** The editor is silent about a project with no paths, which does not load. */
  lemma SilentButRefused()
    ensures var file := [Block(0, "project", Some("p"), [Assign(1, "paths", Value(2, List([])))])];
      && KnownFile(file)
      && S.StmtsDiags(file, false, false) == []
      && L.LowerStmts(file, L.EMPTY_CONFIG) == Err(EmptyPaths("p"))
  {
    var paths := Assign(1, "paths", Value(2, List([])));
    var project := Block(0, "project", Some("p"), [paths]);
    var file := [project];
    assert S.HasField([paths], "paths") by { assert [paths][0].key == "paths"; }
    assert [paths][1..] == [];
    assert L.LowerField("project", "p", paths, L.NO_FIELDS) == Ok(L.Fields(map[], map["paths" := []], map[]));
    assert file[1..] == [];
  }

  // ---- what a loaded file means ----

  /** The text of a literal without interpolation. */
  function Joined(parts: seq<Part>): string {
    if parts == [] then "" else (if parts[0].Lit? then parts[0].text else "") + Joined(parts[1..])
  }

  lemma {:induction false} PlainIsJoined(parts: seq<Part>, context: string, out: string)
    ensures L.PlainText(parts, context, out).Ok? <==> forall k :: 0 <= k < |parts| ==> parts[k].Lit?
    ensures L.PlainText(parts, context, out).Ok? ==> L.PlainText(parts, context, out).value == out + Joined(parts)
  {
    if parts == [] {
      assert out + "" == out;
    } else {
      var rest := parts[1..];
      if parts[0].Lit? {
        var text := parts[0].text;
        PlainIsJoined(rest, context, out + text);
        assert out + (text + Joined(rest)) == out + text + Joined(rest);
        assert (forall k :: 0 <= k < |rest| ==> rest[k].Lit?) ==> forall k :: 0 < k < |parts| ==>
          parts[k] == rest[k - 1];
        assert (forall k :: 0 <= k < |parts| ==> parts[k].Lit?) ==> forall k :: 0 <= k < |rest| ==>
          rest[k] == parts[k + 1];
      }
    }
  }

  /** The value is a literal with this text. */
  ghost predicate SaysText(v: Value, text: string) {
    v.expr.Str? && (forall k :: 0 <= k < |v.expr.parts| ==> v.expr.parts[k].Lit?) && text == Joined(v.expr.parts)
  }

  ghost predicate SaysTexts(items: seq<Value>, texts: seq<string>) {
    |items| == |texts| && forall k :: 0 <= k < |items| ==> SaysText(items[k], texts[k])
  }

  lemma StringSays(v: Value, context: string)
    requires L.ExpectString(v, context).Ok?
    ensures SaysText(v, L.ExpectString(v, context).value)
  {
    PlainIsJoined(v.expr.parts, context, "");
    assert "" + Joined(v.expr.parts) == Joined(v.expr.parts);
  }

  lemma {:induction false} StringsSay(items: seq<Value>, context: string)
    requires L.ExpectStrings(items, context).Ok?
    ensures SaysTexts(items, L.ExpectStrings(items, context).value)
  {
    if items != [] {
      StringSays(items[0], context);
      StringsSay(items[1..], context);
      var texts, rest := L.ExpectStrings(items, context).value, L.ExpectStrings(items[1..], context).value;
      forall k | 0 <= k < |items| ensures SaysText(items[k], texts[k]) {
        if k > 0 { assert items[k] == items[1..][k - 1] && texts[k] == rest[k - 1]; }
      }
    }
  }

  /** A field holds the value of its last assignment, or what it held before. */
  ghost predicate HoldsLast(stmts: seq<Stmt>, st: L.Fields, r: L.Fields, key: string) {
    var last := LastValue(stmts, key);
    && (last.None? ==> && L.TextField(r, key) == L.TextField(st, key)
                       && (key in r.lists <==> key in st.lists) && (key in r.lists ==> r.lists[key] == st.lists[key])
                       && (key in r.ports <==> key in st.ports) && (key in r.ports ==> r.ports[key] == st.ports[key]))
    && (last.Some? ==> || (key in r.texts && SaysText(last.value, r.texts[key]))
                       || (key in r.lists && last.value.expr.List? && SaysTexts(last.value.expr.items, r.lists[key]))
                       || (key in r.ports && last.value.expr == Int(r.ports[key]) && 1 <= r.ports[key] <= MAX_PORT))
  }

  lemma OneAssignment(kind: string, slug: string, s: Stmt, st: L.Fields, key: string)
    requires L.IsBlock(kind) && L.LowerField(kind, slug, s, st).Ok?
    ensures HoldsLast([s], st, L.LowerField(kind, slug, s, st).value, key)
  {
    assert [s][1..] == [];
    assert LastValue([], key) == None;
    if s.key == key {
      FieldSays(kind, slug, s, st);
    }
  }

  lemma FieldSays(kind: string, slug: string, s: Stmt, st: L.Fields)
    requires L.IsBlock(kind) && L.LowerField(kind, slug, s, st).Ok?
    ensures var r := L.LowerField(kind, slug, s, st).value;
      || (s.key in r.texts && SaysText(s.value, r.texts[s.key]))
      || (s.key in r.lists && s.value.expr.List? && SaysTexts(s.value.expr.items, r.lists[s.key]))
      || (s.key in r.ports && s.value.expr == Int(r.ports[s.key]) && 1 <= r.ports[s.key] <= MAX_PORT)
  {
    var v := s.value;
    match kind
    case "ignore" => StringSays(v, "ignore.patterns");
    case "project" =>
      match s.key {
        case "label" => StringSays(v, "project.label");
        case "path" => StringSays(v, "project.path");
        case _ => StringsSay(v.expr.items, "project.paths");
      }
    case "group" =>
      match s.key {
        case "label" => StringSays(v, "group.label");
        case _ => StringsSay(v.expr.items, "group.members");
      }
    case _ =>
  }

  /** In every block the last assignment of a field wins. */
  lemma {:induction false} LastAssignmentWins(kind: string, slug: string, stmts: seq<Stmt>, st: L.Fields, key: string)
    requires L.IsBlock(kind) && L.LowerFields(kind, slug, stmts, st).Ok?
    ensures HoldsLast(stmts, st, L.LowerFields(kind, slug, stmts, st).value, key)
  {
    if stmts != [] {
      var next := L.LowerField(kind, slug, stmts[0], st).value;
      OneAssignment(kind, slug, stmts[0], st, key);
      LastAssignmentWins(kind, slug, stmts[1..], next, key);
      assert [stmts[0]][1..] == [];
      assert LastValue([], key) == None;
      HoldsThen(stmts, st, next, L.LowerFields(kind, slug, stmts, st).value, key);
    }
  }

  lemma HoldsThen(stmts: seq<Stmt>, st: L.Fields, next: L.Fields, r: L.Fields, key: string)
    requires stmts != [] && HoldsLast([stmts[0]], st, next, key) && HoldsLast(stmts[1..], next, r, key)
    ensures HoldsLast(stmts, st, r, key)
  {
    assert [stmts[0]][1..] == [];
    assert LastValue([], key) == None;
  }

  /** The version of a loaded file is the text of its last `version`. */
  lemma {:induction false} VersionIsLast(stmts: seq<Stmt>, out: L.Config)
    requires L.LowerStmts(stmts, out).Ok?
    ensures var r, last := L.LowerStmts(stmts, out).value, LastValue(stmts, "version");
      if last.Some? then r.version.Some? && L.ExpectString(last.value, "version") == Ok(r.version.value)
      else r.version == out.version
  {
    if stmts != [] {
      VersionIsLast(stmts[1..], L.LowerStmt(stmts[0], out).value);
    }
  }
}
