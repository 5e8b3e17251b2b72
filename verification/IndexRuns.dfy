/**
 Whole runs of the writer: any sequence of upserts and deletes leaves the index a
 rebuild of the last extraction of each file would give, exactly when the body
 hash decides everything about a symbol but its location.
 */
module IndexRuns {
  import opened Prelude
  import opened IndexTables
  import opened SymbolDiff
  import opened IndexReplay
  import opened IndexTheorems

  datatype Command = UpsertFile(x: ExtractedFile) | DeleteFile(path: string)

  type Snapshot = map<string, ExtractedFile>

  /** The last extraction of each file that has not been deleted since. */
  function Latest(cmds: seq<Command>): Snapshot {
    if cmds == [] then map[] else
    var before := Latest(cmds[..|cmds| - 1]);
    match cmds[|cmds| - 1]
    case UpsertFile(x) => before[x.file := x]
    case DeleteFile(path) => before - {path}
  }

  ghost predicate Owns(s: Snapshot, file: string, fqdn: string) {
    file in s && IsExtracted(s[file].symbols, fqdn)
  }

  ghost predicate Owned(s: Snapshot, fqdn: string) {
    exists file :: Owns(s, file, fqdn)
  }

  /** Names are distinct within a file and across files, and files are filed under their path. */
  ghost predicate Separate(s: Snapshot) {
    && (forall file :: file in s ==> s[file].file == file && Distinct(s[file].symbols))
    && (forall a, b, f :: Owns(s, a, f) && Owns(s, b, f) ==> a == b)
  }

  ghost predicate IsRebuild(v: map<string, Entry>, s: Snapshot) {
    && (forall f :: f in v <==> Owned(s, f))
    && (forall file, f :: Owns(s, file, f) ==> f in v && v[f] == Fresh(s[file], SymbolFor(s[file].symbols, f).value))
  }

  lemma RebuildIsUnique(a: map<string, Entry>, b: map<string, Entry>, s: Snapshot)
    requires IsRebuild(a, s) && IsRebuild(b, s)
    ensures a == b
  {
    forall f | f in a ensures f in b && a[f] == b[f] {
      var file :| Owns(s, file, f);
    }
    SameMap(a, b);
  }

  /** Equal hashes of one name mean equal columns, edges and document. */
  ghost predicate HashDecidesFor(before: ExtractedFile, x: ExtractedFile, f: string) {
    IsExtracted(before.symbols, f) && IsExtracted(x.symbols, f) ==>
      var was, now := SymbolFor(before.symbols, f).value, SymbolFor(x.symbols, f).value;
      was.bodyHash == now.bodyHash ==> Fresh(before, was).(location := now.location) == Fresh(x, now)
  }

  ghost predicate HashDecides(s: Snapshot, x: ExtractedFile) {
    x.file in s ==> forall f :: HashDecidesFor(s[x.file], x, f)
  }

  /** Replacing one file of a rebuild gives a rebuild exactly when the hash decides. */
  lemma ReplaceIsRebuild(v: map<string, Entry>, s: Snapshot, x: ExtractedFile)
    requires Separate(s) && IsRebuild(v, s) && Separate(s[x.file := x])
    ensures IsRebuild(ReplaceFile(v, x), s[x.file := x]) <==> HashDecides(s, x)
  {
    var u, r := s[x.file := x], ReplaceFile(v, x);
    if HashDecides(s, x) {
      forall f ensures f in r <==> Owned(u, f) { ReplacedNames(v, s, x, f); }
      forall file, f | Owns(u, file, f) ensures f in r && r[f] == Fresh(u[file], SymbolFor(u[file].symbols, f).value) {
        ReplacedEntry(v, s, x, file, f);
      }
    } else {
      var f :| !HashDecidesFor(s[x.file], x, f);
      StaleEntry(v, s, x, f);
    }
  }

  /** A name whose hash does not decide keeps what the earlier extraction said. */
  lemma StaleEntry(v: map<string, Entry>, s: Snapshot, x: ExtractedFile, f: string)
    requires Separate(s) && IsRebuild(v, s) && x.file in s && !HashDecidesFor(s[x.file], x, f)
    ensures !IsRebuild(ReplaceFile(v, x), s[x.file := x])
  {
    var u, r := s[x.file := x], ReplaceFile(v, x);
    assert Owns(s, x.file, f) && Owns(u, x.file, f);
    ReplacedNames(v, s, x, f);
    assert r[f] != Fresh(u[x.file], SymbolFor(u[x.file].symbols, f).value);
  }

  lemma ReplacedNames(v: map<string, Entry>, s: Snapshot, x: ExtractedFile, f: string)
    requires Separate(s) && IsRebuild(v, s)
    ensures f in ReplaceFile(v, x) <==> Owned(s[x.file := x], f)
  {
    var u := s[x.file := x];
    if IsExtracted(x.symbols, f) {
      var k :| 0 <= k < |x.symbols| && x.symbols[k].fqdn == f;
      assert f in FqdnsIn(x.symbols);
      assert Owns(u, x.file, f);
    } else if f in ReplaceFile(v, x) {
      var file :| Owns(s, file, f);
      assert Owns(u, file, f);
    } else if Owned(u, f) {
      var file :| Owns(u, file, f);
      assert Owns(s, file, f);
    }
  }

  lemma RefreshedIsFresh(v: map<string, Entry>, s: Snapshot, x: ExtractedFile, f: string)
    requires Separate(s) && IsRebuild(v, s) && Separate(s[x.file := x]) && HashDecides(s, x)
    requires IsExtracted(x.symbols, f)
    ensures Refreshed(v, x, SymbolFor(x.symbols, f).value) == Fresh(x, SymbolFor(x.symbols, f).value)
  {
    if f in v {
      var owner :| Owns(s, owner, f);
      OwnFile(v, s, x, f);
      assert HashDecidesFor(s[owner], x, f);
    }
  }

  lemma ReplacedEntry(v: map<string, Entry>, s: Snapshot, x: ExtractedFile, file: string, f: string)
    requires Separate(s) && IsRebuild(v, s) && Separate(s[x.file := x]) && HashDecides(s, x)
    requires Owns(s[x.file := x], file, f)
    ensures var u, r := s[x.file := x], ReplaceFile(v, x);
      f in r && r[f] == Fresh(u[file], SymbolFor(u[file].symbols, f).value)
  {
    ReplacedNames(v, s, x, f);
    if file == x.file {
      RefreshedIsFresh(v, s, x, f);
    } else {
      assert Owns(s, file, f);
      assert !Owns(s[x.file := x], x.file, f);
    }
  }

  lemma RemoveIsRebuild(v: map<string, Entry>, s: Snapshot, path: string)
    requires Separate(s) && IsRebuild(v, s)
    ensures Separate(s - {path}) && IsRebuild(RemoveFile(v, path), s - {path})
  {
    var u, r := s - {path}, RemoveFile(v, path);
    forall file, f | Owns(u, file, f) ensures Owns(s, file, f) {}
    forall f | f in r ensures Owned(u, f) {
      var file :| Owns(s, file, f);
      assert Owns(u, file, f);
    }
  }

  // ---- runs ----

  ghost predicate Step(t: Tables, cmd: Command, u: Tables) {
    match cmd
    case UpsertFile(x) => UpsertStep(t, x, u)
    case DeleteFile(path) => DeleteStep(t, path, u)
  }

  ghost predicate IsRun(trace: seq<Tables>, cmds: seq<Command>) {
    && |trace| == |cmds| + 1
    && trace[0] == EMPTY_TABLES
    && forall k :: 0 <= k < |cmds| ==> Step(trace[k], cmds[k], trace[k + 1])
  }

  // ---- what every run means, name by name ----

  /** Each extraction gives a name once; files may share names, and hashes need not decide. */
  ghost predicate DistinctNames(cmds: seq<Command>) {
    forall k :: 0 <= k < |cmds| && cmds[k].UpsertFile? ==> Distinct(cmds[k].x.symbols)
  }

  ghost function Apply(v: map<string, Entry>, cmd: Command): map<string, Entry> {
    match cmd
    case UpsertFile(x) => ReplaceFile(v, x)
    case DeleteFile(path) => RemoveFile(v, path)
  }

  ghost function Meaning(cmds: seq<Command>): map<string, Entry> {
    if cmds == [] then map[] else Apply(Meaning(cmds[..|cmds| - 1]), cmds[|cmds| - 1])
  }

  lemma StepMeans(t: Tables, cmd: Command, u: Tables)
    requires Sound(t, {}) && Step(t, cmd, u) && (cmd.UpsertFile? ==> Distinct(cmd.x.symbols))
    ensures Sound(u, {}) && View(u) == Apply(View(t), cmd)
    ensures forall f :: f in View(t) && f in View(u) ==> FindId(u, f) == FindId(t, f)
  {
    match cmd
    case UpsertFile(x) => UpsertReplacesFile(t, x, u);
    case DeleteFile(path) => DeleteRemovesFile(t, path, u);
  }

  /** Every run computes its meaning: neither ids nor the order of listed rows can be seen in it. */
  lemma {:induction false} RunMeans(trace: seq<Tables>, cmds: seq<Command>)
    requires IsRun(trace, cmds) && DistinctNames(cmds)
    ensures Sound(trace[|cmds|], {}) && View(trace[|cmds|]) == Meaning(cmds)
  {
    if cmds != [] {
      var n := |cmds| - 1;
      assert IsRun(trace[..n + 1], cmds[..n]);
      RunMeans(trace[..n + 1], cmds[..n]);
      StepMeans(trace[n], cmds[n], trace[n + 1]);
    }
  }

  /** In every run a symbol present before and after a command keeps its id. */
  lemma SurvivorsKeepIds(trace: seq<Tables>, cmds: seq<Command>, n: nat, f: string)
    requires IsRun(trace, cmds) && DistinctNames(cmds) && n < |cmds|
    ensures Integrity(trace[n]) && Integrity(trace[n + 1])
    ensures f in View(trace[n]) && f in View(trace[n + 1]) ==> FindId(trace[n], f) == FindId(trace[n + 1], f)
  {
    assert IsRun(trace[..n + 1], cmds[..n]);
    RunMeans(trace[..n + 1], cmds[..n]);
    StepMeans(trace[n], cmds[n], trace[n + 1]);
  }

  // ---- runs that rebuild ----

  /** Names are separate after the k-th command, and an upsert obeys its hashes. */
  ghost predicate AdmissibleAt(cmds: seq<Command>, k: nat)
    requires k < |cmds|
  {
    && Separate(Latest(cmds[..k + 1]))
    && (cmds[k].UpsertFile? ==> HashDecides(Latest(cmds[..k]), cmds[k].x))
  }

  ghost predicate Admissible(cmds: seq<Command>) {
    forall k :: 0 <= k < |cmds| ==> AdmissibleAt(cmds, k)
  }

  lemma OwnFile(v: map<string, Entry>, s: Snapshot, x: ExtractedFile, f: string)
    requires IsRebuild(v, s) && Separate(s) && Separate(s[x.file := x]) && f in v && IsExtracted(x.symbols, f)
    ensures v[f].file == x.file
  {
    var owner :| Owns(s, owner, f);
    if owner != x.file {
      assert Owns(s[x.file := x], owner, f) && Owns(s[x.file := x], x.file, f);
    }
  }

  lemma StepRebuilds(t: Tables, s: Snapshot, cmd: Command, u: Tables)
    requires Sound(t, {}) && Separate(s) && IsRebuild(View(t), s) && Step(t, cmd, u)
    requires cmd.UpsertFile? ==> Separate(s[cmd.x.file := cmd.x]) && HashDecides(s, cmd.x)
    ensures Sound(u, {})
    ensures IsRebuild(View(u), match cmd case UpsertFile(x) => s[x.file := x] case DeleteFile(path) => s - {path})
  {
    match cmd
    case UpsertFile(x) =>
      assert s[x.file := x][x.file] == x;
      UpsertReplacesFile(t, x, u);
      ReplaceIsRebuild(View(t), s, x);
    case DeleteFile(path) =>
      DeleteRemovesFile(t, path, u);
      RemoveIsRebuild(View(t), s, path);
  }

  lemma PrefixOfRun(trace: seq<Tables>, cmds: seq<Command>, n: nat)
    requires IsRun(trace, cmds) && Admissible(cmds) && n <= |cmds|
    ensures IsRun(trace[..n + 1], cmds[..n]) && Admissible(cmds[..n])
  {
    var rest := cmds[..n];
    forall k | 0 <= k < n ensures AdmissibleAt(rest, k) {
      assert AdmissibleAt(cmds, k);
      assert rest[..k] == cmds[..k] && rest[..k + 1] == cmds[..k + 1];
    }
  }

  /**
   Over every admissible run the index is the rebuild of the latest extractions,
   and every edge that names a stored symbol is linked to it.
   */
  lemma {:induction false} IncrementalIsRebuild(trace: seq<Tables>, cmds: seq<Command>)
    requires IsRun(trace, cmds) && Admissible(cmds)
    ensures Sound(trace[|cmds|], {}) && Separate(Latest(cmds))
    ensures IsRebuild(View(trace[|cmds|]), Latest(cmds))
  {
    if cmds != [] {
      var n := |cmds| - 1;
      PrefixOfRun(trace, cmds, n);
      IncrementalIsRebuild(trace[..n + 1], cmds[..n]);
      assert cmds[..n + 1] == cmds && AdmissibleAt(cmds, n);
      StepRebuilds(trace[n], Latest(cmds[..n]), cmds[n], trace[n + 1]);
    }
  }

  /** The index depends on the latest extractions only, not on how they came about. */
  lemma HistoryDoesNotMatter(a: seq<Tables>, as_: seq<Command>, b: seq<Tables>, bs: seq<Command>)
    requires IsRun(a, as_) && Admissible(as_) && IsRun(b, bs) && Admissible(bs)
    requires Latest(as_) == Latest(bs)
    ensures Integrity(a[|as_|]) && Integrity(b[|bs|]) && View(a[|as_|]) == View(b[|bs|])
  {
    IncrementalIsRebuild(a, as_);
    IncrementalIsRebuild(b, bs);
    RebuildIsUnique(View(a[|as_|]), View(b[|bs|]), Latest(as_));
  }

  // ---- runs whose hashes do not decide ----

  lemma BeforeLast(trace: seq<Tables>, cmds: seq<Command>, n: nat)
    requires |cmds| == n + 1 && IsRun(trace, cmds) && Admissible(cmds[..n])
    ensures Sound(trace[n], {}) && Separate(Latest(cmds[..n])) && IsRebuild(View(trace[n]), Latest(cmds[..n]))
    ensures Step(trace[n], cmds[n], trace[n + 1])
  {
    assert IsRun(trace[..n + 1], cmds[..n]);
    IncrementalIsRebuild(trace[..n + 1], cmds[..n]);
  }

  /** After an admissible run, one more upsert leaves a rebuild if and only if its hashes decide. */
  lemma LastUpsertIff(trace: seq<Tables>, cmds: seq<Command>, n: nat)
    requires |cmds| == n + 1 && IsRun(trace, cmds) && Admissible(cmds[..n])
    requires cmds[n].UpsertFile? && Separate(Latest(cmds))
    ensures Integrity(trace[n + 1])
    ensures IsRebuild(View(trace[n + 1]), Latest(cmds)) <==> HashDecides(Latest(cmds[..n]), cmds[n].x)
  {
    BeforeLast(trace, cmds, n);
    OneMoreUpsert(trace[n], Latest(cmds[..n]), cmds[n].x, trace[n + 1]);
  }

  lemma OneMoreUpsert(t: Tables, s: Snapshot, x: ExtractedFile, u: Tables)
    requires Sound(t, {}) && Separate(s) && IsRebuild(View(t), s) && UpsertStep(t, x, u) && Separate(s[x.file := x])
    ensures Integrity(u) && (IsRebuild(View(u), s[x.file := x]) <==> HashDecides(s, x))
  {
    assert s[x.file := x][x.file] == x;
    UpsertReplacesFile(t, x, u);
    ReplaceIsRebuild(View(t), s, x);
  }

  /** Some listing of a file's rows, in any order. */
  lemma {:induction false} ListIds(t: Tables, file: string, ids: set<int>) returns (rows: seq<DbSymbolRow>)
    requires forall id :: id in ids ==> id in t.symbols && t.symbols[id].file == file
    ensures forall k :: 0 <= k < |rows| ==>
      && rows[k].id in ids && rows[k].fqdn == t.symbols[rows[k].id].fqdn
      && rows[k].bodyHash == t.symbols[rows[k].id].bodyHash
    ensures forall id :: id in ids ==> exists k :: 0 <= k < |rows| && rows[k].id == id
    decreases |ids|
  {
    if ids == {} {
      rows := [];
    } else {
      var id := Element(ids);
      var rest := ListIds(t, file, ids - {id});
      rows := [DbSymbolRow(id, t.symbols[id].fqdn, t.symbols[id].bodyHash)] + rest;
      assert rows[0].id == id;
      forall other | other in ids && other != id ensures exists k :: 0 <= k < |rows| && rows[k].id == other {
        assert other in ids - {id};
        var k :| 0 <= k < |rest| && rest[k].id == other;
        assert rows[k + 1].id == other;
      }
    }
  }

  /** Every upsert can be carried out. */
  lemma UpsertHappens(t: Tables, x: ExtractedFile) returns (u: Tables)
    ensures UpsertStep(t, x, u)
  {
    var ids := set id | id in t.symbols && t.symbols[id].file == x.file;
    var rows := ListIds(t, x.file, ids);
    forall id | id in t.symbols && t.symbols[id].file == x.file
      ensures exists k :: 0 <= k < |rows| && rows[k].id == id
    {
      assert id in ids;
    }
    assert ListsFile(t, x.file, rows);
    u := ReplayPlan(t, x, Diff(rows, x.symbols));
  }

  const HERE := Location(1, 1, 0, 0)

  /** One file with one symbol that its extractor gives no body hash. */
  function Unhashed(columns: string): ExtractedFile {
    ExtractedFile("f.lua", [RawSymbol("f", None, HERE, columns)], [], [])
  }

  lemma UnhashedIsSeparate(columns: string)
    ensures Separate(map["f.lua" := Unhashed(columns)])
    ensures SymbolFor(Unhashed(columns).symbols, "f") == Some(RawSymbol("f", None, HERE, columns))
    ensures IsExtracted(Unhashed(columns).symbols, "f")
  {
    var syms := Unhashed(columns).symbols;
    assert syms[0].fqdn == "f";
  }

  /** Two extractions of a file whose hashes do not decide: the run exists, and does not end in a rebuild. */
  lemma UndecidedGoesStale(x: ExtractedFile, y: ExtractedFile, f: string) returns (trace: seq<Tables>)
    requires x.file == y.file && Separate(map[x.file := x]) && Separate(map[y.file := y]) && !HashDecidesFor(x, y, f)
    ensures IsRun(trace, [UpsertFile(x), UpsertFile(y)])
    ensures Integrity(trace[2]) && !IsRebuild(View(trace[2]), map[y.file := y])
  {
    var one := UpsertHappens(EMPTY_TABLES, x);
    var two := UpsertHappens(one, y);
    trace := [EMPTY_TABLES, one, two];
    TwoUpserts(trace, x, y);
  }

  /**
   A symbol without a hash: "no hash" equals "no hash", so a second extraction is taken
   for unchanged, whatever else it says.
   */
  lemma UnhashedGoesStale(before: string, after: string) returns (trace: seq<Tables>)
    requires before != after
    ensures IsRun(trace, [UpsertFile(Unhashed(before)), UpsertFile(Unhashed(after))])
    ensures Integrity(trace[2]) && !IsRebuild(View(trace[2]), map[Unhashed(after).file := Unhashed(after)])
  {
    UnhashedIsSeparate(before);
    UnhashedIsSeparate(after);
    NoHashDecidesNothing(before, after);
    trace := UndecidedGoesStale(Unhashed(before), Unhashed(after), "f");
  }

  lemma NoHashDecidesNothing(before: string, after: string)
    requires before != after
    ensures !HashDecidesFor(Unhashed(before), Unhashed(after), "f")
  {
    UnhashedIsSeparate(before);
    UnhashedIsSeparate(after);
  }

  /** Two extractions of one file, from the start. */
  lemma TwoUpserts(trace: seq<Tables>, x: ExtractedFile, y: ExtractedFile)
    requires |trace| == 3 && trace[0] == EMPTY_TABLES && UpsertStep(trace[0], x, trace[1])
    requires UpsertStep(trace[1], y, trace[2])
    requires x.file == y.file && Separate(map[x.file := x]) && Separate(map[y.file := y])
    ensures IsRun(trace, [UpsertFile(x), UpsertFile(y)]) && Integrity(trace[2])
    ensures IsRebuild(View(trace[2]), map[y.file := y]) <==> forall f :: HashDecidesFor(x, y, f)
  {
    var cmds := [UpsertFile(x), UpsertFile(y)];
    var first := [UpsertFile(x)];
    assert cmds[..1] == first && first[..0] == [];
    assert Latest([]) == map[];
    assert Latest(first) == map[][x.file := x] == map[x.file := x];
    assert Latest(cmds) == map[x.file := x][y.file := y] == map[y.file := y];
    assert Separate(Latest(first[..0 + 1])) by { assert first[..1] == first; }
    assert AdmissibleAt(first, 0);
    LastUpsertIff(trace, cmds, 1);
  }
}
