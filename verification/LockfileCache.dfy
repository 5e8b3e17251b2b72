/**
 Cached external symbols and the lockfile fingerprints they were read under. A
 file's content is identified with its digest, which is never the empty string.
 */
module LockfileCache {
  import opened Prelude

  datatype Origin = CargoRegistry | NodeModulesDts | ManualExternal

  /** A path below the workspace root. */
  datatype File = File(dir: string, name: string)

  type Digest = s: string | s != "" witness "0"

  type Disk = map<File, Digest>

  // ---- fingerprints ----

  datatype NpmKind = PackageLockJson | PnpmLockYaml | YarnLock | YarnPnpCjs | Bun

  datatype NpmLock = NpmLock(kind: NpmKind, digest: string)

  datatype Hashes = Hashes(cargo: Option<string>, npm: Option<NpmLock>, luarocks: Option<string>)

  function Root(name: string): File { File("", name) }

  function HashIfExists(disk: Disk, name: string): Option<string> {
    if Root(name) in disk then Some(disk[Root(name)]) else None
  }

  function NpmHash(disk: Disk): Option<NpmLock> {
    if Root("pnpm-lock.yaml") in disk then Some(NpmLock(PnpmLockYaml, disk[Root("pnpm-lock.yaml")]))
    else if Root("yarn.lock") in disk then Some(NpmLock(YarnLock, disk[Root("yarn.lock")]))
    else if Root(".pnp.cjs") in disk then Some(NpmLock(YarnPnpCjs, disk[Root(".pnp.cjs")]))
    else if Root("bun.lock") in disk then Some(NpmLock(Bun, disk[Root("bun.lock")]))
    else if Root("bun.lockb") in disk then Some(NpmLock(Bun, disk[Root("bun.lockb")]))
    else if Root("package-lock.json") in disk then Some(NpmLock(PackageLockJson, disk[Root("package-lock.json")]))
    else None
  }

  /** Luarocks has no lockfile. */
  function LiveHashes(disk: Disk): Hashes {
    Hashes(HashIfExists(disk, "Cargo.lock"), NpmHash(disk), None)
  }

  /** The name of the file alone decides, wherever it lies. */
  function Classify(file: File): Option<Origin> {
    if file.name == "Cargo.lock" then Some(CargoRegistry)
    else if file.name in {"package-lock.json", "pnpm-lock.yaml", "yarn.lock", ".pnp.cjs", "bun.lock", "bun.lockb"}
    then Some(NodeModulesDts)
    else None
  }

  /** One origin's part of the fingerprints. */
  datatype Print = Print(plain: Option<string>, npm: Option<NpmLock>)

  function PrintOf(h: Hashes, origin: Origin): Print {
    match origin
    case CargoRegistry => Print(h.cargo, None)
    case NodeModulesDts => Print(None, h.npm)
    case ManualExternal => Print(h.luarocks, None)
  }

  function LivePrint(disk: Disk, origin: Origin): Print { PrintOf(LiveHashes(disk), origin) }

  /** Touching a file can move the fingerprint of its own origin only. */
  lemma OneFileOneOrigin(before: Disk, after: Disk, file: File, origin: Origin)
    requires forall f :: f != file ==> (f in before <==> f in after) && (f in before ==> before[f] == after[f])
    requires Classify(file) != Some(origin)
    ensures LivePrint(before, origin) == LivePrint(after, origin)
  {
    forall name | Classify(Root(name)) == Some(origin)
      ensures Root(name) != file
      ensures Root(name) in before <==> Root(name) in after
      ensures Root(name) in before ==> before[Root(name)] == after[Root(name)]
    {
    }
    match origin
    case CargoRegistry => assert Classify(Root("Cargo.lock")) == Some(origin);
    case NodeModulesDts =>
      assert Classify(Root("pnpm-lock.yaml")) == Some(origin);
      assert Classify(Root("yarn.lock")) == Some(origin);
      assert Classify(Root(".pnp.cjs")) == Some(origin);
      assert Classify(Root("bun.lock")) == Some(origin);
      assert Classify(Root("bun.lockb")) == Some(origin);
      assert Classify(Root("package-lock.json")) == Some(origin);
    case ManualExternal =>
  }

  /** The npm lockfiles in the order in which they are asked for, and what each is stored as. */
  const NPM_FILES: seq<(string, NpmKind)> := [
    ("pnpm-lock.yaml", PnpmLockYaml), ("yarn.lock", YarnLock), (".pnp.cjs", YarnPnpCjs), ("bun.lock", Bun),
    ("bun.lockb", Bun), ("package-lock.json", PackageLockJson)]

  /** The first of them that is there. */
  ghost predicate IsFirstPresent(disk: Disk, k: int) {
    && 0 <= k < |NPM_FILES| && Root(NPM_FILES[k].0) in disk
    && forall j :: 0 <= j < k ==> Root(NPM_FILES[j].0) !in disk
  }

  /** The npm fingerprint is the kind and the digest of the first lockfile present. */
  lemma NpmIsFirstPresent(disk: Disk)
    ensures forall k :: IsFirstPresent(disk, k) ==>
      NpmHash(disk) == Some(NpmLock(NPM_FILES[k].1, disk[Root(NPM_FILES[k].0)]))
    ensures NpmHash(disk) == None <==> forall k :: 0 <= k < |NPM_FILES| ==> Root(NPM_FILES[k].0) !in disk
  {
    assert |NPM_FILES| == 6;
    assert NPM_FILES[0].0 == "pnpm-lock.yaml" && NPM_FILES[1].0 == "yarn.lock" && NPM_FILES[2].0 == ".pnp.cjs";
    assert NPM_FILES[3].0 == "bun.lock" && NPM_FILES[4].0 == "bun.lockb" && NPM_FILES[5].0 == "package-lock.json";
  }

  lemma DistinctNpmFiles(j: nat, k: nat)
    requires j < |NPM_FILES| && k < |NPM_FILES| && j != k
    ensures NPM_FILES[j].0 != NPM_FILES[k].0
  {
    assert |NPM_FILES[0].0| == 14 && |NPM_FILES[1].0| == 9 && |NPM_FILES[2].0| == 8 && |NPM_FILES[3].0| == 8;
    assert |NPM_FILES[4].0| == 9 && |NPM_FILES[5].0| == 17;
    assert NPM_FILES[1].0[0] == 'y' && NPM_FILES[4].0[0] == 'b';
    assert NPM_FILES[2].0[0] == '.' && NPM_FILES[3].0[0] == 'b';
  }

  /**
   Writing an npm lockfile moves the fingerprint exactly when no file asked for before it
   is there, and the fingerprint was not already this kind and digest.
   */
  lemma NpmEditMovesIff(disk: Disk, k: nat, digest: Digest)
    requires k < |NPM_FILES|
    ensures NpmHash(disk[Root(NPM_FILES[k].0) := digest]) != NpmHash(disk) <==>
      && (forall j :: 0 <= j < k ==> Root(NPM_FILES[j].0) !in disk)
      && NpmHash(disk) != Some(NpmLock(NPM_FILES[k].1, digest))
  {
    var after := disk[Root(NPM_FILES[k].0) := digest];
    forall j | 0 <= j < |NPM_FILES| && j != k
      ensures Root(NPM_FILES[j].0) in after <==> Root(NPM_FILES[j].0) in disk
      ensures Root(NPM_FILES[j].0) in disk ==> after[Root(NPM_FILES[j].0)] == disk[Root(NPM_FILES[j].0)]
    {
      DistinctNpmFiles(j, k);
    }
    NpmIsFirstPresent(disk);
    NpmIsFirstPresent(after);
    if j :| 0 <= j < k && Root(NPM_FILES[j].0) in disk {
      var first := FirstPresent(disk, j);
      assert IsFirstPresent(after, first);
    } else {
      assert IsFirstPresent(after, k);
    }
  }

  lemma {:induction false} FirstPresent(disk: Disk, k: nat) returns (first: nat)
    requires k < |NPM_FILES| && Root(NPM_FILES[k].0) in disk
    ensures first <= k && IsFirstPresent(disk, first)
  {
    if j :| 0 <= j < k && Root(NPM_FILES[j].0) in disk {
      first := FirstPresent(disk, j);
    } else {
      first := k;
    }
  }

  /** Writing `Cargo.lock` moves the Cargo fingerprint exactly when its digest is new. */
  lemma CargoEditMovesIff(disk: Disk, digest: Digest)
    ensures var file := File("", "Cargo.lock");
      LivePrint(disk[file := digest], CargoRegistry) != LivePrint(disk, CargoRegistry) <==>
      file !in disk || disk[file] != digest
  {
  }

  /** A file belongs to an origin exactly by its name. */
  lemma ClassifyIff(file: File)
    ensures Classify(file) == Some(CargoRegistry) <==> file.name == "Cargo.lock"
    ensures Classify(file) == Some(NodeModulesDts) <==> exists k :: 0 <= k < |NPM_FILES| && NPM_FILES[k].0 == file.name
    ensures Classify(file) != Some(ManualExternal)
  {
    assert |NPM_FILES| == 6;
    assert NPM_FILES[0].0 == "pnpm-lock.yaml" && NPM_FILES[1].0 == "yarn.lock" && NPM_FILES[2].0 == ".pnp.cjs";
    assert NPM_FILES[3].0 == "bun.lock" && NPM_FILES[4].0 == "bun.lockb" && NPM_FILES[5].0 == "package-lock.json";
    assert forall k :: 0 <= k < |NPM_FILES| ==> NPM_FILES[k].0[0] != 'C';
  }

  // ---- the stored baseline ----

  type Meta = map<string, string>

  const CARGO_KEY := "external_cargo_lockfile_hash"
  const NPM_HASH_KEY := "external_npm_lockfile_hash"
  const NPM_KIND_KEY := "external_npm_lockfile_kind"
  const LUAROCKS_KEY := "external_luarocks_hash"

  function KindText(k: NpmKind): string {
    match k
    case PackageLockJson => "package-lock.json"
    case PnpmLockYaml => "pnpm-lock.yaml"
    case YarnLock => "yarn.lock"
    case YarnPnpCjs => ".pnp.cjs"
    case Bun => "bun.lock"
  }

  function ParseKind(s: string): Option<NpmKind> {
    match s
    case "package-lock.json" => Some(PackageLockJson)
    case "pnpm-lock.yaml" => Some(PnpmLockYaml)
    case "yarn.lock" => Some(YarnLock)
    case ".pnp.cjs" => Some(YarnPnpCjs)
    case "bun.lock" => Some(Bun)
    case _ => None
  }

  /** A blank value is an absent one. */
  function Stored(meta: Meta, key: string): Option<string> {
    if key in meta && meta[key] != "" then Some(meta[key]) else None
  }

  function ReadStored(meta: Meta): Hashes {
    var hash, kindText := Stored(meta, NPM_HASH_KEY), Stored(meta, NPM_KIND_KEY);
    var kind := if kindText.Some? then ParseKind(kindText.value) else None;
    var npm := if hash.Some? && kind.Some? then Some(NpmLock(kind.value, hash.value)) else None;
    Hashes(Stored(meta, CARGO_KEY), npm, Stored(meta, LUAROCKS_KEY))
  }

  function OrBlank(v: Option<string>): string { if v.Some? then v.value else "" }

  /** `UPDATE … WHERE key = ?`: a missing row stays missing. */
  function UpdateMeta(meta: Meta, key: string, value: string): Meta {
    if key in meta then meta[key := value] else meta
  }

  function WriteStored(meta: Meta, h: Hashes): Meta {
    var npmHash := if h.npm.Some? then h.npm.value.digest else "";
    var npmKind := if h.npm.Some? then KindText(h.npm.value.kind) else "";
    UpdateMeta(UpdateMeta(UpdateMeta(UpdateMeta(meta, CARGO_KEY, OrBlank(h.cargo)), NPM_HASH_KEY, npmHash),
      NPM_KIND_KEY, npmKind), LUAROCKS_KEY, OrBlank(h.luarocks))
  }

  ghost predicate HasRows(meta: Meta) {
    CARGO_KEY in meta && NPM_HASH_KEY in meta && NPM_KIND_KEY in meta && LUAROCKS_KEY in meta
  }

  predicate NoBlanks(h: Hashes) {
    h.cargo != Some("") && h.luarocks != Some("") && (h.npm.Some? ==> h.npm.value.digest != "")
  }

  lemma KeysDiffer()
    ensures CARGO_KEY != NPM_HASH_KEY && CARGO_KEY != NPM_KIND_KEY && CARGO_KEY != LUAROCKS_KEY
    ensures NPM_HASH_KEY != NPM_KIND_KEY && NPM_HASH_KEY != LUAROCKS_KEY && NPM_KIND_KEY != LUAROCKS_KEY
  {
    assert CARGO_KEY[9] == 'c' && NPM_HASH_KEY[9] == 'n' && NPM_KIND_KEY[9] == 'n' && LUAROCKS_KEY[9] == 'l';
    assert NPM_HASH_KEY[22] == 'h' && NPM_KIND_KEY[22] == 'k';
  }

  lemma KindRoundTrip(k: NpmKind)
    ensures ParseKind(KindText(k)) == Some(k) && KindText(k) != ""
  {
  }

  /** Every fingerprint there is has its rows; the statements update rows and never add one. */
  ghost predicate HasRowsFor(meta: Meta, h: Hashes) {
    && (h.cargo.Some? ==> CARGO_KEY in meta) && (h.luarocks.Some? ==> LUAROCKS_KEY in meta)
    && (h.npm.Some? ==> NPM_HASH_KEY in meta && NPM_KIND_KEY in meta)
  }

  /** What is written is what is read back, exactly for fingerprints without blank digests that have their rows. */
  lemma BaselineRoundTripIff(meta: Meta, h: Hashes)
    ensures WriteStored(meta, h).Keys == meta.Keys
    ensures ReadStored(WriteStored(meta, h)) == h <==> NoBlanks(h) && HasRowsFor(meta, h)
  {
    KeysDiffer();
    if h.npm.Some? {
      KindRoundTrip(h.npm.value.kind);
    }
  }

  /** Nothing but the four rows changes. */
  lemma OtherRowsStay(meta: Meta, h: Hashes, key: string)
    requires key in meta && key !in {CARGO_KEY, NPM_HASH_KEY, NPM_KIND_KEY, LUAROCKS_KEY}
    ensures key in WriteStored(meta, h) && WriteStored(meta, h)[key] == meta[key]
  {
  }

  lemma LiveHasNoBlanks(disk: Disk)
    ensures NoBlanks(LiveHashes(disk)) && LiveHashes(disk).luarocks.None?
  {
  }

  // ---- the cached rows ----

  /** An external symbol, and the fingerprint of its origin's lockfile when it was read. */
  datatype Row = Row(origin: Origin, fqdn: string, under: Print)

  function Without(rows: seq<Row>, origin: Origin): seq<Row> {
    if rows == [] then [] else
    var n := |rows| - 1;
    Without(rows[..n], origin) + (if rows[n].origin == origin then [] else [rows[n]])
  }

  lemma {:induction false} WithoutMembers(rows: seq<Row>, origin: Origin, r: Row)
    ensures r in Without(rows, origin) <==> r in rows && r.origin != origin
  {
    if rows != [] {
      var n := |rows| - 1;
      WithoutMembers(rows[..n], origin, r);
      assert rows == rows[..n] + [rows[n]];
    }
  }

  /** How many rows an origin has. */
  function CountOf(rows: seq<Row>, origin: Origin): nat {
    if rows == [] then 0 else
    var n := |rows| - 1;
    CountOf(rows[..n], origin) + (if rows[n].origin == origin then 1 else 0)
  }

  lemma {:induction false} WithoutCounts(rows: seq<Row>, origin: Origin, other: Origin)
    ensures |Without(rows, origin)| + CountOf(rows, origin) == |rows|
    ensures CountOf(Without(rows, origin), other) == if other == origin then 0 else CountOf(rows, other)
  {
    if rows != [] {
      var n := |rows| - 1;
      WithoutCounts(rows[..n], origin, other);
      var rest := Without(rows[..n], origin);
      assert (rest + [rows[n]])[..|rest|] == rest && rest + [] == rest;
    }
  }

  method DeleteRows(rows: seq<Row>, origin: Origin) returns (kept: seq<Row>)
    ensures kept == Without(rows, origin) && |kept| <= |rows|
  {
    kept := [];
    for k := 0 to |rows|
      invariant kept == Without(rows[..k], origin) && |kept| <= k
    {
      assert rows[..k + 1][..k] == rows[..k];
      if rows[k].origin != origin {
        kept := kept + [rows[k]];
      }
    }
    assert rows[..|rows|] == rows;
  }

  /** What the boot sweep keeps: the origins whose fingerprint is the stored one. */
  function Swept(rows: seq<Row>, stored: Hashes, live: Hashes): seq<Row> {
    var a := if stored.cargo != live.cargo then Without(rows, CargoRegistry) else rows;
    var b := if stored.npm != live.npm then Without(a, NodeModulesDts) else a;
    if stored.luarocks != live.luarocks then Without(b, ManualExternal) else b
  }

  lemma SweptMembers(rows: seq<Row>, stored: Hashes, live: Hashes, r: Row)
    ensures r in Swept(rows, stored, live) <==> r in rows && PrintOf(stored, r.origin) == PrintOf(live, r.origin)
  {
    var a := if stored.cargo != live.cargo then Without(rows, CargoRegistry) else rows;
    var b := if stored.npm != live.npm then Without(a, NodeModulesDts) else a;
    WithoutMembers(rows, CargoRegistry, r);
    WithoutMembers(a, NodeModulesDts, r);
    WithoutMembers(b, ManualExternal, r);
  }

  datatype Purged = Purged(origin: Origin, count: nat)

  predicate Reports(purged: seq<Purged>, origin: Origin) {
    exists k :: 0 <= k < |purged| && purged[k].origin == origin
  }

  method Report(purged: seq<Purged>, origin: Origin, count: nat) returns (r: seq<Purged>)
    ensures r == purged + [Purged(origin, count)]
    ensures forall o :: Reports(r, o) <==> Reports(purged, o) || o == origin
  {
    r := purged + [Purged(origin, count)];
    assert r[|purged|].origin == origin;
    forall o | Reports(purged, o) ensures Reports(r, o) {
      var k :| 0 <= k < |purged| && purged[k].origin == o;
      assert r[k].origin == o;
    }
  }

  ghost predicate Counted(purged: seq<Purged>, rows: seq<Row>) {
    forall k :: 0 <= k < |purged| ==> purged[k].count == CountOf(rows, purged[k].origin)
  }

  /** The three comparisons of the cold start tell the fingerprints apart. */
  lemma ChangedIff(stored: Hashes, live: Hashes, o: Origin)
    ensures PrintOf(stored, o) != PrintOf(live, o) <==>
      || (stored.cargo != live.cargo && o == CargoRegistry)
      || (stored.npm != live.npm && o == NodeModulesDts)
      || (stored.luarocks != live.luarocks && o == ManualExternal)
  {
  }

  /** The tables of one index, as the two entry points change them. */
  class ExternalCache {
    var rows: seq<Row>
    var meta: Meta
    var revision: nat

    constructor (table: seq<Row>, schemaMeta: Meta)
      ensures rows == table && meta == schemaMeta && revision == 0
    {
      rows, meta, revision := table, schemaMeta, 0;
    }

    /** The revision moves exactly when a row was deleted. */
    method PurgeExternalsByOrigin(origin: Origin) returns (purged: nat)
      modifies this`rows, this`revision
      ensures rows == Without(old(rows), origin)
      ensures purged == |old(rows)| - |rows| == CountOf(old(rows), origin)
      ensures revision == old(revision) + (if purged > 0 then 1 else 0)
    {
      var kept := DeleteRows(rows, origin);
      WithoutCounts(rows, origin, origin);
      purged := |rows| - |kept|;
      rows := kept;
      if purged > 0 {
        revision := revision + 1;
      }
    }

    method WriteStoredHashes(h: Hashes)
      modifies this`meta
      ensures meta == WriteStored(old(meta), h)
    {
      meta := UpdateMeta(meta, CARGO_KEY, OrBlank(h.cargo));
      var npmHash, npmKind := "", "";
      if h.npm.Some? {
        npmHash, npmKind := h.npm.value.digest, KindText(h.npm.value.kind);
      }
      meta := UpdateMeta(meta, NPM_HASH_KEY, npmHash);
      meta := UpdateMeta(meta, NPM_KIND_KEY, npmKind);
      meta := UpdateMeta(meta, LUAROCKS_KEY, OrBlank(h.luarocks));
    }

    /** One comparison of the cold start; the rows of the other origins are left for theirs. */
    method PurgeIf(changed: bool, origin: Origin, purged: seq<Purged>, ghost start: seq<Row>) returns (r: seq<Purged>)
      requires Counted(purged, start) && CountOf(rows, origin) == CountOf(start, origin)
      modifies this`rows, this`revision
      ensures rows == if changed then Without(old(rows), origin) else old(rows)
      ensures forall o :: Reports(r, o) <==> Reports(purged, o) || (changed && o == origin)
      ensures Counted(r, start)
      ensures forall o :: o != origin ==> CountOf(rows, o) == CountOf(old(rows), o)
    {
      r := purged;
      if changed {
        forall o ensures o != origin ==> CountOf(Without(rows, origin), o) == CountOf(rows, o) {
          WithoutCounts(rows, origin, o);
        }
        var count := PurgeExternalsByOrigin(origin);
        r := Report(purged, origin, count);
      }
    }

    /** The cold-start entry. */
    method InvalidateChangedLockfiles(disk: Disk) returns (purged: seq<Purged>)
      modifies this
      ensures rows == Swept(old(rows), ReadStored(old(meta)), LiveHashes(disk))
      ensures meta == WriteStored(old(meta), LiveHashes(disk))
      ensures forall o :: Reports(purged, o) <==> PrintOf(ReadStored(old(meta)), o) != LivePrint(disk, o)
      ensures Counted(purged, old(rows))
    {
      var stored, live := ReadStored(meta), LiveHashes(disk);
      forall o { ChangedIff(stored, live, o); }
      purged := [];
      ghost var start := rows;
      purged := PurgeIf(stored.cargo != live.cargo, CargoRegistry, purged, start);
      purged := PurgeIf(stored.npm != live.npm, NodeModulesDts, purged, start);
      purged := PurgeIf(stored.luarocks != live.luarocks, ManualExternal, purged, start);
      WriteStoredHashes(live);
    }

    /** The live-watcher entry. */
    method HandleLockfileChange(disk: Disk, file: File) returns (r: Option<Purged>)
      modifies this
      ensures Classify(file).None? ==> r.None? && rows == old(rows) && meta == old(meta) && revision == old(revision)
      ensures Classify(file).Some? ==> rows == Without(old(rows), Classify(file).value)
      ensures Classify(file).Some? ==> meta == WriteStored(old(meta), LiveHashes(disk))
      ensures Classify(file).Some? ==>
        r.Some? && r.value.origin == Classify(file).value && r.value.count == |old(rows)| - |rows|
    {
      var origin := Classify(file);
      if origin.None? {
        return None;
      }
      var count := PurgeExternalsByOrigin(origin.value);
      WriteStoredHashes(LiveHashes(disk));
      r := Some(Purged(origin.value, count));
    }
  }
}
