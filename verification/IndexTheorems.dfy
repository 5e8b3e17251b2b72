/**
 What the two commands mean: an upsert replaces the entries of its file, takes over the
 names it shares with other files and touches nothing else; a delete removes one file.
 */
module IndexTheorems {
  import opened Prelude
  import opened IndexTables
  import opened SymbolDiff
  import opened IndexReplay

  // ---- the reference: what an upsert or a delete means, by name ----

  function SymbolFor(syms: seq<RawSymbol>, fqdn: string): (r: Option<RawSymbol>)
    ensures r.Some? ==> r.value in syms && r.value.fqdn == fqdn
    ensures r.Some? <==> IsExtracted(syms, fqdn)
  {
    if syms == [] then None
    else
      var last := syms[|syms| - 1];
      if last.fqdn == fqdn then Some(last) else SymbolFor(syms[..|syms| - 1], fqdn)
  }

  /** The entry a symbol gets when the index is built from this extraction alone. */
  function Fresh(x: ExtractedFile, sym: RawSymbol): Entry {
    Entry(x.file, sym.bodyHash, sym.location, sym.columns, EdgesOf(x.edges, sym.fqdn),
      DocumentFor(x.documents, sym.fqdn))
  }

  /**
   An entry of this file whose hash survived is only moved. An entry of another file is
   taken over with its old edges. Any other one is taken from the extraction.
   */
  function Refreshed(v: map<string, Entry>, x: ExtractedFile, sym: RawSymbol): Entry {
    if sym.fqdn !in v then Fresh(x, sym)
    else if v[sym.fqdn].file != x.file then TakenOver(v[sym.fqdn], x, sym)
    else if v[sym.fqdn].bodyHash == sym.bodyHash then v[sym.fqdn].(location := sym.location)
    else Fresh(x, sym)
  }

  function TakenOver(was: Entry, x: ExtractedFile, sym: RawSymbol): Entry {
    Fresh(x, sym).(out := was.out + EdgesOf(x.edges, sym.fqdn))
  }

  ghost function ReplaceFile(v: map<string, Entry>, x: ExtractedFile): map<string, Entry> {
    map f | f in v.Keys + FqdnsIn(x.symbols) && (IsExtracted(x.symbols, f) || (f in v && v[f].file != x.file)) ::
      if IsExtracted(x.symbols, f) then Refreshed(v, x, SymbolFor(x.symbols, f).value) else v[f]
  }

  ghost function RemoveFile(v: map<string, Entry>, file: string): map<string, Entry> {
    map f | f in v && v[f].file != file :: v[f]
  }

  // ---- the two commands ----

  ghost predicate UpsertStep(t: Tables, x: ExtractedFile, u: Tables) {
    exists rows :: ListsFile(t, x.file, rows) && u == ReplayPlan(t, x, Diff(rows, x.symbols))
  }

  ghost predicate DeleteStep(t: Tables, file: string, u: Tables) {
    exists ids ::
      && (forall id :: id in ids <==> id in t.symbols && t.symbols[id].file == file)
      && u == DeleteAll(t, ids)
  }

  // ---- exact effect of the passes ----

  lemma UniqueSymbol(syms: seq<RawSymbol>, sym: RawSymbol)
    requires Distinct(syms) && sym in syms
    ensures SymbolFor(syms, sym.fqdn) == Some(sym)
  {
    var k :| 0 <= k < |syms| && syms[k] == sym;
    assert IsExtracted(syms, sym.fqdn);
    var other := SymbolFor(syms, sym.fqdn).value;
    var j :| 0 <= j < |syms| && syms[j] == other;
  }

  lemma RowFor(t: Tables, file: string, rows: seq<DbSymbolRow>, id: int)
    requires Integrity(t) && ListsFile(t, file, rows) && id in t.symbols && t.symbols[id].file == file
    ensures LastRow(rows, t.symbols[id].fqdn) == Some(DbSymbolRow(id, t.symbols[id].fqdn, t.symbols[id].bodyHash))
  {
    var k :| 0 <= k < |rows| && rows[k].id == id;
    assert rows[k].fqdn == t.symbols[id].fqdn;
    var row := LastRow(rows, t.symbols[id].fqdn).value;
    var j :| 0 <= j < |rows| && rows[j] == row;
  }

  lemma NoRowFor(t: Tables, file: string, rows: seq<DbSymbolRow>, fqdn: string)
    requires Integrity(t) && ListsFile(t, file, rows)
    requires forall id :: id in t.symbols && t.symbols[id].fqdn == fqdn ==> t.symbols[id].file != file
    ensures LastRow(rows, fqdn).None?
  {
    forall k | 0 <= k < |rows| ensures rows[k].fqdn != fqdn {
      var id := rows[k].id;
      assert id in t.symbols && t.symbols[id].fqdn == rows[k].fqdn;
    }
  }

  /** Which symbol an id of the old tables is about to become. */
  ghost predicate Drops(t: Tables, x: ExtractedFile, id: int) {
    id in t.symbols && t.symbols[id].file == x.file && !IsExtracted(x.symbols, t.symbols[id].fqdn)
  }

  ghost predicate Moves(t: Tables, x: ExtractedFile, id: int) {
    && id in t.symbols && t.symbols[id].file == x.file && IsExtracted(x.symbols, t.symbols[id].fqdn)
    && SymbolFor(x.symbols, t.symbols[id].fqdn).value.bodyHash == t.symbols[id].bodyHash
  }

  lemma DeletionsAreDrops(t: Tables, x: ExtractedFile, rows: seq<DbSymbolRow>, id: int)
    requires Integrity(t) && ListsFile(t, x.file, rows)
    ensures id in Diff(rows, x.symbols).deletions <==> Drops(t, x, id)
  {
    DiffIsDiff(rows, x.symbols);
    if id in Diff(rows, x.symbols).deletions {
      var row :| row in rows && row.id == id && !IsExtracted(x.symbols, row.fqdn);
      var k :| 0 <= k < |rows| && rows[k] == row;
    }
    if Drops(t, x, id) {
      var k :| 0 <= k < |rows| && rows[k].id == id;
      var row := rows[k];
      assert row in rows && row.id == id && !IsExtracted(x.symbols, row.fqdn);
    }
  }

  /** A planned change names its own row. */
  lemma ChangeHasRow(t: Tables, x: ExtractedFile, rows: seq<DbSymbolRow>, change: (int, RawSymbol))
    requires Integrity(t) && ListsFile(t, x.file, rows) && Distinct(x.symbols)
    requires change.1 in x.symbols && LastRow(rows, change.1.fqdn).Some?
    requires LastRow(rows, change.1.fqdn).value.id == change.0
    ensures change.0 in t.symbols && t.symbols[change.0].fqdn == change.1.fqdn && t.symbols[change.0].file == x.file
    ensures LastRow(rows, change.1.fqdn).value.bodyHash == t.symbols[change.0].bodyHash
    ensures SymbolFor(x.symbols, t.symbols[change.0].fqdn) == Some(change.1)
  {
    var row := LastRow(rows, change.1.fqdn).value;
    var k :| 0 <= k < |rows| && rows[k] == row;
    UniqueSymbol(x.symbols, change.1);
  }

  /** After deletions and moves: who is left, and that nobody changed name. */
  lemma TidyIds(t: Tables, x: ExtractedFile, rows: seq<DbSymbolRow>)
    requires Sound(t, {}) && ListsFile(t, x.file, rows)
    ensures var u := Tidy(t, Diff(rows, x.symbols));
      && Sound(u, {}) && u.nextId == t.nextId
      && (forall id :: id in u.symbols <==> id in t.symbols && !Drops(t, x, id))
      && (forall id :: id in u.symbols ==> u.symbols[id].fqdn == t.symbols[id].fqdn)
  {
    var plan := Diff(rows, x.symbols);
    DeleteAllEffect(t, plan.deletions);
    forall id { DeletionsAreDrops(t, x, rows, id); }
    MoveAllEffect(DeleteAll(t, plan.deletions), plan.positionUpdates);
  }

  lemma TidyMoved(t: Tables, x: ExtractedFile, rows: seq<DbSymbolRow>, id: int)
    requires Sound(t, {}) && ListsFile(t, x.file, rows) && Distinct(x.symbols)
    requires Moves(t, x, id)
    ensures var u := Tidy(t, Diff(rows, x.symbols));
      && Integrity(u) && id in u.symbols
      && EntryOf(u, id) == EntryOf(t, id).(location := SymbolFor(x.symbols, t.symbols[id].fqdn).value.location)
  {
    var plan := Diff(rows, x.symbols);
    var moves := plan.positionUpdates;
    var w := DeleteAll(t, plan.deletions);
    DeleteAllEffect(t, plan.deletions);
    DeletionsAreDrops(t, x, rows, id);
    MoveAllEffect(w, moves);
    MovesHaveDistinctIds(t, x, rows);
    var sym := SymbolFor(x.symbols, t.symbols[id].fqdn).value;
    RowFor(t, x.file, rows, id);
    KnownMembers(rows, x.symbols, true);
    assert (id, sym) in moves;
    var k :| 0 <= k < |moves| && moves[k] == (id, sym);
    assert EntryOf(MoveAll(w, moves), moves[k].0) == EntryOf(w, moves[k].0).(location := moves[k].1.location);
  }

  lemma MovesHaveDistinctIds(t: Tables, x: ExtractedFile, rows: seq<DbSymbolRow>)
    requires Integrity(t) && ListsFile(t, x.file, rows) && Distinct(x.symbols)
    ensures var moves := Diff(rows, x.symbols).positionUpdates;
      && (forall i, j :: 0 <= i < j < |moves| ==> moves[i].0 != moves[j].0)
      && (forall k :: 0 <= k < |moves| ==> Moves(t, x, moves[k].0))
  {
    var moves := Diff(rows, x.symbols).positionUpdates;
    KnownMembers(rows, x.symbols, true);
    DiffHasNoRepeats(rows, x.symbols);
    forall k | 0 <= k < |moves|
      ensures moves[k].0 in t.symbols && t.symbols[moves[k].0].fqdn == moves[k].1.fqdn && Moves(t, x, moves[k].0)
    {
      assert moves[k] in moves;
      ChangeHasRow(t, x, rows, moves[k]);
    }
  }

  lemma TidyUnmoved(t: Tables, x: ExtractedFile, rows: seq<DbSymbolRow>, id: int)
    requires Sound(t, {}) && ListsFile(t, x.file, rows) && Distinct(x.symbols)
    requires id in t.symbols && !Drops(t, x, id) && !Moves(t, x, id)
    ensures var u := Tidy(t, Diff(rows, x.symbols)); Integrity(u) && id in u.symbols && EntryOf(u, id) == EntryOf(t, id)
  {
    var plan := Diff(rows, x.symbols);
    DeleteAllEffect(t, plan.deletions);
    DeletionsAreDrops(t, x, rows, id);
    MoveAllEffect(DeleteAll(t, plan.deletions), plan.positionUpdates);
    MovesHaveDistinctIds(t, x, rows);
  }

  /** The changes of a plan name distinct symbols that are there, each by its own id. */
  ghost predicate NamesOwnRows(t: Tables, changes: seq<(int, RawSymbol)>) {
    && (forall k :: 0 <= k < |changes| ==>
      changes[k].0 in t.symbols && t.symbols[changes[k].0].fqdn == changes[k].1.fqdn)
    && (forall i, j :: 0 <= i < j < |changes| ==> changes[i].1.fqdn != changes[j].1.fqdn)
  }

  lemma {:induction false} ModifyAllIds(t: Tables, file: string, changes: seq<(int, RawSymbol)>)
    requires Sound(t, {}) && NamesOwnRows(t, changes)
    ensures var u := ModifyAll(t, file, changes);
      && u.symbols.Keys == t.symbols.Keys
      && (forall id :: id in t.symbols ==> u.symbols[id].fqdn == t.symbols[id].fqdn)
  {
    if changes != [] {
      var rest, last := changes[..|changes| - 1], changes[|changes| - 1];
      ModifyAllIds(t, file, rest);
      ModifyAllSound(t, file, rest);
      FindsId(ModifyAll(t, file, rest), last.0);
    }
  }

  lemma {:induction false} ModifyAllOthers(t: Tables, file: string, changes: seq<(int, RawSymbol)>, id: int)
    requires Sound(t, {}) && NamesOwnRows(t, changes)
    requires id in t.symbols && t.symbols[id].fqdn !in ChangedFqdns(changes)
    ensures var u := ModifyAll(t, file, changes); Integrity(u) && id in u.symbols && EntryOf(u, id) == EntryOf(t, id)
  {
    if changes != [] {
      var rest, last := changes[..|changes| - 1], changes[|changes| - 1];
      ChangedFqdnsSnoc(changes);
      ModifyAllOthers(t, file, rest, id);
      ModifyAllIds(t, file, rest);
      ModifyAllSound(t, file, rest);
      var w := ModifyAll(t, file, rest);
      FindsId(w, last.0);
      ModifyKeeps(w, file, last.1, ChangedFqdns(rest));
    }
  }

  /** The last modification writes its own entry and leaves the others. */
  lemma ModifyLast(t: Tables, file: string, changes: seq<(int, RawSymbol)>, id: int)
    requires Sound(t, {}) && NamesOwnRows(t, changes) && changes != [] && id in t.symbols
    ensures var rest, last := changes[..|changes| - 1], changes[|changes| - 1];
      var w, u := ModifyAll(t, file, rest), ModifyAll(t, file, changes);
      && Integrity(w) && Integrity(u) && id in w.symbols && id in u.symbols
      && (id != last.0 ==> EntryOf(u, id) == EntryOf(w, id))
      && (id == last.0 ==>
            EntryOf(u, id) == Entry(file, last.1.bodyHash, last.1.location, last.1.columns, [], DocumentOf(w, id)))
  {
    var rest, last := changes[..|changes| - 1], changes[|changes| - 1];
    ModifyAllIds(t, file, rest);
    ModifyAllSound(t, file, rest);
    var w := ModifyAll(t, file, rest);
    FindsId(w, last.0);
    ModifyKeeps(w, file, last.1, ChangedFqdns(rest));
  }

  lemma {:induction false} ModifyAllEntry(t: Tables, file: string, changes: seq<(int, RawSymbol)>, k: nat)
    requires Sound(t, {}) && NamesOwnRows(t, changes) && k < |changes|
    ensures var u, sym := ModifyAll(t, file, changes), changes[k].1;
      && Integrity(u) && changes[k].0 in u.symbols
      && EntryOf(u, changes[k].0) == Entry(file, sym.bodyHash, sym.location, sym.columns, [],
        DocumentOf(t, changes[k].0))
  {
    var rest, last := changes[..|changes| - 1], changes[|changes| - 1];
    ModifyLast(t, file, changes, changes[k].0);
    if k < |rest| {
      ModifyAllEntry(t, file, rest, k);
      assert rest[k] == changes[k] && changes[k].0 != last.0;
    } else {
      assert last.1.fqdn !in ChangedFqdns(rest);
      ModifyAllOthers(t, file, rest, last.0);
    }
  }

  /** Inserts pass by a symbol they do not name. */
  lemma {:induction false} InsertAllOthers(t: Tables, file: string, syms: seq<RawSymbol>, pending: set<string>, id: int)
    requires Sound(t, pending) && id in t.symbols && t.symbols[id].fqdn !in FqdnsIn(syms)
    ensures var u := InsertAll(t, file, syms);
      Integrity(u) && id in u.symbols && u.symbols[id].fqdn == t.symbols[id].fqdn && EntryOf(u, id) == EntryOf(t, id)
  {
    if syms != [] {
      var rest, last := syms[..|syms| - 1], syms[|syms| - 1];
      FqdnsInSnoc(syms);
      InsertAllOthers(t, file, rest, pending, id);
      InsertAllSound(t, file, rest, pending);
      UpsertSymbolKeeps(InsertAll(t, file, rest), file, last, pending + FqdnsIn(rest));
    }
  }

  /** No other ids than the old ones and those of inserted names. */
  lemma {:induction false} InsertAllOnly(t: Tables, file: string, syms: seq<RawSymbol>, pending: set<string>, id: int)
    requires Sound(t, pending) && id in InsertAll(t, file, syms).symbols && id !in t.symbols
    ensures InsertAll(t, file, syms).symbols[id].fqdn in FqdnsIn(syms)
  {
    var rest, last := syms[..|syms| - 1], syms[|syms| - 1];
    FqdnsInSnoc(syms);
    InsertAllSound(t, file, rest, pending);
    UpsertSymbolKeeps(InsertAll(t, file, rest), file, last, pending + FqdnsIn(rest));
    if id in InsertAll(t, file, rest).symbols {
      InsertAllOnly(t, file, rest, pending, id);
    }
  }

  /** What an insert writes: the row's columns, with the edges and the document the name already had. */
  ghost predicate Inserted(t: Tables, u: Tables, file: string, sym: RawSymbol, id: int)
    requires Integrity(t) && Integrity(u)
  {
    && id in u.symbols && u.symbols[id].fqdn == sym.fqdn
    && (HasFqdn(t, sym.fqdn) <==> id in t.symbols) && (id in t.symbols ==> t.symbols[id].fqdn == sym.fqdn)
    && EntryOf(u, id) == Entry(file, sym.bodyHash, sym.location, sym.columns, OutEdges(t, id), DocumentOf(t, id))
  }

  lemma {:induction false} InsertAllEntry(
    t: Tables, file: string, syms: seq<RawSymbol>, pending: set<string>, k: nat) returns (id: int)
    requires Sound(t, pending) && Distinct(syms) && k < |syms|
    ensures Integrity(InsertAll(t, file, syms)) && Inserted(t, InsertAll(t, file, syms), file, syms[k], id)
  {
    var rest, last := syms[..|syms| - 1], syms[|syms| - 1];
    InsertAllSound(t, file, rest, pending);
    var w := InsertAll(t, file, rest);
    UpsertSymbolKeeps(w, file, last, pending + FqdnsIn(rest));
    if k < |rest| {
      id := InsertAllEntry(t, file, rest, pending, k);
    } else {
      id := UpsertedId(w, last.fqdn);
      LastEntry(t, file, syms, pending);
    }
  }

  lemma LastEntry(t: Tables, file: string, syms: seq<RawSymbol>, pending: set<string>)
    requires Sound(t, pending) && Distinct(syms) && syms != []
    ensures var w, last := InsertAll(t, file, syms[..|syms| - 1]), syms[|syms| - 1];
      Integrity(UpsertSymbol(w, file, last)) &&
      Inserted(t, UpsertSymbol(w, file, last), file, last, UpsertedId(w, last.fqdn))
  {
    var rest, last := syms[..|syms| - 1], syms[|syms| - 1];
    InsertAllSound(t, file, rest, pending);
    var w := InsertAll(t, file, rest);
    UpsertSymbolKeeps(w, file, last, pending + FqdnsIn(rest));
    var id := UpsertedId(w, last.fqdn);
    assert last.fqdn !in FqdnsIn(rest);
    InsertAllNames(t, file, rest, pending);
    if o :| o in t.symbols && t.symbols[o].fqdn == last.fqdn {
      InsertAllOthers(t, file, rest, pending, o);
      FindsId(w, o);
    } else if id in w.symbols {
      InsertAllOnly(t, file, rest, pending, id);
    }
  }

  // ---- the whole replay, id by id ----

  /** What the last three passes add to one symbol. */
  lemma AttachEntry(t: Tables, x: ExtractedFile, touched: set<string>, ids: seq<int>, id: int)
    requires Sound(t, touched) && FqdnsOf(t, ids) == touched && id in t.symbols
    ensures var u, f := Attach(t, x, touched, ids), t.symbols[id].fqdn;
      && Integrity(u) && u.symbols == t.symbols
      && (f !in touched ==> EntryOf(u, id) == EntryOf(t, id))
      && (f in touched ==> EntryOf(u, id) == EntryOf(t, id).(out := OutEdges(t, id) + EdgesOf(x.edges, f),
                                                             document := DocumentFor(x.documents, f)))
  {
    var f := t.symbols[id].fqdn;
    AddEdgesEffect(t, touched, x.edges, touched);
    var u := AddEdges(t, touched, x.edges);
    PromoteUnresolvedKeeps(u, ids, touched);
    var w := PromoteUnresolved(u, ids);
    DropDocumentsEffect(w, ids);
    AddDocumentsEffect(DropDocuments(w, ids), touched, x.documents);
    assert id in ids <==> f in touched by {
      if f in touched {
        var k :| 0 <= k < |ids| && ids[k] in t.symbols && t.symbols[ids[k]].fqdn == f;
        assert ids[k] == id;
      }
    }
  }

  /** The modifications of a plan, seen from the tidied tables. */
  lemma PlanFits(t: Tables, x: ExtractedFile, rows: seq<DbSymbolRow>)
    requires Sound(t, {}) && ListsFile(t, x.file, rows) && Distinct(x.symbols)
    ensures var plan := Diff(rows, x.symbols);
      NamesOwnRows(Tidy(t, plan), plan.modifications) && Distinct(plan.inserts)
  {
    var plan := Diff(rows, x.symbols);
    var w := Tidy(t, plan);
    TidyIds(t, x, rows);
    KnownMembers(rows, x.symbols, false);
    DiffHasNoRepeats(rows, x.symbols);
    forall k | 0 <= k < |plan.modifications|
      ensures plan.modifications[k].0 in w.symbols
      ensures w.symbols[plan.modifications[k].0].fqdn == plan.modifications[k].1.fqdn
    {
      assert plan.modifications[k] in plan.modifications;
      ChangeHasRow(t, x, rows, plan.modifications[k]);
    }
  }

  /** A name this file does not store is inserted, and not modified. */
  lemma InsertFor(t: Tables, x: ExtractedFile, rows: seq<DbSymbolRow>, sym: RawSymbol) returns (k: nat)
    requires Integrity(t) && ListsFile(t, x.file, rows) && sym in x.symbols
    requires forall id :: id in t.symbols && t.symbols[id].fqdn == sym.fqdn ==> t.symbols[id].file != x.file
    ensures var plan := Diff(rows, x.symbols);
      && k < |plan.inserts| && plan.inserts[k] == sym && sym.fqdn in TouchedFqdns(plan)
      && sym.fqdn in FqdnsIn(plan.inserts) && sym.fqdn !in ChangedFqdns(plan.modifications)
  {
    var plan := Diff(rows, x.symbols);
    NoRowFor(t, x.file, rows, sym.fqdn);
    InsertsMembers(rows, x.symbols);
    KnownMembers(rows, x.symbols, false);
    k :| 0 <= k < |plan.inserts| && plan.inserts[k] == sym;
    forall j | 0 <= j < |plan.modifications| ensures plan.modifications[j].1.fqdn != sym.fqdn {
      assert plan.modifications[j] in plan.modifications;
    }
  }

  /** A name this file stores is not inserted, and neither is one that was not extracted. */
  lemma NoInsertFor(t: Tables, x: ExtractedFile, rows: seq<DbSymbolRow>, id: int)
    requires Integrity(t) && ListsFile(t, x.file, rows) && id in t.symbols
    requires t.symbols[id].file == x.file || !IsExtracted(x.symbols, t.symbols[id].fqdn)
    ensures t.symbols[id].fqdn !in FqdnsIn(Diff(rows, x.symbols).inserts)
  {
    var inserts := Diff(rows, x.symbols).inserts;
    InsertsMembers(rows, x.symbols);
    forall k | 0 <= k < |inserts| ensures inserts[k].fqdn != t.symbols[id].fqdn {
      assert inserts[k] in inserts;
      if t.symbols[id].file == x.file {
        RowFor(t, x.file, rows, id);
      }
    }
  }

  lemma NotTouched(x: ExtractedFile, rows: seq<DbSymbolRow>, sym: RawSymbol)
    requires Distinct(x.symbols) && sym in x.symbols && LastRow(rows, sym.fqdn).Some?
    requires LastRow(rows, sym.fqdn).value.bodyHash == sym.bodyHash
    ensures sym.fqdn !in TouchedFqdns(Diff(rows, x.symbols))
  {
    var plan := Diff(rows, x.symbols);
    KnownMembers(rows, x.symbols, false);
    InsertsMembers(rows, x.symbols);
    UniqueSymbol(x.symbols, sym);
    forall k | 0 <= k < |plan.modifications| ensures plan.modifications[k].1.fqdn != sym.fqdn {
      assert plan.modifications[k] in plan.modifications;
      UniqueSymbol(x.symbols, plan.modifications[k].1);
    }
    forall k | 0 <= k < |plan.inserts| ensures plan.inserts[k].fqdn != sym.fqdn {
      assert plan.inserts[k] in plan.inserts;
    }
  }

  lemma UnextractedNotTouched(x: ExtractedFile, rows: seq<DbSymbolRow>, fqdn: string)
    requires !IsExtracted(x.symbols, fqdn)
    ensures fqdn !in TouchedFqdns(Diff(rows, x.symbols))
  {
    var plan := Diff(rows, x.symbols);
    KnownMembers(rows, x.symbols, false);
    InsertsMembers(rows, x.symbols);
    forall k | 0 <= k < |plan.modifications| ensures plan.modifications[k].1.fqdn != fqdn {
      assert plan.modifications[k] in plan.modifications;
    }
    forall k | 0 <= k < |plan.inserts| ensures plan.inserts[k].fqdn != fqdn {
      assert plan.inserts[k] in plan.inserts;
    }
  }

  /** The three stages between the old tables and the new ones. */
  lemma Stages(t: Tables, x: ExtractedFile, rows: seq<DbSymbolRow>)
    requires Sound(t, {}) && ListsFile(t, x.file, rows) && Distinct(x.symbols)
    ensures var plan := Diff(rows, x.symbols);
      var w := Tidy(t, plan);
      var m := ModifyAll(w, x.file, plan.modifications);
      && Sound(w, {}) && NamesOwnRows(w, plan.modifications) && Distinct(plan.inserts)
      && Sound(m, ChangedFqdns(plan.modifications)) && m.symbols.Keys == w.symbols.Keys
      && (forall id :: id in w.symbols ==> id in t.symbols && w.symbols[id].fqdn == t.symbols[id].fqdn)
      && (forall id :: id in w.symbols ==> m.symbols[id].fqdn == w.symbols[id].fqdn)
      && Sound(WriteSymbols(w, x.file, plan), TouchedFqdns(plan))
      && FqdnsOf(WriteSymbols(w, x.file, plan), WrittenIds(w, x.file, plan)) == TouchedFqdns(plan)
  {
    var plan := Diff(rows, x.symbols);
    var w := Tidy(t, plan);
    TidyIds(t, x, rows);
    PlanFits(t, x, rows);
    ModifyAllIds(w, x.file, plan.modifications);
    ModifyAllSound(w, x.file, plan.modifications);
    WriteSymbolsSound(w, x.file, plan);
  }

  /** Attaching edges and documents to an id that the plan touches, or not. */
  lemma AttachAfter(t: Tables, x: ExtractedFile, rows: seq<DbSymbolRow>, id: int)
    requires Sound(t, {}) && ListsFile(t, x.file, rows) && Distinct(x.symbols)
    requires var plan := Diff(rows, x.symbols); id in WriteSymbols(Tidy(t, plan), x.file, plan).symbols
    ensures var plan := Diff(rows, x.symbols);
      var n := WriteSymbols(Tidy(t, plan), x.file, plan);
      var u, f := ReplayPlan(t, x, plan), n.symbols[id].fqdn;
      && Integrity(n) && Integrity(u) && u.symbols == n.symbols
      && (f !in TouchedFqdns(plan) ==> EntryOf(u, id) == EntryOf(n, id))
      && (f in TouchedFqdns(plan) ==> EntryOf(u, id) == EntryOf(n, id).(
            out := OutEdges(n, id) + EdgesOf(x.edges, f), document := DocumentFor(x.documents, f)))
  {
    var plan := Diff(rows, x.symbols);
    var w := Tidy(t, plan);
    Stages(t, x, rows);
    AttachEntry(WriteSymbols(w, x.file, plan), x, TouchedFqdns(plan), WrittenIds(w, x.file, plan), id);
  }

  lemma ModificationFor(t: Tables, x: ExtractedFile, rows: seq<DbSymbolRow>, id: int) returns (k: nat)
    requires Integrity(t) && ListsFile(t, x.file, rows) && id in t.symbols && t.symbols[id].file == x.file
    requires IsExtracted(x.symbols, t.symbols[id].fqdn) && !Moves(t, x, id)
    ensures var plan, sym := Diff(rows, x.symbols), SymbolFor(x.symbols, t.symbols[id].fqdn).value;
      k < |plan.modifications| && plan.modifications[k] == (id, sym) && sym.fqdn in TouchedFqdns(plan)
  {
    var changes, sym := Diff(rows, x.symbols).modifications, SymbolFor(x.symbols, t.symbols[id].fqdn).value;
    RowFor(t, x.file, rows, id);
    KnownMembers(rows, x.symbols, false);
    assert (id, sym) in changes;
    k :| 0 <= k < |changes| && changes[k] == (id, sym);
  }

  // Each kind of old symbol before edges and documents are attached.

  /** Not extracted, or extracted with its hash: only the tidying passes see it. */
  lemma OldPassedBy(t: Tables, x: ExtractedFile, rows: seq<DbSymbolRow>, id: int)
    requires Sound(t, {}) && ListsFile(t, x.file, rows) && Distinct(x.symbols)
    requires id in t.symbols && !Drops(t, x, id) && (!IsExtracted(x.symbols, t.symbols[id].fqdn) || Moves(t, x, id))
    ensures var plan, f := Diff(rows, x.symbols), t.symbols[id].fqdn;
      var w := Tidy(t, plan);
      var n := WriteSymbols(w, x.file, plan);
      && f !in TouchedFqdns(plan) && Integrity(w) && Integrity(n)
      && id in w.symbols && id in n.symbols && n.symbols[id].fqdn == f && EntryOf(n, id) == EntryOf(w, id)
  {
    var plan, f := Diff(rows, x.symbols), t.symbols[id].fqdn;
    var w := Tidy(t, plan);
    Stages(t, x, rows);
    TidyIds(t, x, rows);
    if Moves(t, x, id) {
      RowFor(t, x.file, rows, id);
      NotTouched(x, rows, SymbolFor(x.symbols, f).value);
    } else {
      UnextractedNotTouched(x, rows, f);
    }
    ModifyAllOthers(w, x.file, plan.modifications, id);
    InsertAllOthers(ModifyAll(w, x.file, plan.modifications), x.file, plan.inserts,
      ChangedFqdns(plan.modifications), id);
  }

  /** A symbol of this file whose body changed is written anew, without edges. */
  lemma OldModified(t: Tables, x: ExtractedFile, rows: seq<DbSymbolRow>, id: int)
    requires Sound(t, {}) && ListsFile(t, x.file, rows) && Distinct(x.symbols)
    requires id in t.symbols && t.symbols[id].file == x.file && IsExtracted(x.symbols, t.symbols[id].fqdn)
    requires !Moves(t, x, id)
    ensures var plan, sym := Diff(rows, x.symbols), SymbolFor(x.symbols, t.symbols[id].fqdn).value;
      var n := WriteSymbols(Tidy(t, plan), x.file, plan);
      && sym.fqdn in TouchedFqdns(plan) && Integrity(n) && id in n.symbols && n.symbols[id].fqdn == sym.fqdn
      && EntryOf(n, id) == Entry(x.file, sym.bodyHash, sym.location, sym.columns, [], DocumentOf(Tidy(t, plan), id))
  {
    var plan, sym := Diff(rows, x.symbols), SymbolFor(x.symbols, t.symbols[id].fqdn).value;
    Stages(t, x, rows);
    TidyIds(t, x, rows);
    var k := ModificationFor(t, x, rows, id);
    ModifyAllEntry(Tidy(t, plan), x.file, plan.modifications, k);
    NoInsertFor(t, x, rows, id);
    InsertAllOthers(ModifyAll(Tidy(t, plan), x.file, plan.modifications), x.file, plan.inserts,
      ChangedFqdns(plan.modifications), id);
  }

  /** A symbol of another file is written over, and keeps its edges. */
  lemma OldTakenOver(t: Tables, x: ExtractedFile, rows: seq<DbSymbolRow>, id: int)
    requires Sound(t, {}) && ListsFile(t, x.file, rows) && Distinct(x.symbols)
    requires id in t.symbols && t.symbols[id].file != x.file && IsExtracted(x.symbols, t.symbols[id].fqdn)
    ensures var plan, sym := Diff(rows, x.symbols), SymbolFor(x.symbols, t.symbols[id].fqdn).value;
      var n := WriteSymbols(Tidy(t, plan), x.file, plan);
      && sym.fqdn in TouchedFqdns(plan) && Integrity(n) && id in n.symbols && n.symbols[id].fqdn == sym.fqdn
      && EntryOf(n, id) == Entry(x.file, sym.bodyHash, sym.location, sym.columns, OutEdges(t, id), DocumentOf(t, id))
  {
    var plan, sym := Diff(rows, x.symbols), SymbolFor(x.symbols, t.symbols[id].fqdn).value;
    var w := Tidy(t, plan);
    var m := ModifyAll(w, x.file, plan.modifications);
    Stages(t, x, rows);
    var k := InsertFor(t, x, rows, sym);
    TidyIds(t, x, rows);
    TidyUnmoved(t, x, rows, id);
    ModifyAllOthers(w, x.file, plan.modifications, id);
    var o := InsertAllEntry(m, x.file, plan.inserts, ChangedFqdns(plan.modifications), k);
    assert HasFqdn(m, sym.fqdn) && o == id;
  }

  /** What becomes of a stored symbol that is not dropped. */
  ghost function Survivor(t: Tables, x: ExtractedFile, id: int): Entry
    requires Integrity(t) && id in t.symbols
  {
    var f, was := t.symbols[id].fqdn, EntryOf(t, id);
    if !IsExtracted(x.symbols, f) then was
    else
      var sym := SymbolFor(x.symbols, f).value;
      if was.file != x.file then TakenOver(was, x, sym)
      else if was.bodyHash == sym.bodyHash then was.(location := sym.location)
      else Fresh(x, sym)
  }

  /** An id that is not dropped stays, under its name, and its entry is the reference one. */
  lemma ReplayOld(t: Tables, x: ExtractedFile, rows: seq<DbSymbolRow>, id: int)
    requires Sound(t, {}) && ListsFile(t, x.file, rows) && Distinct(x.symbols)
    requires id in t.symbols && !Drops(t, x, id)
    ensures var u := ReplayPlan(t, x, Diff(rows, x.symbols));
      && Integrity(u) && id in u.symbols && u.symbols[id].fqdn == t.symbols[id].fqdn
      && EntryOf(u, id) == Survivor(t, x, id)
  {
    var f := t.symbols[id].fqdn;
    if IsExtracted(x.symbols, f) && t.symbols[id].file != x.file {
      OldTakenOver(t, x, rows, id);
    } else if !IsExtracted(x.symbols, f) {
      OldPassedBy(t, x, rows, id);
      TidyUnmoved(t, x, rows, id);
    } else if Moves(t, x, id) {
      OldPassedBy(t, x, rows, id);
      TidyMoved(t, x, rows, id);
    } else {
      OldModified(t, x, rows, id);
      assert [] + EdgesOf(x.edges, f) == EdgesOf(x.edges, f);
    }
    AttachAfter(t, x, rows, id);
  }

  lemma ReplayNew(t: Tables, x: ExtractedFile, rows: seq<DbSymbolRow>, sym: RawSymbol) returns (id: int)
    requires Sound(t, {}) && ListsFile(t, x.file, rows) && Distinct(x.symbols)
    requires sym in x.symbols && !HasFqdn(t, sym.fqdn)
    ensures var u := ReplayPlan(t, x, Diff(rows, x.symbols));
      && Integrity(u) && id in u.symbols && u.symbols[id].fqdn == sym.fqdn && EntryOf(u, id) == Fresh(x, sym)
  {
    var plan := Diff(rows, x.symbols);
    var m := ModifyAll(Tidy(t, plan), x.file, plan.modifications);
    Stages(t, x, rows);
    TidyIds(t, x, rows);
    var k := InsertFor(t, x, rows, sym);
    assert !HasFqdn(m, sym.fqdn);
    id := InsertAllEntry(m, x.file, plan.inserts, ChangedFqdns(plan.modifications), k);
    NothingYet(m, id);
    AttachAfter(t, x, rows, id);
    assert [] + EdgesOf(x.edges, sym.fqdn) == EdgesOf(x.edges, sym.fqdn);
  }

  /** An id that is not stored has no edges and no document. */
  lemma NothingYet(t: Tables, id: int)
    requires Integrity(t) && id !in t.symbols
    ensures OutEdges(t, id) == [] && DocumentOf(t, id) == None
  {
  }

  /** Nothing else is in the new tables. */
  lemma ReplayOnly(t: Tables, x: ExtractedFile, rows: seq<DbSymbolRow>, id: int)
    requires Sound(t, {}) && ListsFile(t, x.file, rows) && Distinct(x.symbols)
    requires id in ReplayPlan(t, x, Diff(rows, x.symbols)).symbols
    ensures (id in t.symbols && !Drops(t, x, id))
         || IsExtracted(x.symbols, ReplayPlan(t, x, Diff(rows, x.symbols)).symbols[id].fqdn)
  {
    var plan := Diff(rows, x.symbols);
    var w := Tidy(t, plan);
    var m := ModifyAll(w, x.file, plan.modifications);
    var n := WriteSymbols(w, x.file, plan);
    Stages(t, x, rows);
    TidyIds(t, x, rows);
    AttachKeepsSymbols(n, x, TouchedFqdns(plan), WrittenIds(w, x.file, plan));
    if id !in m.symbols {
      InsertAllOnly(m, x.file, plan.inserts, ChangedFqdns(plan.modifications), id);
      var k :| 0 <= k < |plan.inserts| && plan.inserts[k].fqdn == n.symbols[id].fqdn;
      InsertsMembers(rows, x.symbols);
      assert plan.inserts[k] in plan.inserts;
      ExtractedMember(x.symbols, plan.inserts[k]);
    }
  }

  lemma ExtractedMember(syms: seq<RawSymbol>, sym: RawSymbol)
    requires sym in syms
    ensures IsExtracted(syms, sym.fqdn)
  {
    var k :| 0 <= k < |syms| && syms[k] == sym;
  }

  lemma AttachKeepsSymbols(t: Tables, x: ExtractedFile, touched: set<string>, ids: seq<int>)
    requires Sound(t, touched) && FqdnsOf(t, ids) == touched
    ensures Attach(t, x, touched, ids).symbols == t.symbols
  {
    AddEdgesEffect(t, touched, x.edges, touched);
    var u := AddEdges(t, touched, x.edges);
    PromoteUnresolvedKeeps(u, ids, touched);
    var w := PromoteUnresolved(u, ids);
    DropDocumentsEffect(w, ids);
    AddDocumentsEffect(DropDocuments(w, ids), touched, x.documents);
  }

  // ---- main results ----

  lemma ViewAt(t: Tables, id: int)
    requires Integrity(t) && id in t.symbols
    ensures t.symbols[id].fqdn in View(t) && View(t)[t.symbols[id].fqdn] == EntryOf(t, id)
  {
    FindsId(t, id);
  }

  lemma SameMap<K, V>(a: map<K, V>, b: map<K, V>)
    requires forall k :: k in a ==> k in b && a[k] == b[k]
    requires forall k :: k in b ==> k in a
    ensures a == b
  {
  }

  /**
   One upsert replaces the entries of its file by the reference and touches no
   other entry; it keeps the id of every symbol that survives.
   */
  lemma UpsertReplacesFile(t: Tables, x: ExtractedFile, u: Tables)
    requires Sound(t, {}) && Distinct(x.symbols) && UpsertStep(t, x, u)
    ensures Sound(u, {})
    ensures View(u) == ReplaceFile(View(t), x)
    ensures forall f :: f in View(t) && f in View(u) ==> FindId(u, f) == FindId(t, f)
  {
    var rows :| ListsFile(t, x.file, rows) && u == ReplayPlan(t, x, Diff(rows, x.symbols));
    ReplayPlanSound(t, x, Diff(rows, x.symbols));
    var after, reference := View(u), ReplaceFile(View(t), x);
    forall f | f in after ensures f in reference && after[f] == reference[f] { UpsertedName(t, x, rows, f); }
    forall f | f in reference ensures f in after { RetainedName(t, x, rows, f); }
    SameMap(after, reference);
    forall f | f in View(t) && f in View(u) ensures FindId(u, f) == FindId(t, f) { UpsertedName(t, x, rows, f); }
  }

  /** By name: a survivor's entry is the one the reference has. */
  lemma SurvivorIsReference(t: Tables, x: ExtractedFile, id: int)
    requires Integrity(t) && id in t.symbols && !Drops(t, x, id)
    ensures var f, reference := t.symbols[id].fqdn, ReplaceFile(View(t), x);
      f in View(t) && f in reference && reference[f] == Survivor(t, x, id)
  {
    ViewAt(t, id);
  }

  lemma UpsertedOld(t: Tables, x: ExtractedFile, rows: seq<DbSymbolRow>, id: int)
    requires Sound(t, {}) && ListsFile(t, x.file, rows) && Distinct(x.symbols) && id in t.symbols && !Drops(t, x, id)
    ensures var u, f := ReplayPlan(t, x, Diff(rows, x.symbols)), t.symbols[id].fqdn;
      && Integrity(u) && FindId(u, f) == FindId(t, f) == Some(id)
      && f in View(u) && f in ReplaceFile(View(t), x) && View(u)[f] == ReplaceFile(View(t), x)[f]
  {
    ReplayOld(t, x, rows, id);
    SurvivorIsReference(t, x, id);
    FindsId(t, id);
    ViewAt(ReplayPlan(t, x, Diff(rows, x.symbols)), id);
  }

  lemma UpsertedNew(t: Tables, x: ExtractedFile, rows: seq<DbSymbolRow>, f: string)
    requires Sound(t, {}) && ListsFile(t, x.file, rows) && Distinct(x.symbols)
    requires IsExtracted(x.symbols, f) && !HasFqdn(t, f)
    ensures var u := ReplayPlan(t, x, Diff(rows, x.symbols));
      Integrity(u) && f in View(u) && f in ReplaceFile(View(t), x) && View(u)[f] == ReplaceFile(View(t), x)[f]
  {
    var sym := SymbolFor(x.symbols, f).value;
    var id := ReplayNew(t, x, rows, sym);
    ViewAt(ReplayPlan(t, x, Diff(rows, x.symbols)), id);
    var k :| 0 <= k < |x.symbols| && x.symbols[k].fqdn == f;
    assert f in FqdnsIn(x.symbols);
  }

  lemma UpsertedName(t: Tables, x: ExtractedFile, rows: seq<DbSymbolRow>, f: string)
    requires Sound(t, {}) && ListsFile(t, x.file, rows) && Distinct(x.symbols)
    requires var u := ReplayPlan(t, x, Diff(rows, x.symbols)); Integrity(u) && f in View(u)
    ensures var u := ReplayPlan(t, x, Diff(rows, x.symbols));
      && f in ReplaceFile(View(t), x) && View(u)[f] == ReplaceFile(View(t), x)[f]
      && (f in View(t) ==> FindId(u, f) == FindId(t, f))
  {
    var id := FindId(ReplayPlan(t, x, Diff(rows, x.symbols)), f).value;
    ReplayOnly(t, x, rows, id);
    if id in t.symbols && !Drops(t, x, id) {
      ReplayOld(t, x, rows, id);
      UpsertedOld(t, x, rows, id);
    } else if HasFqdn(t, f) {
      UpsertedOld(t, x, rows, FindId(t, f).value);
    } else {
      UpsertedNew(t, x, rows, f);
    }
  }

  lemma RetainedName(t: Tables, x: ExtractedFile, rows: seq<DbSymbolRow>, f: string)
    requires Sound(t, {}) && ListsFile(t, x.file, rows) && Distinct(x.symbols)
    requires f in ReplaceFile(View(t), x)
    ensures var u := ReplayPlan(t, x, Diff(rows, x.symbols)); Integrity(u) && f in View(u)
  {
    if f in View(t) {
      UpsertedOld(t, x, rows, FindId(t, f).value);
    } else {
      UpsertedNew(t, x, rows, f);
    }
  }

  lemma DeletedName(t: Tables, file: string, ids: seq<int>, f: string)
    requires Sound(t, {}) && (forall id :: id in ids <==> id in t.symbols && t.symbols[id].file == file)
    requires Integrity(DeleteAll(t, ids))
    ensures var u, reference := DeleteAll(t, ids), RemoveFile(View(t), file);
      && (f in View(u) <==> f in reference)
      && (f in View(u) ==> View(u)[f] == reference[f] && FindId(u, f) == FindId(t, f))
  {
    var u := DeleteAll(t, ids);
    DeleteAllEffect(t, ids);
    if f in View(u) {
      var id := FindId(u, f).value;
      ViewAt(t, id);
      FindsId(t, id);
    } else if f in View(t) {
      var id := FindId(t, f).value;
      if id in u.symbols {
        ViewAt(u, id);
      }
    }
  }

  lemma DeleteRemovesFile(t: Tables, file: string, u: Tables)
    requires Sound(t, {}) && DeleteStep(t, file, u)
    ensures Sound(u, {})
    ensures View(u) == RemoveFile(View(t), file)
    ensures forall f :: f in View(u) ==> FindId(u, f) == FindId(t, f)
  {
    var ids :| (forall id :: id in ids <==> id in t.symbols && t.symbols[id].file == file) && u == DeleteAll(t, ids);
    DeleteAllEffect(t, ids);
    var after, reference := View(u), RemoveFile(View(t), file);
    forall f | f in after ensures f in reference && after[f] == reference[f] { DeletedName(t, file, ids, f); }
    forall f | f in reference ensures f in after { DeletedName(t, file, ids, f); }
    SameMap(after, reference);
    forall f | f in View(u) ensures FindId(u, f) == FindId(t, f) { DeletedName(t, file, ids, f); }
  }
}
