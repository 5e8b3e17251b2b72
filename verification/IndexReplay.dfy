/**
 Replaying a diff plan on the tables, as one function per pass of the batch, and
 what each pass does to the entries.
 */
module IndexReplay {
  import opened Prelude
  import opened IndexTables
  import opened SymbolDiff

  // ---- the passes; each one consumes its list front to back ----

  function DeleteAll(t: Tables, ids: seq<int>): Tables {
    if ids == [] then t else
    DeleteSymbol(DeleteAll(t, ids[..|ids| - 1]), ids[|ids| - 1])
  }

  function MoveAll(t: Tables, moves: seq<(int, RawSymbol)>): Tables {
    if moves == [] then t else
    UpdatePositions(MoveAll(t, moves[..|moves| - 1]), moves[|moves| - 1].0, moves[|moves| - 1].1.location)
  }

  /** One modification: upsert the row, then drop the edges of the id that came back. */
  ghost function Modify(t: Tables, file: string, sym: RawSymbol): Tables {
    DeleteEdgesFrom(UpsertSymbol(t, file, sym), UpsertedId(t, sym.fqdn))
  }

  ghost function ModifyAll(t: Tables, file: string, changes: seq<(int, RawSymbol)>): Tables {
    if changes == [] then t else
    Modify(ModifyAll(t, file, changes[..|changes| - 1]), file, changes[|changes| - 1].1)
  }

  ghost function ModifiedIds(t: Tables, file: string, changes: seq<(int, RawSymbol)>): seq<int> {
    if changes == [] then [] else
    var rest := changes[..|changes| - 1];
    ModifiedIds(t, file, rest) + [UpsertedId(ModifyAll(t, file, rest), changes[|changes| - 1].1.fqdn)]
  }

  ghost function InsertAll(t: Tables, file: string, syms: seq<RawSymbol>): Tables {
    if syms == [] then t else
    UpsertSymbol(InsertAll(t, file, syms[..|syms| - 1]), file, syms[|syms| - 1])
  }

  ghost function InsertedIds(t: Tables, file: string, syms: seq<RawSymbol>): seq<int> {
    if syms == [] then [] else
    var rest := syms[..|syms| - 1];
    InsertedIds(t, file, rest) + [UpsertedId(InsertAll(t, file, rest), syms[|syms| - 1].fqdn)]
  }

  ghost function AddEdges(t: Tables, touched: set<string>, edges: seq<RawEdge>): Tables {
    if edges == [] then t else
    var u := AddEdges(t, touched, edges[..|edges| - 1]);
    var edge := edges[|edges| - 1];
    var from := FindId(u, edge.fromFqdn);
    if edge.fromFqdn in touched && from.Some? then InsertEdge(u, from.value, edge) else u
  }

  function DropDocuments(t: Tables, ids: seq<int>): Tables {
    if ids == [] then t else
    DeleteDocument(DropDocuments(t, ids[..|ids| - 1]), ids[|ids| - 1])
  }

  ghost function AddDocuments(t: Tables, touched: set<string>, docs: seq<RawDocument>): Tables {
    if docs == [] then t else
    var u := AddDocuments(t, touched, docs[..|docs| - 1]);
    var doc := docs[|docs| - 1];
    var id := FindId(u, doc.symbolFqdn);
    if doc.symbolFqdn in touched && id.Some? then PutDocument(u, id.value, doc.description) else u
  }

  function TouchedFqdns(plan: DiffPlan): set<string> {
    (set k | 0 <= k < |plan.inserts| :: plan.inserts[k].fqdn)
    + (set k | 0 <= k < |plan.modifications| :: plan.modifications[k].1.fqdn)
  }

  /** Deletions, then moves, then modifications, then inserts. */
  ghost function Tidy(t: Tables, plan: DiffPlan): Tables {
    MoveAll(DeleteAll(t, plan.deletions), plan.positionUpdates)
  }

  ghost function WriteSymbols(t: Tables, file: string, plan: DiffPlan): Tables {
    InsertAll(ModifyAll(t, file, plan.modifications), file, plan.inserts)
  }

  ghost function WrittenIds(t: Tables, file: string, plan: DiffPlan): seq<int> {
    ModifiedIds(t, file, plan.modifications)
    + InsertedIds(ModifyAll(t, file, plan.modifications), file, plan.inserts)
  }

  /** Edges of the touched symbols, promotion of the names just written, then their documents. */
  ghost function Attach(t: Tables, x: ExtractedFile, touched: set<string>, ids: seq<int>): Tables {
    var u := PromoteUnresolved(AddEdges(t, touched, x.edges), ids);
    AddDocuments(DropDocuments(u, ids), touched, x.documents)
  }

  ghost function ReplayPlan(t: Tables, x: ExtractedFile, plan: DiffPlan): Tables {
    var u := Tidy(t, plan);
    Attach(WriteSymbols(u, x.file, plan), x, TouchedFqdns(plan), WrittenIds(u, x.file, plan))
  }

  /** The rows `SELECT ... WHERE file_path = ?` may answer with, in some order. */
  ghost predicate ListsFile(t: Tables, file: string, rows: seq<DbSymbolRow>) {
    && (forall k :: 0 <= k < |rows| ==>
          && rows[k].id in t.symbols && t.symbols[rows[k].id].file == file
          && rows[k].fqdn == t.symbols[rows[k].id].fqdn && rows[k].bodyHash == t.symbols[rows[k].id].bodyHash)
    && (forall id :: id in t.symbols && t.symbols[id].file == file ==> exists k :: 0 <= k < |rows| && rows[k].id == id)
  }

  // ---- integrity holds after every pass, whatever the plan ----

  ghost predicate Sound(t: Tables, pending: set<string>) {
    Integrity(t) && LinkedExcept(t, pending)
  }

  lemma {:induction false} DeleteAllEffect(t: Tables, ids: seq<int>)
    requires Sound(t, {})
    ensures var u := DeleteAll(t, ids);
      && Sound(u, {}) && u.nextId == t.nextId
      && (forall id :: id in u.symbols <==> id in t.symbols && id !in ids)
      && (forall id :: id in u.symbols ==> u.symbols[id] == t.symbols[id])
      && (forall id :: id in u.symbols ==> EntryOf(u, id) == EntryOf(t, id))
  {
    if ids != [] {
      var rest := ids[..|ids| - 1];
      DeleteAllEffect(t, rest);
      DeleteSymbolKeeps(DeleteAll(t, rest), ids[|ids| - 1], {});
      assert ids == rest + [ids[|ids| - 1]];
    }
  }

  lemma {:induction false} MoveAllEffect(t: Tables, moves: seq<(int, RawSymbol)>)
    requires Sound(t, {})
    ensures var u := MoveAll(t, moves);
      && Sound(u, {}) && u.nextId == t.nextId && u.symbols.Keys == t.symbols.Keys
      && (forall id :: id in t.symbols ==> u.symbols[id].fqdn == t.symbols[id].fqdn)
      && (forall id :: id in t.symbols && (forall k :: 0 <= k < |moves| ==> moves[k].0 != id)
            ==> EntryOf(u, id) == EntryOf(t, id))
      && ((forall i, j :: 0 <= i < j < |moves| ==> moves[i].0 != moves[j].0) ==>
            forall k :: 0 <= k < |moves| && moves[k].0 in t.symbols ==>
              EntryOf(u, moves[k].0) == EntryOf(t, moves[k].0).(location := moves[k].1.location))
  {
    if moves != [] {
      var rest := moves[..|moves| - 1];
      var last := moves[|moves| - 1];
      MoveAllEffect(t, rest);
      UpdatePositionsKeeps(MoveAll(t, rest), last.0, last.1.location, {});
      forall id | id in t.symbols && (forall k :: 0 <= k < |moves| ==> moves[k].0 != id)
        ensures EntryOf(MoveAll(t, moves), id) == EntryOf(t, id)
      {
        assert forall k :: 0 <= k < |rest| ==> rest[k] == moves[k];
        assert moves[|moves| - 1].0 != id;
      }
      if forall i, j :: 0 <= i < j < |moves| ==> moves[i].0 != moves[j].0 {
        forall k | 0 <= k < |moves| && moves[k].0 in t.symbols
          ensures EntryOf(MoveAll(t, moves), moves[k].0) == EntryOf(t, moves[k].0).(location := moves[k].1.location)
        {
          if k < |rest| {
            assert rest[k] == moves[k];
          }
        }
      }
    }
  }

  function ChangedFqdns(changes: seq<(int, RawSymbol)>): set<string> {
    set k | 0 <= k < |changes| :: changes[k].1.fqdn
  }

  function FqdnsIn(syms: seq<RawSymbol>): set<string> {
    set k | 0 <= k < |syms| :: syms[k].fqdn
  }

  lemma ModifyKeeps(t: Tables, file: string, sym: RawSymbol, pending: set<string>)
    requires Sound(t, pending)
    ensures var u := Modify(t, file, sym);
      var id := UpsertedId(t, sym.fqdn);
      && Sound(u, pending + {sym.fqdn})
      && u.symbols.Keys == t.symbols.Keys + {id} && u.symbols[id].fqdn == sym.fqdn
      && (forall other :: other in t.symbols ==> u.symbols[other].fqdn == t.symbols[other].fqdn)
      && (forall other :: other in t.symbols && other != id ==> EntryOf(u, other) == EntryOf(t, other))
      && EntryOf(u, id) == Entry(file, sym.bodyHash, sym.location, sym.columns, [], DocumentOf(t, id))
  {
    UpsertSymbolKeeps(t, file, sym, pending);
    DeleteEdgesFromKeeps(UpsertSymbol(t, file, sym), UpsertedId(t, sym.fqdn), pending + {sym.fqdn});
  }

  /** A modification as far as names go. */
  lemma ModifyNames(t: Tables, file: string, sym: RawSymbol, pending: set<string>)
    requires Sound(t, pending)
    ensures var u, id := Modify(t, file, sym), UpsertedId(t, sym.fqdn);
      && Sound(u, pending + {sym.fqdn}) && id in u.symbols && u.symbols[id].fqdn == sym.fqdn
      && (forall other :: other in t.symbols ==> other in u.symbols && u.symbols[other].fqdn == t.symbols[other].fqdn)
  {
    ModifyKeeps(t, file, sym, pending);
  }

  /** Whatever the modifications are, the ids handed back carry their names. */
  lemma {:induction false} ModifyAllSound(t: Tables, file: string, changes: seq<(int, RawSymbol)>)
    requires Sound(t, {})
    ensures var u := ModifyAll(t, file, changes);
      var ids := ModifiedIds(t, file, changes);
      && Sound(u, ChangedFqdns(changes))
      && |ids| == |changes|
      && (forall id :: id in t.symbols ==> id in u.symbols && u.symbols[id].fqdn == t.symbols[id].fqdn)
      && (forall k :: 0 <= k < |changes| ==> ids[k] in u.symbols && u.symbols[ids[k]].fqdn == changes[k].1.fqdn)
  {
    if changes != [] {
      var rest := changes[..|changes| - 1];
      var last := changes[|changes| - 1];
      ModifyAllSound(t, file, rest);
      ModifyNames(ModifyAll(t, file, rest), file, last.1, ChangedFqdns(rest));
      ChangedFqdnsSnoc(changes);
    }
  }

  lemma ChangedFqdnsSnoc(changes: seq<(int, RawSymbol)>)
    requires changes != []
    ensures ChangedFqdns(changes) == ChangedFqdns(changes[..|changes| - 1]) + {changes[|changes| - 1].1.fqdn}
  {
    var rest := changes[..|changes| - 1];
    forall f | f in ChangedFqdns(changes) ensures f in ChangedFqdns(rest) + {changes[|changes| - 1].1.fqdn} {
      var k :| 0 <= k < |changes| && changes[k].1.fqdn == f;
      if k < |rest| { assert rest[k] == changes[k]; }
    }
    forall f | f in ChangedFqdns(rest) ensures f in ChangedFqdns(changes) {
      var k :| 0 <= k < |rest| && rest[k].1.fqdn == f;
      assert changes[k].1.fqdn == f;
    }
  }

  lemma {:induction false} InsertAllSound(t: Tables, file: string, syms: seq<RawSymbol>, pending: set<string>)
    requires Sound(t, pending)
    ensures Sound(InsertAll(t, file, syms), pending + FqdnsIn(syms))
  {
    if syms == [] {
      assert pending + FqdnsIn(syms) == pending;
    } else {
      var rest, last := syms[..|syms| - 1], syms[|syms| - 1];
      InsertAllSound(t, file, rest, pending);
      UpsertSymbolKeeps(InsertAll(t, file, rest), file, last, pending + FqdnsIn(rest));
      assert pending + FqdnsIn(syms) == pending + FqdnsIn(rest) + {last.fqdn} by { FqdnsInSnoc(syms); }
    }
  }

  /** Names stay with their ids, and the ids handed back carry the inserted names. */
  lemma {:induction false} InsertAllNames(t: Tables, file: string, syms: seq<RawSymbol>, pending: set<string>)
    requires Sound(t, pending)
    ensures var u := InsertAll(t, file, syms);
      var ids := InsertedIds(t, file, syms);
      && |ids| == |syms|
      && (forall id :: id in t.symbols ==> id in u.symbols && u.symbols[id].fqdn == t.symbols[id].fqdn)
      && (forall k :: 0 <= k < |syms| ==> ids[k] in u.symbols && u.symbols[ids[k]].fqdn == syms[k].fqdn)
  {
    if syms != [] {
      var rest, last := syms[..|syms| - 1], syms[|syms| - 1];
      InsertAllNames(t, file, rest, pending);
      InsertAllSound(t, file, rest, pending);
      UpsertSymbolKeeps(InsertAll(t, file, rest), file, last, pending + FqdnsIn(rest));
    }
  }

  lemma FqdnsInSnoc(syms: seq<RawSymbol>)
    requires syms != []
    ensures FqdnsIn(syms) == FqdnsIn(syms[..|syms| - 1]) + {syms[|syms| - 1].fqdn}
  {
    var rest := syms[..|syms| - 1];
    forall f | f in FqdnsIn(syms) ensures f in FqdnsIn(rest) + {syms[|syms| - 1].fqdn} {
      var k :| 0 <= k < |syms| && syms[k].fqdn == f;
      if k < |rest| { assert rest[k] == syms[k]; }
    }
    forall f | f in FqdnsIn(rest) ensures f in FqdnsIn(syms) {
      var k :| 0 <= k < |rest| && rest[k].fqdn == f;
      assert syms[k].fqdn == f;
    }
  }

  /** The extracted edges that leave `fqdn`, in order. */
  function EdgesOf(edges: seq<RawEdge>, fqdn: string): seq<OutEdge> {
    if edges == [] then [] else
    var edge := edges[|edges| - 1];
    EdgesOf(edges[..|edges| - 1], fqdn)
    + (if edge.fromFqdn == fqdn then [OutEdge(edge.attributes, edge.toName)] else [])
  }

  /** One edge row: appended to its source if that symbol was touched, dropped otherwise. */
  lemma AddEdgeEffect(t: Tables, touched: set<string>, edges: seq<RawEdge>, pending: set<string>)
    requires edges != []
    requires var u := AddEdges(t, touched, edges[..|edges| - 1]); Sound(u, pending)
    ensures var u, edge := AddEdges(t, touched, edges[..|edges| - 1]), edges[|edges| - 1];
      var v := AddEdges(t, touched, edges);
      && Sound(v, pending) && v.symbols == u.symbols
      && (forall id :: id in u.symbols && (u.symbols[id].fqdn !in touched || u.symbols[id].fqdn != edge.fromFqdn) ==>
            EntryOf(v, id) == EntryOf(u, id))
      && (forall id :: id in u.symbols && u.symbols[id].fqdn in touched && u.symbols[id].fqdn == edge.fromFqdn ==>
            EntryOf(v, id) == EntryOf(u, id).(out := OutEdges(u, id) + [OutEdge(edge.attributes, edge.toName)]))
  {
    var u, edge := AddEdges(t, touched, edges[..|edges| - 1]), edges[|edges| - 1];
    var from := FindId(u, edge.fromFqdn);
    if edge.fromFqdn in touched && from.Some? {
      InsertEdgeKeeps(u, from.value, edge, pending);
    }
  }

  lemma {:induction false} AddEdgesEffect(t: Tables, touched: set<string>, edges: seq<RawEdge>, pending: set<string>)
    requires Sound(t, pending)
    ensures var u := AddEdges(t, touched, edges);
      && Sound(u, pending) && u.symbols == t.symbols
      && (forall id :: id in t.symbols && t.symbols[id].fqdn !in touched ==> EntryOf(u, id) == EntryOf(t, id))
      && (forall id :: id in t.symbols && t.symbols[id].fqdn in touched ==>
            EntryOf(u, id) == EntryOf(t, id).(out := OutEdges(t, id) + EdgesOf(edges, t.symbols[id].fqdn)))
  {
    if edges == [] {
      forall id | id in t.symbols ensures EntryOf(t, id).out + EdgesOf(edges, t.symbols[id].fqdn) == EntryOf(t,
        id).out {}
    } else {
      AddEdgesEffect(t, touched, edges[..|edges| - 1], pending);
      AddEdgeEffect(t, touched, edges, pending);
    }
  }

  /** The text `documents` ends up with for `fqdn`: a later row overwrites an earlier one. */
  function DocumentFor(docs: seq<RawDocument>, fqdn: string): Option<string> {
    if docs == [] then None else
    var doc := docs[|docs| - 1];
    if doc.symbolFqdn == fqdn then Some(doc.description) else DocumentFor(docs[..|docs| - 1], fqdn)
  }

  lemma {:induction false} DropDocumentsEffect(t: Tables, ids: seq<int>)
    requires Sound(t, {})
    ensures var u := DropDocuments(t, ids);
      && Sound(u, {}) && u.symbols == t.symbols
      && (forall id :: id in t.symbols && id !in ids ==> EntryOf(u, id) == EntryOf(t, id))
      && (forall id :: id in t.symbols && id in ids ==> EntryOf(u, id) == EntryOf(t, id).(document := None))
  {
    if ids != [] {
      var rest := ids[..|ids| - 1];
      DropDocumentsEffect(t, rest);
      var u := DropDocuments(t, rest);
      DocumentsKeep(u, u.documents - {ids[|ids| - 1]}, {});
      assert ids == rest + [ids[|ids| - 1]];
    }
  }

  lemma {:induction false} AddDocumentsEffect(t: Tables, touched: set<string>, docs: seq<RawDocument>)
    requires Sound(t, {})
    ensures var u := AddDocuments(t, touched, docs);
      && Sound(u, {}) && u.symbols == t.symbols
      && (forall id :: id in t.symbols && t.symbols[id].fqdn !in touched ==> EntryOf(u, id) == EntryOf(t, id))
      && (forall id :: id in t.symbols && t.symbols[id].fqdn in touched ==>
            EntryOf(u, id) == EntryOf(t, id).(document :=
              if DocumentFor(docs, t.symbols[id].fqdn).Some? then DocumentFor(docs, t.symbols[id].fqdn)
              else DocumentOf(t, id)))
  {
    if docs != [] {
      var rest := docs[..|docs| - 1];
      var doc := docs[|docs| - 1];
      AddDocumentsEffect(t, touched, rest);
      var u := AddDocuments(t, touched, rest);
      var found := FindId(u, doc.symbolFqdn);
      if doc.symbolFqdn in touched && found.Some? {
        DocumentsKeep(u, u.documents[found.value := doc.description], {});
      }
      forall id | id in t.symbols && t.symbols[id].fqdn in touched && doc.symbolFqdn == t.symbols[id].fqdn
        ensures found == Some(id)
      {
        FindsId(u, id);
      }
    }
  }

  lemma TidySound(t: Tables, plan: DiffPlan)
    requires Sound(t, {})
    ensures Sound(Tidy(t, plan), {})
  {
    DeleteAllEffect(t, plan.deletions);
    MoveAllEffect(DeleteAll(t, plan.deletions), plan.positionUpdates);
  }

  /** The names written are the touched ones, and only they may still be unlinked. */
  lemma WriteSymbolsSound(t: Tables, file: string, plan: DiffPlan)
    requires Sound(t, {})
    ensures var u := WriteSymbols(t, file, plan);
      Sound(u, TouchedFqdns(plan)) && FqdnsOf(u, WrittenIds(t, file, plan)) == TouchedFqdns(plan)
  {
    ModifyAllSound(t, file, plan.modifications);
    var u := ModifyAll(t, file, plan.modifications);
    InsertAllSound(u, file, plan.inserts, ChangedFqdns(plan.modifications));
    InsertAllNames(u, file, plan.inserts, ChangedFqdns(plan.modifications));
    var mods, news := ModifiedIds(t, file, plan.modifications), InsertedIds(u, file, plan.inserts);
    var w := InsertAll(u, file, plan.inserts);
    forall k | 0 <= k < |mods|
      ensures mods[k] in w.symbols && w.symbols[mods[k]].fqdn == plan.modifications[k].1.fqdn
    {
      var id := mods[k];
      assert id in u.symbols && u.symbols[id].fqdn == plan.modifications[k].1.fqdn;
    }
    WrittenNames(w, plan, mods, news);
  }

  lemma AttachSound(t: Tables, x: ExtractedFile, touched: set<string>, ids: seq<int>)
    requires Sound(t, touched) && FqdnsOf(t, ids) == touched
    ensures Sound(Attach(t, x, touched, ids), {})
  {
    AddEdgesEffect(t, touched, x.edges, touched);
    var u := AddEdges(t, touched, x.edges);
    PromoteUnresolvedKeeps(u, ids, touched);
    var w := PromoteUnresolved(u, ids);
    DropDocumentsEffect(w, ids);
    AddDocumentsEffect(DropDocuments(w, ids), touched, x.documents);
  }

  /** Every replay leaves the tables sound and every nameable edge linked. */
  lemma ReplayPlanSound(t: Tables, x: ExtractedFile, plan: DiffPlan)
    requires Sound(t, {})
    ensures Sound(ReplayPlan(t, x, plan), {})
  {
    TidySound(t, plan);
    WriteSymbolsSound(Tidy(t, plan), x.file, plan);
    AttachSound(WriteSymbols(Tidy(t, plan), x.file, plan), x, TouchedFqdns(plan),
      WrittenIds(Tidy(t, plan), x.file, plan));
  }

  /** The ids written by the two passes carry exactly the touched names. */
  lemma WrittenNames(t: Tables, plan: DiffPlan, mods: seq<int>, news: seq<int>)
    requires |mods| == |plan.modifications| && |news| == |plan.inserts|
    requires forall k :: 0 <= k < |mods| ==>
      mods[k] in t.symbols && t.symbols[mods[k]].fqdn == plan.modifications[k].1.fqdn
    requires forall k :: 0 <= k < |news| ==> news[k] in t.symbols && t.symbols[news[k]].fqdn == plan.inserts[k].fqdn
    ensures FqdnsOf(t, mods + news) == ChangedFqdns(plan.modifications) + FqdnsIn(plan.inserts) == TouchedFqdns(plan)
  {
    var ids := mods + news;
    forall f | f in ChangedFqdns(plan.modifications) + FqdnsIn(plan.inserts) ensures f in FqdnsOf(t, ids) {
      if f in ChangedFqdns(plan.modifications) {
        var k :| 0 <= k < |mods| && plan.modifications[k].1.fqdn == f;
        assert ids[k] == mods[k];
      } else {
        var k :| 0 <= k < |news| && plan.inserts[k].fqdn == f;
        assert ids[|mods| + k] == news[k];
      }
    }
    forall f | f in FqdnsOf(t, ids) ensures f in ChangedFqdns(plan.modifications) + FqdnsIn(plan.inserts) {
      var k :| 0 <= k < |ids| && ids[k] in t.symbols && t.symbols[ids[k]].fqdn == f;
      if k < |mods| {
        assert plan.modifications[k].1.fqdn == f;
      } else {
        assert plan.inserts[k - |mods|].fqdn == f;
      }
    }
  }
}
