/**
 The writer: the tables as fields, one method per statement, and the batch that
 replays a diff plan on them in loops.
 */
module IndexWriter {
  import opened Prelude
  import T = IndexTables
  import opened SymbolDiff
  import R = IndexReplay
  import Theorems = IndexTheorems

  class Index {
    var symbols: map<int, T.SymbolRow>
    var edges: map<int, seq<T.EdgeRow>>
    var documents: map<int, string>
    var nextId: int

    ghost function Tables(): T.Tables
      reads this
    {
      T.Tables(symbols, edges, documents, nextId)
    }

    /** The schema's constraints. */
    ghost predicate Valid()
      reads this
    {
      T.Integrity(Tables())
    }

    /** Valid, and every edge that names a stored symbol is linked to it. */
    ghost predicate Settled()
      reads this
    {
      R.Sound(Tables(), {})
    }

    constructor ()
      ensures Tables() == T.EMPTY_TABLES && Settled()
    {
      symbols, edges, documents, nextId := map[], map[], map[], 1;
    }

    // ---- statements ----

    method LookupId(fqdn: string) returns (found: Option<int>)
      requires Valid()
      ensures found == T.FindId(Tables(), fqdn)
    {
      if id :| id in symbols && symbols[id].fqdn == fqdn {
        found := Some(id);
      } else {
        found := None;
      }
    }

    method InsertSymbol(file: string, sym: T.RawSymbol) returns (id: int)
      requires Valid()
      modifies this
      ensures Tables() == T.UpsertSymbol(old(Tables()), file, sym) && Valid()
      ensures id == T.UpsertedId(old(Tables()), sym.fqdn)
    {
      T.UpsertSymbolKeeps(Tables(), file, sym, T.Fqdns(Tables()));
      var found := LookupId(sym.fqdn);
      match found {
        case Some(known) =>
          id := known;
        case None =>
          id := nextId;
          nextId := nextId + 1;
      }
      symbols := symbols[id := T.RowOf(file, sym)];
    }

    method UpdateSymbolPositions(id: int, location: T.Location)
      modifies this
      ensures Tables() == T.UpdatePositions(old(Tables()), id, location)
    {
      if id in symbols {
        symbols := symbols[id := symbols[id].(location := location)];
      }
    }

    method DeleteSymbol(id: int)
      modifies this
      ensures Tables() == T.DeleteSymbol(old(Tables()), id)
    {
      if id in symbols {
        var fqdn := symbols[id].fqdn;
        edges := map src | src in edges :: T.DemoteAll(edges[src], id, fqdn);
        symbols, edges, documents := symbols - {id}, edges - {id}, documents - {id};
      }
    }

    method DeleteEdgesFrom(id: int)
      modifies this
      ensures Tables() == T.DeleteEdgesFrom(old(Tables()), id)
    {
      edges := edges - {id};
    }

    method InsertEdge(from: int, edge: T.RawEdge)
      requires Valid()
      modifies this
      ensures Tables() == T.InsertEdge(old(Tables()), from, edge)
    {
      var found := LookupId(edge.toName);
      var target := if found.Some? then T.Linked(found.value) else T.Unresolved(edge.toName);
      var rows := if from in edges then edges[from] else [];
      edges := edges[from := rows + [T.EdgeRow(edge.attributes, target)]];
    }

    static ghost predicate IsPromotion(
      t: T.Tables, rows: seq<T.EdgeRow>, names: set<string>, promoted: seq<T.EdgeRow>)
    {
      |promoted| == |rows| && forall k :: 0 <= k < |rows| ==> promoted[k] == T.Promote(t, rows[k], names)
    }

    method PromoteRows(rows: seq<T.EdgeRow>, names: set<string>) returns (promoted: seq<T.EdgeRow>)
      requires Valid()
      ensures IsPromotion(Tables(), rows, names, promoted)
    {
      promoted := [];
      for k := 0 to |rows|
        invariant |promoted| == k
        invariant forall j :: 0 <= j < k ==> promoted[j] == T.Promote(Tables(), rows[j], names)
      {
        var row := rows[k];
        if row.target.Unresolved? && row.target.name in names {
          var found := LookupId(row.target.name);
          if found.Some? {
            row := row.(target := T.Linked(found.value));
          }
        }
        promoted := promoted + [row];
      }
    }

    method PromoteSources(rows: map<int, seq<T.EdgeRow>>, names: set<string>)
      returns (updated: map<int, seq<T.EdgeRow>>)
      requires Valid()
      ensures updated.Keys == rows.Keys
      ensures forall src :: src in rows ==> IsPromotion(Tables(), rows[src], names, updated[src])
    {
      ghost var t := Tables();
      var left: set<int> := rows.Keys;
      updated := map[];
      while left != {}
        invariant left <= rows.Keys && updated.Keys == rows.Keys - left
        invariant forall src :: src in updated ==> IsPromotion(t, rows[src], names, updated[src])
        decreases |left|
      {
        var src: int := Pick(left);
        var promoted := PromoteRows(rows[src], names);
        updated, left := updated[src := promoted], left - {src};
      }
    }

    method PromoteUnresolvedBatch(ids: seq<int>)
      requires Valid()
      modifies this
      ensures Tables() == T.PromoteUnresolved(old(Tables()), ids)
    {
      ghost var start := Tables();
      var updated := PromoteSources(edges, T.FqdnsOf(T.Tables(symbols, edges, documents, nextId), ids));
      PromotedEdges(start, ids, updated);
      edges := updated;
    }

    lemma PromotedEdges(start: T.Tables, ids: seq<int>, updated: map<int, seq<T.EdgeRow>>)
      requires updated.Keys == start.edges.Keys
      requires forall src :: src in updated ==>
        IsPromotion(start, start.edges[src], T.FqdnsOf(start, ids), updated[src])
      ensures updated == T.PromoteUnresolved(start, ids).edges
    {
      var promoted := T.PromoteUnresolved(start, ids).edges;
      assert promoted.Keys == start.edges.Keys;
      forall src | src in updated ensures updated[src] == promoted[src] {
        assert promoted[src] == T.PromoteRows(start, start.edges[src], T.FqdnsOf(start, ids));
      }
    }

    method UpsertDocument(id: int, description: string)
      modifies this
      ensures Tables() == T.PutDocument(old(Tables()), id, description)
    {
      documents := documents[id := description];
    }

    method DeleteDocument(id: int)
      modifies this
      ensures Tables() == T.DeleteDocument(old(Tables()), id)
    {
      documents := documents - {id};
    }

    method FetchExistingSymbols(file: string) returns (rows: seq<DbSymbolRow>)
      ensures R.ListsFile(Tables(), file, rows)
    {
      var ids := set id | id in symbols && symbols[id].file == file;
      rows := [];
      while ids != {}
        invariant forall id :: id in ids ==> id in symbols && symbols[id].file == file
        invariant forall k :: 0 <= k < |rows| ==>
          && rows[k].id in symbols && symbols[rows[k].id].file == file
          && rows[k].fqdn == symbols[rows[k].id].fqdn && rows[k].bodyHash == symbols[rows[k].id].bodyHash
        invariant forall id :: id in symbols && symbols[id].file == file ==>
          id in ids || exists k :: 0 <= k < |rows| && rows[k].id == id
        decreases |ids|
      {
        var id := Pick(ids);
        ghost var before := rows;
        rows, ids := rows + [DbSymbolRow(id, symbols[id].fqdn, symbols[id].bodyHash)], ids - {id};
        assert rows[|before|].id == id;
        forall other | other in symbols && symbols[other].file == file && other !in ids && other != id
          ensures exists k :: 0 <= k < |rows| && rows[k].id == other
        {
          var k :| 0 <= k < |before| && before[k].id == other;
          assert rows[k].id == other;
        }
      }
    }

    // ---- the passes of the batch ----

    method ApplyDeletes(ids: seq<int>)
      modifies this
      ensures Tables() == R.DeleteAll(old(Tables()), ids)
    {
      for k := 0 to |ids|
        invariant Tables() == R.DeleteAll(old(Tables()), ids[..k])
      {
        assert ids[..k + 1][..k] == ids[..k];
        DeleteSymbol(ids[k]);
      }
      assert ids[..|ids|] == ids;
    }

    method ApplyPositionUpdates(moves: seq<(int, T.RawSymbol)>)
      modifies this
      ensures Tables() == R.MoveAll(old(Tables()), moves)
    {
      for k := 0 to |moves|
        invariant Tables() == R.MoveAll(old(Tables()), moves[..k])
      {
        assert moves[..k + 1][..k] == moves[..k];
        UpdateSymbolPositions(moves[k].0, moves[k].1.location);
      }
      assert moves[..|moves|] == moves;
    }

    method ApplyModifications(file: string, changes: seq<(int, T.RawSymbol)>) returns (ids: seq<int>)
      requires Settled()
      modifies this
      ensures Tables() == R.ModifyAll(old(Tables()), file, changes) && Valid()
      ensures ids == R.ModifiedIds(old(Tables()), file, changes)
    {
      ghost var start := Tables();
      ids := [];
      for k := 0 to |changes|
        invariant Tables() == R.ModifyAll(start, file, changes[..k])
        invariant ids == R.ModifiedIds(start, file, changes[..k])
      {
        assert changes[..k + 1][..k] == changes[..k];
        R.ModifyAllSound(start, file, changes[..k]);
        var id := InsertSymbol(file, changes[k].1);
        DeleteEdgesFrom(id);
        ids := ids + [id];
      }
      assert changes[..|changes|] == changes;
      R.ModifyAllSound(start, file, changes);
    }

    method ApplyInserts(file: string, news: seq<T.RawSymbol>) returns (ids: seq<int>)
      requires Valid()
      modifies this
      ensures Tables() == R.InsertAll(old(Tables()), file, news) && Valid()
      ensures ids == R.InsertedIds(old(Tables()), file, news)
    {
      ids := [];
      for k := 0 to |news|
        invariant Tables() == R.InsertAll(old(Tables()), file, news[..k]) && Valid()
        invariant ids == R.InsertedIds(old(Tables()), file, news[..k])
      {
        assert news[..k + 1][..k] == news[..k];
        var id := InsertSymbol(file, news[k]);
        ids := ids + [id];
      }
      assert news[..|news|] == news;
    }

    method ApplyInsertsAndModifications(file: string, plan: DiffPlan) returns (ids: seq<int>)
      requires Settled()
      modifies this
      ensures Tables() == R.WriteSymbols(old(Tables()), file, plan) && Valid()
      ensures ids == R.WrittenIds(old(Tables()), file, plan)
    {
      var modified := ApplyModifications(file, plan.modifications);
      var inserted := ApplyInserts(file, plan.inserts);
      ids := modified + inserted;
    }

    method ApplyEdges(touched: set<string>, raw: seq<T.RawEdge>, ghost pending: set<string>)
      requires R.Sound(Tables(), pending)
      modifies this
      ensures Tables() == R.AddEdges(old(Tables()), touched, raw)
    {
      ghost var start := Tables();
      for k := 0 to |raw|
        invariant Tables() == R.AddEdges(start, touched, raw[..k])
      {
        assert raw[..k + 1][..k] == raw[..k];
        R.AddEdgesEffect(start, touched, raw[..k], pending);
        var edge := raw[k];
        if edge.fromFqdn in touched {
          var from := LookupId(edge.fromFqdn);
          if from.Some? {
            InsertEdge(from.value, edge);
          }
        }
      }
      assert raw[..|raw|] == raw;
    }

    method ApplyDocuments(touched: set<string>, ids: seq<int>, docs: seq<T.RawDocument>)
      requires Settled()
      modifies this
      ensures Tables() == R.AddDocuments(R.DropDocuments(old(Tables()), ids), touched, docs)
    {
      ghost var start := Tables();
      for k := 0 to |ids|
        invariant Tables() == R.DropDocuments(start, ids[..k])
      {
        assert ids[..k + 1][..k] == ids[..k];
        DeleteDocument(ids[k]);
      }
      assert ids[..|ids|] == ids;
      R.DropDocumentsEffect(start, ids);
      ghost var middle := Tables();
      for k := 0 to |docs|
        invariant Tables() == R.AddDocuments(middle, touched, docs[..k])
      {
        assert docs[..k + 1][..k] == docs[..k];
        R.AddDocumentsEffect(middle, touched, docs[..k]);
        var doc := docs[k];
        if doc.symbolFqdn in touched {
          var found := LookupId(doc.symbolFqdn);
          if found.Some? {
            UpsertDocument(found.value, doc.description);
          }
        }
      }
      assert docs[..|docs|] == docs;
    }

    // ---- the two commands ----

    method ApplyUpsertFile(x: T.ExtractedFile)
      requires Settled()
      modifies this
      ensures Settled()
      ensures Theorems.UpsertStep(old(Tables()), x, Tables())
      ensures Distinct(x.symbols) ==>
        T.View(Tables()) == Theorems.ReplaceFile(old(T.View(Tables())), x)
    {
      ghost var start := Tables();
      var rows := FetchExistingSymbols(x.file);
      var plan := DiffSymbols(rows, x.symbols);
      ApplyDeletes(plan.deletions);
      ApplyPositionUpdates(plan.positionUpdates);
      R.TidySound(start, plan);
      ghost var tidy := Tables();
      var ids := ApplyInsertsAndModifications(x.file, plan);
      R.WriteSymbolsSound(tidy, x.file, plan);
      ghost var written := Tables();
      var touched := R.TouchedFqdns(plan);
      ApplyEdges(touched, x.edges, touched);
      R.AddEdgesEffect(written, touched, x.edges, touched);
      ghost var linked := Tables();
      PromoteUnresolvedBatch(ids);
      T.PromoteUnresolvedKeeps(linked, ids, touched);
      ApplyDocuments(touched, ids, x.documents);
      assert Tables() == R.ReplayPlan(start, x, plan);
      R.ReplayPlanSound(start, x, plan);
      if Distinct(x.symbols) {
        Theorems.UpsertReplacesFile(start, x, Tables());
      }
    }

    method ApplyDeleteFile(path: string)
      requires Settled()
      modifies this
      ensures Settled()
      ensures Theorems.DeleteStep(old(Tables()), path, Tables())
      ensures T.View(Tables()) == Theorems.RemoveFile(old(T.View(Tables())), path)
    {
      ghost var start := Tables();
      var rows := FetchExistingSymbols(path);
      var ids := seq(|rows|, k requires 0 <= k < |rows| => rows[k].id);
      forall id ensures id in ids <==> id in symbols && symbols[id].file == path {
        if id in symbols && symbols[id].file == path {
          var k :| 0 <= k < |rows| && rows[k].id == id;
          assert ids[k] == id;
        }
      }
      ApplyDeletes(ids);
      R.DeleteAllEffect(start, ids);
      Theorems.DeleteRemovesFile(start, path, Tables());
    }
  }
}
