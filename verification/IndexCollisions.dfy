/**
 A name that two files share. An upsert takes it for new, and an insert does not drop
 edges: the symbol changes its file and keeps its old edges in front of the new ones.
 */
module IndexCollisions {
  import opened IndexTables
  import opened SymbolDiff
  import opened IndexReplay
  import opened IndexTheorems

  /** A stored symbol whose name an extraction of another file holds. */
  ghost predicate Collides(t: Tables, x: ExtractedFile, sym: RawSymbol, id: int) {
    && Distinct(x.symbols) && sym in x.symbols
    && id in t.symbols && t.symbols[id].fqdn == sym.fqdn && t.symbols[id].file != x.file
  }

  /**
   In every upsert with distinct names, each name that another file stores is taken over:
   it keeps its id, its edges are the old ones and then the new, the rest is the extraction's.
   */
  lemma CollisionKeepsOldEdges(t: Tables, x: ExtractedFile, sym: RawSymbol, id: int, u: Tables)
    requires Sound(t, {}) && UpsertStep(t, x, u) && Collides(t, x, sym, id)
    ensures Integrity(u) && id in u.symbols && u.symbols[id].fqdn == sym.fqdn
    ensures EntryOf(u, id) == Fresh(x, sym).(out := OutEdges(t, id) + EdgesOf(x.edges, sym.fqdn))
  {
    var rows :| ListsFile(t, x.file, rows) && u == ReplayPlan(t, x, Diff(rows, x.symbols));
    UniqueSymbol(x.symbols, sym);
    ReplayOld(t, x, rows, id);
  }

  /** So its entry is what the extraction says if and only if the stored symbol had no edges. */
  lemma CollisionIsFreshIff(t: Tables, x: ExtractedFile, sym: RawSymbol, id: int, u: Tables)
    requires Sound(t, {}) && UpsertStep(t, x, u) && Collides(t, x, sym, id)
    ensures Integrity(u) && id in u.symbols
    ensures EntryOf(u, id) == Fresh(x, sym) <==> OutEdges(t, id) == []
  {
    CollisionKeepsOldEdges(t, x, sym, id, u);
    SameOutIff(Fresh(x, sym), OutEdges(t, id), EdgesOf(x.edges, sym.fqdn));
  }

  lemma SameOutIff(e: Entry, before: seq<OutEdge>, after: seq<OutEdge>)
    requires e.out == after
    ensures e.(out := before + after) == e <==> before == []
  {
    assert |before + after| == |before| + |after| && [] + after == after;
  }
}
