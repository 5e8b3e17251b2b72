/**
 The rows the symbol index stores, and one function per SQL statement that
 changes them. Everything here is about one workspace, so `UNIQUE (workspace_id,
 fqdn)` makes the fully qualified name a second key of the symbols table.

 An edge row belongs to the symbol it leaves. Its target is either linked to a
 symbol id or kept as an unresolved name, never both.
 */
module IndexTables {
  import opened Prelude

  datatype Location = Location(startLine: nat, endLine: nat, startCol: nat, endCol: nat)

  /** One extracted symbol. `columns` stands for every column but the ones named here. */
  datatype RawSymbol = RawSymbol(fqdn: string, bodyHash: Option<string>, location: Location, columns: string)

  datatype RawEdge = RawEdge(fromFqdn: string, attributes: string, toName: string)

  datatype RawDocument = RawDocument(symbolFqdn: string, description: string)

  datatype ExtractedFile = ExtractedFile(
    file: string, symbols: seq<RawSymbol>, edges: seq<RawEdge>, documents: seq<RawDocument>)

  datatype SymbolRow = SymbolRow(
    file: string, fqdn: string, bodyHash: Option<string>, location: Location, columns: string)

  datatype Target = Linked(id: int) | Unresolved(name: string)

  datatype EdgeRow = EdgeRow(attributes: string, target: Target)

  datatype Tables = Tables(
    symbols: map<int, SymbolRow>, edges: map<int, seq<EdgeRow>>, documents: map<int, string>, nextId: int)

  const EMPTY_TABLES := Tables(map[], map[], map[], 1)

  /** Primary and foreign keys, the unique fqdn, and AUTOINCREMENT. */
  ghost predicate Integrity(t: Tables) {
    && (forall id :: id in t.symbols ==> id < t.nextId)
    && (forall a, b :: a in t.symbols && b in t.symbols && t.symbols[a].fqdn == t.symbols[b].fqdn ==> a == b)
    && t.edges.Keys <= t.symbols.Keys
    && t.documents.Keys <= t.symbols.Keys
    && (forall id, k :: id in t.edges && 0 <= k < |t.edges[id]| && t.edges[id][k].target.Linked?
          ==> t.edges[id][k].target.id in t.symbols)
  }

  ghost predicate HasFqdn(t: Tables, fqdn: string) {
    exists id :: id in t.symbols && t.symbols[id].fqdn == fqdn
  }

  /** Every edge that names a stored symbol is linked to it, except for names in `pending`. */
  ghost predicate LinkedExcept(t: Tables, pending: set<string>) {
    forall id, k :: id in t.edges && 0 <= k < |t.edges[id]| && t.edges[id][k].target.Unresolved?
      ==> HasFqdn(t, t.edges[id][k].target.name) ==> t.edges[id][k].target.name in pending
  }

  // ---- reading ----

  ghost function FindId(t: Tables, fqdn: string): (r: Option<int>)
    ensures r.Some? <==> HasFqdn(t, fqdn)
    ensures r.Some? ==> r.value in t.symbols && t.symbols[r.value].fqdn == fqdn
  {
    if HasFqdn(t, fqdn) then
      var id :| id in t.symbols && t.symbols[id].fqdn == fqdn;
      Some(id)
    else
      None
  }

  function RowsFrom(t: Tables, id: int): seq<EdgeRow> {
    if id in t.edges then t.edges[id] else []
  }

  // ---- one function per statement ----

  function RowOf(file: string, sym: RawSymbol): SymbolRow {
    SymbolRow(file, sym.fqdn, sym.bodyHash, sym.location, sym.columns)
  }

  /** `INSERT INTO symbols ... ON CONFLICT(workspace_id, fqdn) DO UPDATE ... RETURNING id` */
  ghost function UpsertedId(t: Tables, fqdn: string): int {
    var found := FindId(t, fqdn);
    if found.Some? then found.value else t.nextId
  }

  ghost function UpsertSymbol(t: Tables, file: string, sym: RawSymbol): Tables {
    var id := UpsertedId(t, sym.fqdn);
    t.(symbols := t.symbols[id := RowOf(file, sym)],
       nextId := if HasFqdn(t, sym.fqdn) then t.nextId else t.nextId + 1)
  }

  function UpdatePositions(t: Tables, id: int, location: Location): Tables {
    if id in t.symbols then
      t.(symbols := t.symbols[id := t.symbols[id].(location := location)])
    else
      t
  }

  /** Edges that pointed at `id` fall back to its name. */
  function Demote(row: EdgeRow, id: int, fqdn: string): EdgeRow {
    if row.target == Linked(id) then row.(target := Unresolved(fqdn)) else row
  }

  function DemoteAll(rows: seq<EdgeRow>, id: int, fqdn: string): seq<EdgeRow> {
    seq(|rows|, k requires 0 <= k < |rows| => Demote(rows[k], id, fqdn))
  }

  /** Demote the incoming edges, delete the row, and cascade to its edges and its document. */
  function DeleteSymbol(t: Tables, id: int): Tables {
    if id !in t.symbols then t else
    Tables(
      t.symbols - {id},
      map src | src in t.edges && src != id :: DemoteAll(t.edges[src], id, t.symbols[id].fqdn),
      t.documents - {id},
      t.nextId)
  }

  function DeleteEdgesFrom(t: Tables, id: int): Tables {
    t.(edges := t.edges - {id})
  }

  ghost function Resolve(t: Tables, name: string): Target {
    var found := FindId(t, name);
    if found.Some? then Linked(found.value) else Unresolved(name)
  }

  ghost function InsertEdge(t: Tables, from: int, edge: RawEdge): Tables {
    t.(edges := t.edges[from := RowsFrom(t, from) + [EdgeRow(edge.attributes, Resolve(t, edge.toName))]])
  }

  /** The names carried by the symbols just written. */
  function FqdnsOf(t: Tables, ids: seq<int>): set<string> {
    set k | 0 <= k < |ids| && ids[k] in t.symbols :: t.symbols[ids[k]].fqdn
  }

  ghost function Promote(t: Tables, row: EdgeRow, names: set<string>): EdgeRow {
    if row.target.Unresolved? && row.target.name in names then
      row.(target := Resolve(t, row.target.name))
    else
      row
  }

  ghost function PromoteRows(t: Tables, rows: seq<EdgeRow>, names: set<string>): seq<EdgeRow> {
    seq(|rows|, k requires 0 <= k < |rows| => Promote(t, rows[k], names))
  }

  /** `UPDATE edges SET to_symbol_id = ... WHERE to_unresolved IN (names of the new symbols)` */
  ghost function PromoteUnresolved(t: Tables, ids: seq<int>): Tables {
    var names := FqdnsOf(t, ids);
    t.(edges := map src | src in t.edges :: PromoteRows(t, t.edges[src], names))
  }

  function PutDocument(t: Tables, id: int, description: string): Tables {
    t.(documents := t.documents[id := description])
  }

  function DeleteDocument(t: Tables, id: int): Tables {
    t.(documents := t.documents - {id})
  }

  // ---- what a reader of the index sees ----

  datatype OutEdge = OutEdge(attributes: string, toName: string)

  /** Everything stored for one symbol, with edge targets read back as names. */
  datatype Entry = Entry(
    file: string, bodyHash: Option<string>, location: Location, columns: string,
    out: seq<OutEdge>, document: Option<string>)

  ghost function TargetName(t: Tables, target: Target): string
    requires Integrity(t)
    requires target.Linked? ==> target.id in t.symbols
  {
    match target
    case Linked(id) => t.symbols[id].fqdn
    case Unresolved(name) => name
  }

  ghost function OutEdges(t: Tables, id: int): (r: seq<OutEdge>)
    requires Integrity(t)
    ensures |r| == |RowsFrom(t, id)|
  {
    var rows := RowsFrom(t, id);
    seq(|rows|, k requires 0 <= k < |rows| =>
      assert id in t.edges; OutEdge(rows[k].attributes, TargetName(t, rows[k].target)))
  }

  function DocumentOf(t: Tables, id: int): Option<string> {
    if id in t.documents then Some(t.documents[id]) else None
  }

  ghost function EntryOf(t: Tables, id: int): Entry
    requires Integrity(t) && id in t.symbols
  {
    var row := t.symbols[id];
    Entry(row.file, row.bodyHash, row.location, row.columns, OutEdges(t, id), DocumentOf(t, id))
  }

  ghost function Fqdns(t: Tables): set<string> {
    set id | id in t.symbols :: t.symbols[id].fqdn
  }

  /** The index as a map from names, with ids forgotten. */
  ghost function View(t: Tables): map<string, Entry>
    requires Integrity(t)
  {
    map f | f in Fqdns(t) :: EntryOf(t, FindId(t, f).value)
  }

  // ---- every statement keeps the integrity and says how it moves the entries ----

  lemma FindsId(t: Tables, id: int)
    requires Integrity(t) && id in t.symbols
    ensures FindId(t, t.symbols[id].fqdn) == Some(id)
  {
  }

  lemma SameOut(s: Tables, t: Tables, a: int, b: int)
    requires Integrity(s) && Integrity(t)
    requires |RowsFrom(s, a)| == |RowsFrom(t, b)|
    requires forall k :: 0 <= k < |RowsFrom(s, a)| ==> RowsFrom(s, a)[k].attributes == RowsFrom(t, b)[k].attributes
    requires forall k :: 0 <= k < |RowsFrom(s, a)| ==> OutEdges(s, a)[k].toName == OutEdges(t, b)[k].toName
    ensures OutEdges(s, a) == OutEdges(t, b)
  {
    forall k | 0 <= k < |RowsFrom(s, a)| ensures OutEdges(s, a)[k] == OutEdges(t, b)[k] {
      assert OutEdges(s, a)[k].attributes == RowsFrom(s, a)[k].attributes;
      assert OutEdges(t, b)[k].attributes == RowsFrom(t, b)[k].attributes;
    }
  }

  /** The out edges depend on the rows and on the names of the linked symbols only. */
  lemma SameRowsSameOut(s: Tables, t: Tables, id: int)
    requires Integrity(s) && Integrity(t) && RowsFrom(s, id) == RowsFrom(t, id)
    requires forall k :: k in s.symbols && k in t.symbols ==> s.symbols[k].fqdn == t.symbols[k].fqdn
    ensures OutEdges(s, id) == OutEdges(t, id)
  {
    forall k | 0 <= k < |RowsFrom(s, id)| ensures OutEdges(s, id)[k] == OutEdges(t, id)[k] {
      assert id in s.edges && id in t.edges && s.edges[id][k] == t.edges[id][k];
    }
  }

  /** Deleting a symbol demotes edges without changing any name they point at. */
  lemma DeleteSymbolKeeps(t: Tables, id: int, pending: set<string>)
    requires Integrity(t) && LinkedExcept(t, pending)
    ensures var u := DeleteSymbol(t, id);
      && Integrity(u) && LinkedExcept(u, pending)
      && u.symbols == t.symbols - {id}
      && (forall other :: other in u.symbols ==> EntryOf(u, other) == EntryOf(t, other))
  {
    var u := DeleteSymbol(t, id);
    if id in t.symbols {
      assert Integrity(u) by {
        forall src, k | src in u.edges && 0 <= k < |u.edges[src]| && u.edges[src][k].target.Linked?
          ensures u.edges[src][k].target.id in u.symbols
        {
          assert u.edges[src][k] == Demote(t.edges[src][k], id, t.symbols[id].fqdn);
        }
      }
      forall other | other in u.symbols ensures EntryOf(u, other) == EntryOf(t, other) {
        forall k | 0 <= k < |RowsFrom(t, other)|
          ensures RowsFrom(u, other)[k].attributes == RowsFrom(t, other)[k].attributes
          ensures OutEdges(u, other)[k].toName == OutEdges(t, other)[k].toName
        {
          assert u.edges[other][k] == Demote(t.edges[other][k], id, t.symbols[id].fqdn);
        }
        SameOut(u, t, other, other);
      }
      forall src, k | src in u.edges && 0 <= k < |u.edges[src]| && u.edges[src][k].target.Unresolved?
        && HasFqdn(u, u.edges[src][k].target.name)
        ensures u.edges[src][k].target.name in pending
      {
        assert u.edges[src][k] == Demote(t.edges[src][k], id, t.symbols[id].fqdn);
      }
    }
  }

  lemma UpdatePositionsKeeps(t: Tables, id: int, location: Location, pending: set<string>)
    requires Integrity(t) && LinkedExcept(t, pending)
    ensures var u := UpdatePositions(t, id, location);
      && Integrity(u) && LinkedExcept(u, pending)
      && u.symbols.Keys == t.symbols.Keys
      && (forall other :: other in u.symbols ==> u.symbols[other].fqdn == t.symbols[other].fqdn)
      && (forall other :: other in u.symbols && other != id ==> EntryOf(u, other) == EntryOf(t, other))
      && (id in u.symbols ==> EntryOf(u, id) == EntryOf(t, id).(location := location))
  {
    var u := UpdatePositions(t, id, location);
    assert u.symbols.Keys == t.symbols.Keys;
    assert forall k :: k in u.symbols ==> u.symbols[k].fqdn == t.symbols[k].fqdn;
    assert Integrity(u);
    forall f | HasFqdn(u, f) ensures HasFqdn(t, f) {
      var k :| k in u.symbols && u.symbols[k].fqdn == f;
      assert k in t.symbols && t.symbols[k].fqdn == f;
    }
    forall other | other in u.symbols ensures OutEdges(u, other) == OutEdges(t, other) {
      SameRowsSameOut(u, t, other);
    }
  }

  lemma UpsertSymbolKeeps(t: Tables, file: string, sym: RawSymbol, pending: set<string>)
    requires Integrity(t) && LinkedExcept(t, pending)
    ensures var u := UpsertSymbol(t, file, sym);
      var id := UpsertedId(t, sym.fqdn);
      && Integrity(u) && LinkedExcept(u, pending + {sym.fqdn})
      && u.symbols.Keys == t.symbols.Keys + {id}
      && u.symbols[id].fqdn == sym.fqdn
      && (forall other :: other in t.symbols ==> u.symbols[other].fqdn == t.symbols[other].fqdn)
      && (forall other :: other in t.symbols && other != id ==> EntryOf(u, other) == EntryOf(t, other))
      && EntryOf(u, id) == Entry(file, sym.bodyHash, sym.location, sym.columns,
                                 OutEdges(t, id), DocumentOf(t, id))
  {
    var u := UpsertSymbol(t, file, sym);
    var id := UpsertedId(t, sym.fqdn);
    assert Integrity(u);
    assert forall f :: HasFqdn(u, f) ==> HasFqdn(t, f) || f == sym.fqdn;
    forall other | other in u.symbols ensures OutEdges(u, other) == OutEdges(t, other) {
      SameRowsSameOut(u, t, other);
    }
  }

  lemma DeleteEdgesFromKeeps(t: Tables, id: int, pending: set<string>)
    requires Integrity(t) && LinkedExcept(t, pending)
    ensures var u := DeleteEdgesFrom(t, id);
      && Integrity(u) && LinkedExcept(u, pending)
      && u.symbols == t.symbols
      && (forall other :: other in t.symbols && other != id ==> EntryOf(u, other) == EntryOf(t, other))
      && (id in t.symbols ==> EntryOf(u, id) == EntryOf(t, id).(out := []))
  {
    var u := DeleteEdgesFrom(t, id);
    forall other | other in u.symbols && other != id ensures OutEdges(u, other) == OutEdges(t, other) {
      SameRowsSameOut(u, t, other);
    }
  }

  lemma InsertEdgeKeeps(t: Tables, from: int, edge: RawEdge, pending: set<string>)
    requires Integrity(t) && LinkedExcept(t, pending) && from in t.symbols
    ensures var u := InsertEdge(t, from, edge);
      && Integrity(u) && LinkedExcept(u, pending)
      && u.symbols == t.symbols
      && (forall other :: other in t.symbols && other != from ==> EntryOf(u, other) == EntryOf(t, other))
      && EntryOf(u, from) == EntryOf(t, from).(out := EntryOf(t, from).out + [OutEdge(edge.attributes, edge.toName)])
  {
    var u := InsertEdge(t, from, edge);
    assert Integrity(u);
    forall other | other in u.symbols && other != from ensures OutEdges(u, other) == OutEdges(t, other) {
      SameRowsSameOut(u, t, other);
    }
    assert OutEdges(u, from) == OutEdges(t, from) + [OutEdge(edge.attributes, edge.toName)];
  }

  /** Promotion links every pending name again, and no name an edge points at changes. */
  lemma PromoteUnresolvedKeeps(t: Tables, ids: seq<int>, pending: set<string>)
    requires Integrity(t) && LinkedExcept(t, pending)
    requires pending <= FqdnsOf(t, ids)
    ensures var u := PromoteUnresolved(t, ids);
      && Integrity(u) && LinkedExcept(u, {})
      && u.symbols == t.symbols
      && (forall other :: other in t.symbols ==> EntryOf(u, other) == EntryOf(t, other))
  {
    var u := PromoteUnresolved(t, ids);
    var names := FqdnsOf(t, ids);
    forall n | n in names ensures HasFqdn(t, n) {
      var k :| 0 <= k < |ids| && ids[k] in t.symbols && t.symbols[ids[k]].fqdn == n;
      var id := ids[k];
      assert id in t.symbols && t.symbols[id].fqdn == n;
    }
    forall src, k | src in u.edges && 0 <= k < |u.edges[src]|
      ensures u.edges[src][k] == Promote(t, t.edges[src][k], names)
    {
    }
    assert Integrity(u);
    forall other | other in u.symbols ensures EntryOf(u, other) == EntryOf(t, other) {
      forall k | 0 <= k < |RowsFrom(t, other)|
        ensures RowsFrom(u, other)[k].attributes == RowsFrom(t, other)[k].attributes
        ensures OutEdges(u, other)[k].toName == OutEdges(t, other)[k].toName
      {
        assert u.edges[other][k] == Promote(t, t.edges[other][k], names);
      }
      SameOut(u, t, other, other);
    }
    forall src, k | src in u.edges && 0 <= k < |u.edges[src]| && u.edges[src][k].target.Unresolved?
      ensures !HasFqdn(u, u.edges[src][k].target.name)
    {
      assert u.edges[src][k] == Promote(t, t.edges[src][k], names);
    }
  }

  lemma DocumentsKeep(t: Tables, documents: map<int, string>, pending: set<string>)
    requires Integrity(t) && LinkedExcept(t, pending) && documents.Keys <= t.symbols.Keys
    ensures var u := t.(documents := documents);
      && Integrity(u) && LinkedExcept(u, pending)
      && (forall other :: other in t.symbols ==>
            EntryOf(u, other) == EntryOf(t, other).(document := DocumentOf(u, other)))
  {
    var u := t.(documents := documents);
    forall other | other in u.symbols ensures OutEdges(u, other) == OutEdges(t, other) {
      SameRowsSameOut(u, t, other);
    }
  }
}
