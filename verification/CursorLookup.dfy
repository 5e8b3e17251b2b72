/** The symbol under a cursor: of the ranges that contain it, the one with the smallest weighted extent. */
module CursorLookup {
  import opened Prelude

  datatype Position = Position(line: nat, col: nat)

  datatype Range = Range(start: Position, end: Position)

  predicate AtOrBefore(a: Position, b: Position) {
    a.line < b.line || (a.line == b.line && a.col <= b.col)
  }

  /** The WHERE clause, with its columns. */
  predicate Matches(r: Range, p: Position) {
    && r.start.line <= p.line && r.end.line >= p.line
    && (r.start.line < p.line || r.start.col <= p.col)
    && (r.end.line > p.line || r.end.col >= p.col)
  }

  /** The ORDER BY expression. */
  function Weight(r: Range): int {
    (r.end.line - r.start.line) * 1000 + (r.end.col - r.start.col)
  }

  /** ORDER BY … LIMIT 1: the first row of the smallest weight. */
  function SymbolAt(rows: seq<Range>, p: Position): Option<Range> {
    if rows == [] then None else
    var best, last := SymbolAt(rows[..|rows| - 1], p), rows[|rows| - 1];
    if Matches(last, p) && (best.None? || Weight(last) < Weight(best.value)) then Some(last) else best
  }

  lemma MatchesIsContainment(r: Range, p: Position)
    ensures Matches(r, p) <==> AtOrBefore(r.start, p) && AtOrBefore(p, r.end)
  {
  }

  ghost predicate StrictlyInside(a: Range, b: Range) {
    AtOrBefore(b.start, a.start) && AtOrBefore(a.end, b.end) && a != b
  }

  ghost predicate ColumnsBelow(r: Range, limit: nat) { r.start.col < limit && r.end.col < limit }

  lemma InnerIsLighter(a: Range, b: Range)
    requires ColumnsBelow(a, 1000) && ColumnsBelow(b, 1000) && StrictlyInside(a, b)
    ensures Weight(a) < Weight(b)
  {
  }

  /** The weights order nested ranges as documented exactly up to a thousand columns. */
  lemma ThousandColumnsIff(limit: nat)
    ensures (forall a, b :: ColumnsBelow(a, limit) && ColumnsBelow(b, limit) && StrictlyInside(a, b) ==>
      Weight(a) < Weight(b))
      <==> limit <= 1000
  {
    if limit <= 1000 {
      forall a, b | ColumnsBelow(a, limit) && ColumnsBelow(b, limit) && StrictlyInside(a, b)
        ensures Weight(a) < Weight(b)
      {
        InnerIsLighter(a, b);
      }
    } else {
      var a, b := Range(Position(1, 0), Position(1, 1000)), Range(Position(1, 0), Position(2, 0));
      assert StrictlyInside(a, b) && ColumnsBelow(a, limit) && ColumnsBelow(b, limit);
      assert Weight(a) == Weight(b);
    }
  }

  lemma {:induction false} SymbolAtIsLightest(rows: seq<Range>, p: Position)
    ensures SymbolAt(rows, p).None? <==> forall r :: r in rows ==> !Matches(r, p)
    ensures SymbolAt(rows, p).Some? ==> SymbolAt(rows, p).value in rows && Matches(SymbolAt(rows, p).value, p)
    ensures SymbolAt(rows, p).Some? ==> forall r :: r in rows && Matches(r, p) ==>
      Weight(SymbolAt(rows, p).value) <= Weight(r)
  {
    if rows != [] {
      var rest, last := rows[..|rows| - 1], rows[|rows| - 1];
      SymbolAtIsLightest(rest, p);
      assert rows == rest + [last];
    }
  }

  /** There is an answer exactly when a range contains the cursor, and no other match lies strictly inside it. */
  lemma SymbolAtIsInnermost(rows: seq<Range>, p: Position)
    requires forall r :: r in rows ==> ColumnsBelow(r, 1000)
    ensures SymbolAt(rows, p).Some? <==> exists r :: r in rows && AtOrBefore(r.start, p) && AtOrBefore(p, r.end)
    ensures SymbolAt(rows, p).Some? ==> forall r :: r in rows && Matches(r, p) ==>
      !StrictlyInside(r, SymbolAt(rows, p).value)
  {
    SymbolAtIsLightest(rows, p);
    forall r | r in rows ensures Matches(r, p) <==> AtOrBefore(r.start, p) && AtOrBefore(p, r.end) {
      MatchesIsContainment(r, p);
    }
    if SymbolAt(rows, p).Some? {
      forall r | r in rows && Matches(r, p) ensures !StrictlyInside(r, SymbolAt(rows, p).value) {
        if StrictlyInside(r, SymbolAt(rows, p).value) { InnerIsLighter(r, SymbolAt(rows, p).value); }
      }
    }
  }

  ghost predicate AllBelow(rows: seq<Range>, limit: nat) {
    forall r :: r in rows ==> ColumnsBelow(r, limit)
  }

  /** The answer, if there is one, has no other match strictly inside it. */
  ghost predicate Innermost(rows: seq<Range>, p: Position) {
    SymbolAt(rows, p).Some? ==>
      forall r :: r in rows && Matches(r, p) ==> !StrictlyInside(r, SymbolAt(rows, p).value)
  }

  /** Two nested ranges of equal weight: the outer one comes first and is returned. */
  lemma OuterIsReturned()
    ensures var inner, outer := Range(Position(1, 0), Position(1, 1000)), Range(Position(1, 0), Position(2, 0));
      && SymbolAt([outer, inner], Position(1, 5)) == Some(outer)
      && Matches(inner, Position(1, 5)) && StrictlyInside(inner, outer)
  {
    var inner, outer := Range(Position(1, 0), Position(1, 1000)), Range(Position(1, 0), Position(2, 0));
    var rows, p := [outer, inner], Position(1, 5);
    assert rows[..1] == [outer] && [outer][..0] == [];
    assert SymbolAt([outer], p) == Some(outer);
    assert Weight(outer) == Weight(inner) == 1000;
  }

  /** The lookup returns an innermost symbol, for all rows and cursors, exactly up to a thousand columns. */
  lemma InnermostIff(limit: nat)
    ensures (forall rows, p :: AllBelow(rows, limit) ==> Innermost(rows, p)) <==> limit <= 1000
  {
    if limit <= 1000 {
      forall rows, p | AllBelow(rows, limit) ensures Innermost(rows, p) {
        SymbolAtIsInnermost(rows, p);
      }
    } else {
      var inner, outer := Range(Position(1, 0), Position(1, 1000)), Range(Position(1, 0), Position(2, 0));
      OuterIsReturned();
      assert AllBelow([outer, inner], limit) && !Innermost([outer, inner], Position(1, 5)) by {
        assert inner in [outer, inner];
      }
    }
  }
}
