/**
 The diff between the stored rows of one file and a fresh extraction of it.
 */
module SymbolDiff {
  import opened Prelude
  import opened IndexTables

  datatype DbSymbolRow = DbSymbolRow(id: int, fqdn: string, bodyHash: Option<string>)

  datatype DiffPlan = DiffPlan(
    inserts: seq<RawSymbol>,
    modifications: seq<(int, RawSymbol)>,
    positionUpdates: seq<(int, RawSymbol)>,
    deletions: seq<int>)

  /** The row a hash map filled in order ends up with: the last one of that name. */
  function LastRow(existing: seq<DbSymbolRow>, fqdn: string): (r: Option<DbSymbolRow>)
    ensures r.Some? <==> exists k :: 0 <= k < |existing| && existing[k].fqdn == fqdn
    ensures r.Some? ==> r.value in existing && r.value.fqdn == fqdn
  {
    if existing == [] then None
    else
      var last := existing[|existing| - 1];
      if last.fqdn == fqdn then Some(last) else LastRow(existing[..|existing| - 1], fqdn)
  }

  ghost predicate IsExtracted(extracted: seq<RawSymbol>, fqdn: string) {
    exists k :: 0 <= k < |extracted| && extracted[k].fqdn == fqdn
  }

  /** What a plan has to say about every stored row and every extracted symbol. */
  ghost predicate IsDiff(existing: seq<DbSymbolRow>, extracted: seq<RawSymbol>, plan: DiffPlan) {
    && (forall sym :: sym in plan.inserts <==> sym in extracted && LastRow(existing, sym.fqdn).None?)
    && (forall change :: change in plan.modifications <==>
          && change.1 in extracted && LastRow(existing, change.1.fqdn).Some?
          && LastRow(existing, change.1.fqdn).value.id == change.0
          && LastRow(existing, change.1.fqdn).value.bodyHash != change.1.bodyHash)
    && (forall change :: change in plan.positionUpdates <==>
          && change.1 in extracted && LastRow(existing, change.1.fqdn).Some?
          && LastRow(existing, change.1.fqdn).value.id == change.0
          && LastRow(existing, change.1.fqdn).value.bodyHash == change.1.bodyHash)
    && (forall id :: id in plan.deletions <==>
          exists row :: row in existing && row.id == id && !IsExtracted(extracted, row.fqdn))
    && |plan.inserts| + |plan.modifications| + |plan.positionUpdates| == |extracted|
  }

  /** No symbol is planned twice. */
  ghost predicate NoRepeats(plan: DiffPlan) {
    && (forall i, j :: 0 <= i < j < |plan.inserts| ==> plan.inserts[i].fqdn != plan.inserts[j].fqdn)
    && (forall i, j :: 0 <= i < j < |plan.modifications| ==>
          plan.modifications[i].1.fqdn != plan.modifications[j].1.fqdn)
    && (forall i, j :: 0 <= i < j < |plan.positionUpdates| ==>
          plan.positionUpdates[i].1.fqdn != plan.positionUpdates[j].1.fqdn)
  }

  ghost predicate Distinct(extracted: seq<RawSymbol>) {
    forall i, j :: 0 <= i < j < |extracted| ==> extracted[i].fqdn != extracted[j].fqdn
  }

  // ---- the plan, list by list ----

  function Inserts(existing: seq<DbSymbolRow>, extracted: seq<RawSymbol>): seq<RawSymbol> {
    if extracted == [] then [] else
    var sym := extracted[|extracted| - 1];
    Inserts(existing, extracted[..|extracted| - 1]) + (if LastRow(existing, sym.fqdn).None? then [sym] else [])
  }

  /** The known symbols whose hash did (`same`) or did not (`!same`) survive, with their ids. */
  function Known(existing: seq<DbSymbolRow>, extracted: seq<RawSymbol>, same: bool): seq<(int, RawSymbol)> {
    if extracted == [] then [] else
    var sym := extracted[|extracted| - 1];
    var row := LastRow(existing, sym.fqdn);
    Known(existing, extracted[..|extracted| - 1], same)
    + (if row.Some? && (row.value.bodyHash == sym.bodyHash) == same then [(row.value.id, sym)] else [])
  }

  ghost function Deletions(existing: seq<DbSymbolRow>, extracted: seq<RawSymbol>): seq<int> {
    if existing == [] then [] else
    var row := existing[|existing| - 1];
    Deletions(existing[..|existing| - 1], extracted) + (if IsExtracted(extracted, row.fqdn) then [] else [row.id])
  }

  ghost function Diff(existing: seq<DbSymbolRow>, extracted: seq<RawSymbol>): DiffPlan {
    DiffPlan(Inserts(existing, extracted), Known(existing, extracted, false),
             Known(existing, extracted, true), Deletions(existing, extracted))
  }

  method IndexRows(existing: seq<DbSymbolRow>) returns (byFqdn: map<string, DbSymbolRow>)
    ensures forall f :: f in byFqdn <==> LastRow(existing, f).Some?
    ensures forall f :: f in byFqdn ==> LastRow(existing, f) == Some(byFqdn[f])
  {
    byFqdn := map[];
    for k := 0 to |existing|
      invariant forall f :: f in byFqdn <==> LastRow(existing[..k], f).Some?
      invariant forall f :: f in byFqdn ==> LastRow(existing[..k], f) == Some(byFqdn[f])
    {
      assert existing[..k + 1][..k] == existing[..k];
      byFqdn := byFqdn[existing[k].fqdn := existing[k]];
    }
    assert existing[..|existing|] == existing;
  }

  method DiffSymbols(existing: seq<DbSymbolRow>, extracted: seq<RawSymbol>) returns (plan: DiffPlan)
    ensures plan == Diff(existing, extracted)
    ensures IsDiff(existing, extracted, plan)
    ensures Distinct(extracted) ==> NoRepeats(plan)
  {
    var byFqdn := IndexRows(existing);
    plan := DiffPlan([], [], [], []);
    var seen: set<string> := {};
    for k := 0 to |extracted|
      invariant forall f :: f in seen <==> IsExtracted(extracted[..k], f)
      invariant plan == DiffPlan(Inserts(existing, extracted[..k]), Known(existing, extracted[..k], false),
                                 Known(existing, extracted[..k], true), [])
    {
      var sym := extracted[k];
      assert extracted[..k + 1][..k] == extracted[..k];
      ExtractedSoFar(extracted, k);
      seen := seen + {sym.fqdn};
      if sym.fqdn !in byFqdn {
        plan := plan.(inserts := plan.inserts + [sym]);
      } else if sym.bodyHash == byFqdn[sym.fqdn].bodyHash {
        plan := plan.(positionUpdates := plan.positionUpdates + [(byFqdn[sym.fqdn].id, sym)]);
      } else {
        plan := plan.(modifications := plan.modifications + [(byFqdn[sym.fqdn].id, sym)]);
      }
    }
    assert extracted[..|extracted|] == extracted;

    for k := 0 to |existing|
      invariant plan == Diff(existing, extracted).(deletions := Deletions(existing[..k], extracted))
    {
      assert existing[..k + 1][..k] == existing[..k];
      if existing[k].fqdn !in seen {
        plan := plan.(deletions := plan.deletions + [existing[k].id]);
      }
    }
    assert existing[..|existing|] == existing;
    DiffIsDiff(existing, extracted);
    if Distinct(extracted) {
      DiffHasNoRepeats(existing, extracted);
    }
  }

  lemma ExtractedSoFar(extracted: seq<RawSymbol>, k: nat)
    requires k < |extracted|
    ensures forall f :: IsExtracted(extracted[..k + 1], f) <==> IsExtracted(extracted[..k], f) || f == extracted[k].fqdn
  {
    forall f | IsExtracted(extracted[..k], f) || f == extracted[k].fqdn ensures IsExtracted(extracted[..k + 1], f) {
      if IsExtracted(extracted[..k], f) {
        var i :| 0 <= i < k && extracted[..k][i].fqdn == f;
        assert extracted[..k + 1][i].fqdn == f;
      } else {
        assert extracted[..k + 1][k].fqdn == f;
      }
    }
    forall f | IsExtracted(extracted[..k + 1], f) && f != extracted[k].fqdn ensures IsExtracted(extracted[..k], f) {
      var i :| 0 <= i <= k && extracted[..k + 1][i].fqdn == f;
      assert extracted[..k][i].fqdn == f;
    }
  }

  lemma {:induction false} InsertsMembers(existing: seq<DbSymbolRow>, extracted: seq<RawSymbol>)
    ensures forall sym :: sym in Inserts(existing, extracted) <==> sym in extracted && LastRow(existing, sym.fqdn).None?
  {
    if extracted != [] {
      var rest := extracted[..|extracted| - 1];
      InsertsMembers(existing, rest);
      assert extracted == rest + [extracted[|extracted| - 1]];
    }
  }

  lemma {:induction false} KnownMembers(existing: seq<DbSymbolRow>, extracted: seq<RawSymbol>, same: bool)
    ensures forall change :: change in Known(existing, extracted, same) <==>
      && change.1 in extracted && LastRow(existing, change.1.fqdn).Some?
      && LastRow(existing, change.1.fqdn).value.id == change.0
      && (LastRow(existing, change.1.fqdn).value.bodyHash == change.1.bodyHash) == same
  {
    if extracted != [] {
      var rest := extracted[..|extracted| - 1];
      KnownMembers(existing, rest, same);
      assert extracted == rest + [extracted[|extracted| - 1]];
    }
  }

  lemma {:induction false} DeletionsMembers(existing: seq<DbSymbolRow>, extracted: seq<RawSymbol>)
    ensures forall id :: id in Deletions(existing, extracted) <==>
      exists row :: row in existing && row.id == id && !IsExtracted(extracted, row.fqdn)
  {
    if existing != [] {
      var rest := existing[..|existing| - 1];
      DeletionsMembers(rest, extracted);
      assert existing == rest + [existing[|existing| - 1]];
    }
  }

  lemma {:induction false} ListsCoverExtraction(existing: seq<DbSymbolRow>, extracted: seq<RawSymbol>)
    ensures |Inserts(existing, extracted)| + |Known(existing, extracted, false)| + |Known(existing, extracted, true)|
         == |extracted|
  {
    if extracted != [] {
      ListsCoverExtraction(existing, extracted[..|extracted| - 1]);
    }
  }

  /** Every extracted symbol and every stored row lands in exactly one list. */
  lemma DiffIsDiff(existing: seq<DbSymbolRow>, extracted: seq<RawSymbol>)
    ensures IsDiff(existing, extracted, Diff(existing, extracted))
  {
    InsertsMembers(existing, extracted);
    KnownMembers(existing, extracted, true);
    KnownMembers(existing, extracted, false);
    DeletionsMembers(existing, extracted);
    ListsCoverExtraction(existing, extracted);
  }

  lemma {:induction false} DiffHasNoRepeats(existing: seq<DbSymbolRow>, extracted: seq<RawSymbol>)
    requires Distinct(extracted)
    ensures NoRepeats(Diff(existing, extracted))
  {
    if extracted != [] {
      var rest := extracted[..|extracted| - 1];
      var sym := extracted[|extracted| - 1];
      DiffHasNoRepeats(existing, rest);
      assert forall other :: other in rest ==> other.fqdn != sym.fqdn;
      InsertsMembers(existing, rest);
      KnownMembers(existing, rest, true);
      KnownMembers(existing, rest, false);
    }
  }
}
