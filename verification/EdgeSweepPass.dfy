/**
 The sweep as written: one loop that reads the table and fills a plan, one that
 applies it, with the counters of the report.
 */
module EdgeSweepPass {
  import opened Prelude
  import CW = CrossWorkspace
  import opened EdgeSweep
  import opened EdgeSweepTheorems

  datatype Report = Report(
    resolved: nat, viaReceiverType: nat, viaTraitDispatch: nat, viaBuiltinTraitMethod: nat,
    stillUnresolved: nat, duplicateSkipped: nat)

  function CountUnresolved(edges: seq<Edge>): nat {
    if edges == [] then 0 else
    CountUnresolved(edges[..|edges| - 1]) + (if edges[|edges| - 1].toUnresolved.Some? then 1 else 0)
  }

  /** What the resolver says of each of the first `n` edges. */
  ghost function Answers(w: World, edges: seq<Edge>, n: nat): seq<Option<Answer>>
    requires n <= |edges|
  {
    if n == 0 then [] else
    Answers(w, edges, n - 1) + [if edges[n - 1].toUnresolved.Some? then Resolve(w, edges, edges[n - 1]) else None]
  }

  /** How many answers come from a tier. */
  function CountTier(answers: seq<Option<Answer>>, tier: Tier): nat {
    if answers == [] then 0 else
    var last := answers[|answers| - 1];
    CountTier(answers[..|answers| - 1], tier) + (if last.Some? && last.value.tier == tier then 1 else 0)
  }

  lemma CountTierSnoc(answers: seq<Option<Answer>>, a: Option<Answer>, tier: Tier)
    ensures CountTier(answers + [a], tier) == CountTier(answers,
      tier) + (if a.Some? && a.value.tier == tier then 1 else 0)
  {
    assert (answers + [a])[..|answers|] == answers;
  }

  ghost predicate CountsTiers(report: Report, answers: seq<Option<Answer>>) {
    && report.viaReceiverType == CountTier(answers, ReceiverType)
    && report.viaTraitDispatch == CountTier(answers, TraitDispatch)
    && report.viaBuiltinTraitMethod == CountTier(answers, BuiltinTraitMethod)
  }

  /** The counter of the tier that answered. */
  method Tally(report: Report, answer: Answer, ghost answers: seq<Option<Answer>>) returns (r: Report)
    requires CountsTiers(report, answers)
    ensures CountsTiers(r, answers + [Some(answer)])
    ensures r.stillUnresolved == report.stillUnresolved
    ensures r.resolved == report.resolved && r.duplicateSkipped == report.duplicateSkipped
  {
    CountTierSnoc(answers, Some(answer), ReceiverType);
    CountTierSnoc(answers, Some(answer), TraitDispatch);
    CountTierSnoc(answers, Some(answer), BuiltinTraitMethod);
    match answer.tier {
      case ReceiverType => r := report.(viaReceiverType := report.viaReceiverType + 1);
      case TraitDispatch => r := report.(viaTraitDispatch := report.viaTraitDispatch + 1);
      case BuiltinTraitMethod => r := report.(viaBuiltinTraitMethod := report.viaBuiltinTraitMethod + 1);
      case SuffixChain => r := report;
    }
  }

  lemma NotCounted(report: Report, answers: seq<Option<Answer>>)
    requires CountsTiers(report, answers)
    ensures CountsTiers(report, answers + [None])
  {
    CountTierSnoc(answers, None, ReceiverType);
    CountTierSnoc(answers, None, TraitDispatch);
    CountTierSnoc(answers, None, BuiltinTraitMethod);
  }

  method TryResolveViaTraitDispatch(w: World, edges: seq<Edge>, receiver: string, method_: string)
    returns (r: Option<int>)
    ensures r == ViaTraitDispatch(w, edges, receiver, method_)
  {
    var traits := Traits(w, edges, receiver);
    for k := 0 to |traits|
      invariant FirstTraitMethod(w, traits, method_) == FirstTraitMethod(w, traits[k..], method_)
    {
      var found := LookupSymbolId(w.symbols, traits[k] + "::" + method_);
      assert traits[k..][1..] == traits[k + 1..];
      if found.Some? {
        return found;
      }
    }
    r := None;
  }

  /** The first three tiers, tried for calls with a known receiver. */
  method TryReceiverTiers(w: World, edges: seq<Edge>, e: Edge) returns (r: Option<Answer>)
    requires e.toUnresolved.Some? && e.kind == "CALLS" && e.receiverType.Some?
    ensures r.Some? ==> Resolve(w, edges, e) == r && r.value.tier != SuffixChain
    ensures r.None? ==> Resolve(w, edges, e) == Resolve(w, edges, e.(receiverType := None))
  {
    var receiver, name := e.receiverType.value, e.toUnresolved.value;
    var direct := ViaReceiverType(w, receiver, name);
    if direct.Some? {
      return Some(Answer(direct.value, ReceiverType));
    }
    var dispatched := TryResolveViaTraitDispatch(w, edges, receiver, name);
    if dispatched.Some? {
      return Some(Answer(dispatched.value, TraitDispatch));
    }
    var builtin := ViaBuiltinTraitMethod(w, name);
    if builtin.Some? {
      return Some(Answer(builtin.value, BuiltinTraitMethod));
    }
    r := None;
  }

  type Cache = map<string, Option<int>>

  ghost predicate CacheOk(w: World, cache: Cache) {
    forall f :: f in cache ==> cache[f] == LookupSymbolId(w.symbols, f)
  }

  /** The legacy tier, through the memo of names already looked up. */
  method TrySuffixChain(w: World, name: string, cache: Cache) returns (r: Option<int>, memo: Cache)
    requires CacheOk(w, cache)
    ensures r == ViaSuffixChain(w, name) && CacheOk(w, memo)
  {
    memo := cache;
    var lookup := CW.ResolveWithSuffixChain(w.resolver, name);
    if lookup.None? || !lookup.value.Hit? {
      return None, memo;
    }
    var fqdn := lookup.value.fqdn;
    if fqdn in memo {
      r := memo[fqdn];
    } else {
      r := LookupSymbolId(w.symbols, fqdn);
      memo := memo[fqdn := r];
    }
  }

  method ResolveEdge(w: World, edges: seq<Edge>, e: Edge, cache: Cache) returns (r: Option<Answer>, memo: Cache)
    requires e.toUnresolved.Some? && CacheOk(w, cache)
    ensures r == Resolve(w, edges, e) && CacheOk(w, memo)
  {
    memo := cache;
    if e.kind == "CALLS" && e.receiverType.Some? {
      r := TryReceiverTiers(w, edges, e);
      if r.Some? {
        return;
      }
    }
    var found: Option<int>;
    found, memo := TrySuffixChain(w, e.toUnresolved.value, memo);
    r := if found.Some? then Some(Answer(found.value, SuffixChain)) else None;
  }

  /** The first loop: read the whole table, write nothing. */
  method ComputeUpdates(w: World, edges: seq<Edge>) returns (plan: seq<Update>, report: Report)
    ensures plan == Planned(w, edges, |edges|)
    ensures report.stillUnresolved + |plan| == CountUnresolved(edges)
    ensures CountsTiers(report, Answers(w, edges, |edges|))
    ensures report.resolved == report.duplicateSkipped == 0
  {
    plan, report := [], Report(0, 0, 0, 0, 0, 0);
    var cache: Cache := map[];
    for k := 0 to |edges|
      invariant plan == Planned(w, edges, k) && CacheOk(w, cache)
      invariant report.stillUnresolved + |plan| == CountUnresolved(edges[..k])
      invariant CountsTiers(report, Answers(w, edges, k))
      invariant report.resolved == report.duplicateSkipped == 0
    {
      assert edges[..k + 1][..k] == edges[..k];
      ghost var before := Answers(w, edges, k);
      if edges[k].toUnresolved.Some? {
        var answer: Option<Answer>;
        answer, cache := ResolveEdge(w, edges, edges[k], cache);
        assert Answers(w, edges, k + 1) == before + [answer];
        if answer.None? {
          NotCounted(report, before);
          report := report.(stillUnresolved := report.stillUnresolved + 1);
        } else {
          plan := plan + [Update(k, answer.value.symbolId)];
          report := Tally(report, answer.value, before);
        }
      } else {
        NotCounted(report, before);
      }
    }
    assert edges[..|edges|] == edges;
  }

  class EdgeTable {
    var edges: seq<Edge>

    constructor (rows: seq<Edge>)
      ensures edges == rows
    {
      edges := rows;
    }

    method ApplyUpdates(plan: seq<Update>, unique: bool) returns (resolved: nat, skipped: nat)
      requires Fresh(edges, plan)
      modifies this
      ensures Fresh(old(edges), plan) && edges == ApplyAll(old(edges), plan, unique)
      ensures resolved + skipped == |plan|
      ensures CountUnresolved(edges) + resolved == CountUnresolved(old(edges))
    {
      ghost var start := edges;
      resolved, skipped := 0, 0;
      for k := 0 to |plan|
        invariant edges == ApplyAll(start, plan[..k], unique)
        invariant resolved + skipped == k
        invariant CountUnresolved(edges) + resolved == CountUnresolved(start)
      {
        assert plan[..k + 1][..k] == plan[..k];
        ApplyAllProgresses(start, plan[..k], unique);
        var u := plan[k];
        if unique && Collides(edges, u.edge, u.symbolId) {
          skipped := skipped + 1;
        } else {
          assert edges[u.edge] == start[u.edge];
          OneFewer(edges, u.edge, edges[u.edge].(toSymbolId := Some(u.symbolId), toUnresolved := None));
          edges := edges[u.edge := edges[u.edge].(toSymbolId := Some(u.symbolId), toUnresolved := None)];
          resolved := resolved + 1;
        }
      }
      assert plan[..|plan|] == plan;
    }

    /**
     One sweep. The report accounts for every edge that was unresolved at the start,
     and `resolved` is exactly how many fewer are unresolved at the end.
     */
    method ApplyResolveUnresolved(w: World, unique: bool) returns (report: Report)
      requires Checked(edges)
      modifies this
      ensures edges == Sweep(w, old(edges), unique) && Checked(edges) && Progresses(old(edges), edges)
      ensures report.resolved + report.duplicateSkipped + report.stillUnresolved == CountUnresolved(old(edges))
      ensures CountUnresolved(edges) == report.duplicateSkipped + report.stillUnresolved
      ensures CountsTiers(report, Answers(w, old(edges), |old(edges)|))
      ensures !unique ==> report.duplicateSkipped == 0
    {
      ghost var start := edges;
      PlanIsFresh(w, edges);
      SweepDecides(w, edges, unique);
      var plan;
      plan, report := ComputeUpdates(w, edges);
      var resolved, skipped := ApplyUpdates(plan, unique);
      report := report.(resolved := resolved, duplicateSkipped := skipped);
      if !unique {
        NothingSkipped(w, start, edges);
      }
    }

    lemma NothingSkipped(w: World, before: seq<Edge>, after: seq<Edge>)
      requires Checked(before) && after == Sweep(w, before, false)
      ensures CountUnresolved(after) + |Planned(w, before, |before|)| == CountUnresolved(before)
    {
      PlanIsFresh(w, before);
      AllApplied(before, Planned(w, before, |before|));
    }
  }

  lemma {:induction false} AllApplied(edges: seq<Edge>, plan: seq<Update>)
    requires Fresh(edges, plan)
    ensures CountUnresolved(ApplyAll(edges, plan, false)) + |plan| == CountUnresolved(edges)
  {
    if plan != [] {
      var rest, last := plan[..|plan| - 1], plan[|plan| - 1];
      AllApplied(edges, rest);
      ApplyAllProgresses(edges, rest, false);
      var before := ApplyAll(edges, rest, false);
      assert before[last.edge] == edges[last.edge];
      OneFewer(before, last.edge, before[last.edge].(toSymbolId := Some(last.symbolId), toUnresolved := None));
    }
  }

  lemma {:induction false} OneFewer(edges: seq<Edge>, k: nat, e: Edge)
    requires k < |edges| && edges[k].toUnresolved.Some? && e.toUnresolved.None?
    ensures CountUnresolved(edges[k := e]) + 1 == CountUnresolved(edges)
  {
    var n := |edges| - 1;
    if k == n {
      assert edges[k := e][..n] == edges[..n];
    } else {
      OneFewer(edges[..n], k, e);
      assert edges[k := e][..n] == edges[..n][k := e];
    }
  }

  // ---- one sweep is not always enough ----

  function PeerAnswer(mod: string, symbol: string): CW.Lookup {
    if mod == "p" && symbol == "T" then CW.Hit("w", "T") else CW.Unknown
  }

  function NeverLike(pattern: string, fqdn: string): bool { false }

  const TYPE_S := Symbol(1, "S", "S", "")
  const TRAIT_T := Symbol(2, "T", "T", "")
  const METHOD_M := Symbol(3, "T::m", "m", "")

  /** A type that implements a trait from a peer, and a call of the trait's method on it. */
  const SMALL_WORLD := World([TYPE_S, TRAIT_T, METHOD_M], NeverLike, PeerAnswer)
  const CALL := Edge(1, "CALLS", None, Some("m"), Some("S"))
  const IMPL := Edge(1, "IMPLEMENTS", None, Some("p::T"), None)
  const IMPL_DONE := Edge(1, "IMPLEMENTS", Some(2), None, None)

  lemma LookupInThree(fqdn: string)
    ensures LookupSymbolId(SMALL_WORLD.symbols, fqdn) ==
      (if fqdn == "S" then Some(1) else if fqdn == "T" then Some(2) else if fqdn == "T::m" then Some(3) else None)
  {
    assert SMALL_WORLD.symbols[1..] == [TRAIT_T, METHOD_M];
    assert [TRAIT_T, METHOD_M][1..] == [METHOD_M];
    assert [METHOD_M][1..] == [];
    assert LookupSymbolId([METHOD_M], fqdn) == if fqdn == "T::m" then Some(3) else None;
    assert LookupSymbolId([TRAIT_T, METHOD_M], fqdn) == if fqdn == "T" then Some(2) else LookupSymbolId([METHOD_M],
      fqdn);
  }

  lemma Lookups()
    ensures LookupSymbolId(SMALL_WORLD.symbols, "S::m").None?
    ensures LookupSymbolId(SMALL_WORLD.symbols, "<builtin>::rust::S::m").None?
    ensures LookupSymbolId(SMALL_WORLD.symbols, "T") == Some(2)
    ensures LookupSymbolId(SMALL_WORLD.symbols, "T::m") == Some(3)
  {
    LookupInThree("S::m");
    LookupInThree("<builtin>::rust::S::m");
    LookupInThree("T");
    LookupInThree("T::m");
    assert "S::m"[0] == 'S' && "T::m"[0] == 'T';
  }

  lemma {:induction false} NothingMatches(symbols: seq<Symbol>, pattern: string, method_: string)
    ensures SuffixMatches(SMALL_WORLD, symbols, pattern) == []
    ensures LeastBuiltin(SMALL_WORLD, symbols, method_) == None
  {
    if symbols != [] {
      NothingMatches(symbols[1..], pattern, method_);
      NothingMatches(symbols[..|symbols| - 1], pattern, method_);
    }
  }

  /** The call has no inherent method, no builtin trait method and no path to a peer. */
  lemma CallNeedsTheTrait()
    ensures ViaReceiverType(SMALL_WORLD, "S", "m").None?
    ensures ViaBuiltinTraitMethod(SMALL_WORLD, "m").None?
    ensures ViaSuffixChain(SMALL_WORLD, "m").None?
  {
    Lookups();
    assert "S" + "::" + "m" == "S::m";
    assert "<builtin>::rust::" + "S::m" == "<builtin>::rust::S::m";
    NothingMatches(SMALL_WORLD.symbols, "%::" + "S::m", "m");
    assert |CW.Split("m")| == 1;
  }

  lemma PeerTraitResolves()
    ensures ViaSuffixChain(SMALL_WORLD, "p::T") == Some(2)
  {
    Lookups();
    var segments := CW.Split("p::T");
    assert segments == ["p", "T"] by {
      assert "p::T"[1..] == "::T" && "::T"[2..] == "T";
      assert CW.Split("T") == ["T"];
      assert CW.Split("::T") == ["", "T"];
      assert ["", "T"][1..] == ["T"];
      assert ['p'] + "" == "p";
    }
    assert CW.Ask(SMALL_WORLD.resolver, segments, 1) == CW.Hit("w", "T");
  }

  lemma TraitsThen(edges: seq<Edge>)
    requires edges == [CALL, IMPL] || edges == [CALL, IMPL_DONE]
    ensures Traits(SMALL_WORLD, edges, "S") == (if edges[1] == IMPL then [] else ["T"])
  {
    assert edges[..1] == [CALL] && [CALL][..0] == [];
    assert Traits(SMALL_WORLD, [CALL], "S") == [];
    assert SMALL_WORLD.symbols[1..] == [TRAIT_T, METHOD_M];
    assert FqdnOf(SMALL_WORLD.symbols, 1) == Some("S");
    assert FqdnOf(SMALL_WORLD.symbols, 2) == FqdnOf([TRAIT_T, METHOD_M], 2) == Some("T");
    assert InsertName([], "T") == ["T"];
  }

  /** The first sweep resolves the trait but not the call that needs it. */
  lemma FirstSweep(unique: bool)
    ensures Sweep(SMALL_WORLD, [CALL, IMPL], unique) == [CALL, IMPL_DONE]
  {
    var edges := [CALL, IMPL];
    CallNeedsTheTrait();
    PeerTraitResolves();
    TraitsThen(edges);
    assert Resolve(SMALL_WORLD, edges, CALL).None?;
    assert Planned(SMALL_WORLD, edges, 1) == [];
    var plan := Planned(SMALL_WORLD, edges, 2);
    assert plan == [Update(1, 2)];
    assert plan[..0] == [];
    assert ApplyAll(edges, [], unique) == edges;
  }

  /** So a second sweep finds work: one sweep is not idempotent. */
  lemma OneSweepIsNotEnough(unique: bool)
    ensures Checked([CALL, IMPL])
    ensures var u := Sweep(SMALL_WORLD, [CALL, IMPL], unique); Sweep(SMALL_WORLD, u, unique) != u
  {
    var u := [CALL, IMPL_DONE];
    FirstSweep(unique);
    CallNeedsTheTrait();
    TraitsThen(u);
    Lookups();
    assert "T" + "::" + "m" == "T::m";
    assert FirstTraitMethod(SMALL_WORLD, ["T"], "m") == Some(3);
    assert Overlooked(SMALL_WORLD, u, 0, unique);
    SecondSweepIff(SMALL_WORLD, [CALL, IMPL], unique);
  }
}
