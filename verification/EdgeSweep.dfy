/**
 The sweep over unresolved edges: a tiered resolver reads the whole table first,
 and the rewrites are applied afterwards, in place.

 An edge is its position in the table, and symbols are listed in row order, which
 is the order a query without ORDER BY answers in here.
 */
module EdgeSweep {
  import opened Prelude
  import CW = CrossWorkspace

  datatype Symbol = Symbol(id: int, fqdn: string, name: string, flags: string)

  /** The two target columns of the edges table; a check constraint keeps exactly one of them set. */
  datatype Edge = Edge(
    from: int, kind: string, toSymbolId: Option<int>, toUnresolved: Option<string>, receiverType: Option<string>)

  predicate OneTarget(e: Edge) { e.toSymbolId.Some? != e.toUnresolved.Some? }

  predicate Checked(edges: seq<Edge>) {
    forall k :: 0 <= k < |edges| ==> OneTarget(edges[k])
  }

  /** What a sweep reads but never writes. `like(pattern, fqdn)` is SQL's LIKE. */
  datatype World = World(symbols: seq<Symbol>, like: (string, string) -> bool, resolver: CW.Resolver)

  // ---- lookups in the symbols table ----

  /** `SELECT id FROM symbols WHERE fqdn = ? LIMIT 1` */
  function LookupSymbolId(symbols: seq<Symbol>, fqdn: string): Option<int> {
    if symbols == [] then None
    else if symbols[0].fqdn == fqdn then Some(symbols[0].id)
    else LookupSymbolId(symbols[1..], fqdn)
  }

  /** `SELECT fqdn FROM symbols WHERE id = ?` */
  function FqdnOf(symbols: seq<Symbol>, id: int): Option<string> {
    if symbols == [] then None
    else if symbols[0].id == id then Some(symbols[0].fqdn)
    else FqdnOf(symbols[1..], id)
  }

  const BUILTIN_PATTERN := "<builtin>::%"

  /** The workspace symbols a nominal suffix matches. */
  function SuffixMatches(w: World, symbols: seq<Symbol>, pattern: string): seq<int> {
    if symbols == [] then [] else
    (if w.like(pattern, symbols[0].fqdn) && !w.like(BUILTIN_PATTERN, symbols[0].fqdn) then [symbols[0].id] else [])
    + SuffixMatches(w, symbols[1..], pattern)
  }

  predicate IsPath(s: string) {
    exists k :: 0 <= k < |s| - 1 && s[k] == ':' && s[k + 1] == ':'
  }

  // ---- the tiers ----

  function ViaReceiverType(w: World, receiver: string, method_: string): Option<int> {
    var candidate := receiver + "::" + method_;
    var exact := LookupSymbolId(w.symbols, candidate);
    if exact.Some? then exact else
    var matches := SuffixMatches(w, w.symbols, "%::" + candidate);
    if !IsPath(receiver) && |matches| == 1 then Some(matches[0])
    else LookupSymbolId(w.symbols, "<builtin>::rust::" + candidate)
  }

  /** Byte order on names, the order of ORDER BY. */
  predicate Before(a: string, b: string) {
    if a == "" then b != ""
    else if b == "" then false
    else a[0] < b[0] || (a[0] == b[0] && Before(a[1..], b[1..]))
  }

  function InsertName(names: seq<string>, name: string): seq<string> {
    if names == [] || Before(name, names[0]) then [name] + names
    else if names[0] == name then names
    else [names[0]] + InsertName(names[1..], name)
  }

  /** The source of an IMPLEMENTS edge that a receiver type may stand for. */
  predicate StandsFor(w: World, receiver: string, source: string) {
    && !w.like(BUILTIN_PATTERN, source)
    && (source == receiver || (!IsPath(receiver) && w.like("%::" + receiver, source)))
  }

  /** The trait an edge says the receiver implements, if it says so. */
  function TraitOf(w: World, receiver: string, e: Edge): Option<string> {
    if e.kind != "IMPLEMENTS" || e.toSymbolId.None? then None else
    var source, target := FqdnOf(w.symbols, e.from), FqdnOf(w.symbols, e.toSymbolId.value);
    if source.Some? && target.Some? && StandsFor(w, receiver, source.value) then target else None
  }

  /** Distinct, in order. */
  function Traits(w: World, edges: seq<Edge>, receiver: string): seq<string> {
    if edges == [] then [] else
    var rest := Traits(w, edges[..|edges| - 1], receiver);
    var t := TraitOf(w, receiver, edges[|edges| - 1]);
    if t.Some? then InsertName(rest, t.value) else rest
  }

  function FirstTraitMethod(w: World, traits: seq<string>, method_: string): Option<int> {
    if traits == [] then None else
    var found := LookupSymbolId(w.symbols, traits[0] + "::" + method_);
    if found.Some? then found else FirstTraitMethod(w, traits[1..], method_)
  }

  function ViaTraitDispatch(w: World, edges: seq<Edge>, receiver: string, method_: string): Option<int> {
    FirstTraitMethod(w, Traits(w, edges, receiver), method_)
  }

  predicate IsBuiltinTraitMethod(w: World, s: Symbol, method_: string) {
    && w.like("<builtin>::rust::%::" + method_, s.fqdn)
    && s.name == method_
    && w.like("%\"trait_method\"%", s.flags)
  }

  /** The first such symbol in the order of names. */
  function LeastBuiltin(w: World, symbols: seq<Symbol>, method_: string): Option<Symbol> {
    if symbols == [] then None else
    var best, last := LeastBuiltin(w, symbols[..|symbols| - 1], method_), symbols[|symbols| - 1];
    if !IsBuiltinTraitMethod(w, last, method_) then best
    else if best.Some? && !Before(last.fqdn, best.value.fqdn) then best
    else Some(last)
  }

  function ViaBuiltinTraitMethod(w: World, method_: string): Option<int> {
    var best := LeastBuiltin(w, w.symbols, method_);
    if best.Some? then Some(best.value.id) else None
  }

  ghost function ViaSuffixChain(w: World, name: string): Option<int> {
    var r := CW.Chain(w.resolver, name);
    if r.Some? && r.value.Hit? then LookupSymbolId(w.symbols, r.value.fqdn) else None
  }

  datatype Tier = ReceiverType | TraitDispatch | BuiltinTraitMethod | SuffixChain

  datatype Answer = Answer(symbolId: int, tier: Tier)

  /** The first tier that answers; only calls with a known receiver try the first three. */
  ghost function Resolve(w: World, edges: seq<Edge>, e: Edge): Option<Answer>
    requires e.toUnresolved.Some?
  {
    var name := e.toUnresolved.value;
    var called := e.kind == "CALLS" && e.receiverType.Some?;
    if called && ViaReceiverType(w, e.receiverType.value, name).Some? then
      Some(Answer(ViaReceiverType(w, e.receiverType.value, name).value, ReceiverType))
    else if called && ViaTraitDispatch(w, edges, e.receiverType.value, name).Some? then
      Some(Answer(ViaTraitDispatch(w, edges, e.receiverType.value, name).value, TraitDispatch))
    else if called && ViaBuiltinTraitMethod(w, name).Some? then
      Some(Answer(ViaBuiltinTraitMethod(w, name).value, BuiltinTraitMethod))
    else if ViaSuffixChain(w, name).Some? then
      Some(Answer(ViaSuffixChain(w, name).value, SuffixChain))
    else
      None
  }

  // ---- the plan and its application ----

  datatype Update = Update(edge: nat, symbolId: int)

  /** The updates for the first `n` edges, in table order. */
  ghost function Planned(w: World, edges: seq<Edge>, n: nat): (plan: seq<Update>)
    requires n <= |edges|
    ensures forall k :: 0 <= k < |plan| ==> plan[k].edge < n
  {
    if n == 0 then [] else
    var rest, e := Planned(w, edges, n - 1), edges[n - 1];
    if e.toUnresolved.None? then rest else
    var answer := Resolve(w, edges, e);
    if answer.Some? then rest + [Update(n - 1, answer.value.symbolId)] else rest
  }

  /** Another edge already is what this one would become. */
  predicate Collides(edges: seq<Edge>, k: nat, symbolId: int)
    requires k < |edges|
  {
    exists j :: 0 <= j < |edges| && j != k && edges[j].from == edges[k].from && edges[j].kind == edges[k].kind
      && edges[j].toSymbolId == Some(symbolId)
  }

  /**
   `UPDATE OR IGNORE`: with a unique index on (from, kind, to) a colliding row is
   left as it is. The shipped schema has no such index, the pass is written for one.
   */
  ghost function ApplyOne(edges: seq<Edge>, u: Update, unique: bool): (r: seq<Edge>)
    requires u.edge < |edges|
    ensures |r| == |edges|
  {
    if unique && Collides(edges, u.edge, u.symbolId) then edges
    else edges[u.edge := edges[u.edge].(toSymbolId := Some(u.symbolId), toUnresolved := None)]
  }

  ghost function ApplyAll(edges: seq<Edge>, plan: seq<Update>, unique: bool): (r: seq<Edge>)
    requires forall k :: 0 <= k < |plan| ==> plan[k].edge < |edges|
    ensures |r| == |edges|
  {
    if plan == [] then edges else
    ApplyOne(ApplyAll(edges, plan[..|plan| - 1], unique), plan[|plan| - 1], unique)
  }

  ghost function Sweep(w: World, edges: seq<Edge>, unique: bool): (r: seq<Edge>)
    ensures |r| == |edges|
  {
    ApplyAll(edges, Planned(w, edges, |edges|), unique)
  }

  // ---- what a sweep may change ----

  /** An edge either stays, or goes from unresolved to resolved and changes nothing else. */
  ghost predicate Progress(a: Edge, b: Edge) {
    || b == a
    || (a.toUnresolved.Some? && b.toSymbolId.Some? && b == a.(toSymbolId := b.toSymbolId, toUnresolved := None))
  }

  ghost predicate Progresses(a: seq<Edge>, b: seq<Edge>) {
    |a| == |b| && forall k :: 0 <= k < |a| ==> Progress(a[k], b[k])
  }

  lemma {:induction false} PlannedMembers(w: World, edges: seq<Edge>, n: nat, u: Update)
    requires n <= |edges|
    ensures u in Planned(w, edges, n) <==>
      && u.edge < n && edges[u.edge].toUnresolved.Some?
      && Resolve(w, edges, edges[u.edge]).Some?
      && Resolve(w, edges, edges[u.edge]).value.symbolId == u.symbolId
  {
    if n > 0 {
      PlannedMembers(w, edges, n - 1, u);
    }
  }

  lemma {:induction false} PlannedIncreases(w: World, edges: seq<Edge>, n: nat)
    requires n <= |edges|
    ensures forall j, k :: 0 <= j < k < |Planned(w, edges, n)| ==>
      Planned(w, edges, n)[j].edge < Planned(w, edges, n)[k].edge
  {
    if n > 0 {
      PlannedIncreases(w, edges, n - 1);
    }
  }

  /** Updates of distinct, so far unresolved edges. */
  ghost predicate Fresh(edges: seq<Edge>, plan: seq<Update>) {
    && (forall k :: 0 <= k < |plan| ==> plan[k].edge < |edges| && edges[plan[k].edge].toUnresolved.Some?)
    && (forall j, k :: 0 <= j < k < |plan| ==> plan[j].edge != plan[k].edge)
  }

  lemma {:induction false} ApplyAllProgresses(edges: seq<Edge>, plan: seq<Update>, unique: bool)
    requires Fresh(edges, plan)
    ensures Progresses(edges, ApplyAll(edges, plan, unique))
    ensures forall k :: 0 <= k < |edges| && (forall j :: 0 <= j < |plan| ==> plan[j].edge != k) ==>
      ApplyAll(edges, plan, unique)[k] == edges[k]
  {
    if plan != [] {
      var rest := plan[..|plan| - 1];
      ApplyAllProgresses(edges, rest, unique);
    }
  }

  /** A collision found during a sweep is still there at its end. */
  lemma CollisionStays(a: seq<Edge>, b: seq<Edge>, k: nat, symbolId: int)
    requires Progresses(a, b) && Checked(a) && k < |a| && Collides(a, k, symbolId)
    ensures Collides(b, k, symbolId)
  {
    var j :| 0 <= j < |a| && j != k && a[j].from == a[k].from && a[j].kind == a[k].kind
      && a[j].toSymbolId == Some(symbolId);
    assert Progress(a[j], b[j]) && Progress(a[k], b[k]);
  }

  lemma ProgressKeepsChecks(a: seq<Edge>, b: seq<Edge>)
    requires Progresses(a, b) && Checked(a)
    ensures Checked(b)
  {
    forall k | 0 <= k < |b| ensures OneTarget(b[k]) {
      assert Progress(a[k], b[k]);
    }
  }

  /** Every planned edge ends up rewritten, or colliding. */
  lemma {:induction false} ApplyAllDecides(edges: seq<Edge>, plan: seq<Update>, unique: bool, n: nat)
    requires Fresh(edges, plan) && Checked(edges) && n < |plan|
    ensures var r := ApplyAll(edges, plan, unique);
      || r[plan[n].edge] == edges[plan[n].edge].(toSymbolId := Some(plan[n].symbolId), toUnresolved := None)
      || (unique && r[plan[n].edge] == edges[plan[n].edge] && Collides(r, plan[n].edge, plan[n].symbolId))
  {
    var rest, last := plan[..|plan| - 1], plan[|plan| - 1];
    ApplyAllProgresses(edges, rest, unique);
    var before, after := ApplyAll(edges, rest, unique), ApplyAll(edges, plan, unique);
    if n < |rest| {
      ApplyAllDecides(edges, rest, unique, n);
      if after != before {
        OneUpdateProgresses(edges, before, last, unique);
        ProgressKeepsChecks(edges, before);
        if unique && Collides(before, plan[n].edge, plan[n].symbolId) {
          CollisionStays(before, after, plan[n].edge, plan[n].symbolId);
        }
      }
    }
  }

  lemma OneUpdateProgresses(edges: seq<Edge>, before: seq<Edge>, u: Update, unique: bool)
    requires |before| == |edges| && u.edge < |edges| && before[u.edge] == edges[u.edge]
    requires edges[u.edge].toUnresolved.Some?
    ensures Progresses(before, ApplyOne(before, u, unique))
  {
  }
}
