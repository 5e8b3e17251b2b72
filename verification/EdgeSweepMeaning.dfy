/**
 What the sweep answers, said about the rows of the two tables alone: which symbol each
 tier stands for, that the first tier that has one decides, and what the table holds
 afterwards.
 */
module EdgeSweepMeaning {
  import opened Prelude
  import opened EdgeSweep
  import opened EdgeSweepTheorems
  import opened EdgeSweepOrder
  import opened EdgeSweepPass
  import CW = CrossWorkspace
  import CWM = CrossWorkspaceMeaning

  // ---- rows ----

  /** The first row of that name, which the unique index makes the only one. */
  ghost predicate Named(w: World, fqdn: string, id: int) {
    exists k :: 0 <= k < |w.symbols| && w.symbols[k].id == id && w.symbols[k].fqdn == fqdn
      && forall j :: 0 <= j < k ==> w.symbols[j].fqdn != fqdn
  }

  ghost predicate NoneNamed(w: World, fqdn: string) {
    forall k :: 0 <= k < |w.symbols| ==> w.symbols[k].fqdn != fqdn
  }

  /** The first row of that id. */
  ghost predicate HasId(w: World, id: int, fqdn: string) {
    exists k :: 0 <= k < |w.symbols| && w.symbols[k].id == id && w.symbols[k].fqdn == fqdn
      && forall j :: 0 <= j < k ==> w.symbols[j].id != id
  }

  lemma {:induction false} LookupAt(symbols: seq<Symbol>, fqdn: string) returns (k: nat)
    ensures k <= |symbols| && forall j :: 0 <= j < k ==> symbols[j].fqdn != fqdn
    ensures LookupSymbolId(symbols, fqdn) == if k < |symbols| then Some(symbols[k].id) else None
    ensures k < |symbols| ==> symbols[k].fqdn == fqdn
  {
    if symbols == [] || symbols[0].fqdn == fqdn {
      k := 0;
    } else {
      var n := LookupAt(symbols[1..], fqdn);
      k := n + 1;
      assert forall j :: 0 < j < |symbols| ==> symbols[j] == symbols[1..][j - 1];
    }
  }

  lemma LookupIs(w: World, fqdn: string)
    ensures forall id :: LookupSymbolId(w.symbols, fqdn) == Some(id) <==> Named(w, fqdn, id)
    ensures LookupSymbolId(w.symbols, fqdn) == None <==> NoneNamed(w, fqdn)
  {
    var k := LookupAt(w.symbols, fqdn);
  }

  lemma {:induction false} FqdnAt(symbols: seq<Symbol>, id: int) returns (k: nat)
    ensures k <= |symbols| && forall j :: 0 <= j < k ==> symbols[j].id != id
    ensures FqdnOf(symbols, id) == if k < |symbols| then Some(symbols[k].fqdn) else None
    ensures k < |symbols| ==> symbols[k].id == id
  {
    if symbols == [] || symbols[0].id == id {
      k := 0;
    } else {
      var n := FqdnAt(symbols[1..], id);
      k := n + 1;
      assert forall j :: 0 < j < |symbols| ==> symbols[j] == symbols[1..][j - 1];
    }
  }

  lemma FqdnIs(w: World, id: int)
    ensures forall fqdn :: FqdnOf(w.symbols, id) == Some(fqdn) <==> HasId(w, id, fqdn)
  {
    var k := FqdnAt(w.symbols, id);
  }

  /** The order of names: a proper prefix first, else the smaller byte at the first difference. */
  ghost predicate Precedes(a: string, b: string) {
    (a <= b && a != b) || exists k :: Differ(a, b, k) && a[k] < b[k]
  }

  ghost predicate Differ(a: string, b: string, k: int) {
    0 <= k < |a| && k < |b| && a[k] != b[k] && a[..k] == b[..k]
  }

  lemma {:induction false} BeforeIs(a: string, b: string)
    ensures Before(a, b) <==> Precedes(a, b)
  {
    if a != "" && b != "" {
      BeforeIs(a[1..], b[1..]);
      if a[0] == b[0] {
        SameHead(a, b);
      } else {
        OtherHead(a, b);
      }
    }
  }

  lemma OtherHead(a: string, b: string)
    requires a != "" && b != "" && a[0] != b[0]
    ensures Precedes(a, b) <==> a[0] < b[0]
  {
    assert Differ(a, b, 0);
    forall k | Differ(a, b, k) ensures k == 0 {
      if k > 0 {
        EqualFront(a, b, k);
      }
    }
  }

  lemma EqualFront(a: string, b: string, k: nat)
    requires 0 < k <= |a| && k <= |b| && a[..k] == b[..k]
    ensures a[0] == b[0]
  {
    assert a[..k][0] == a[0] && b[..k][0] == b[0];
  }

  lemma SameHead(a: string, b: string)
    requires a != "" && b != "" && a[0] == b[0]
    ensures Precedes(a, b) <==> Precedes(a[1..], b[1..])
  {
    var x, y := a[1..], b[1..];
    assert a == [a[0]] + x && b == [b[0]] + y;
    forall k ensures Differ(x, y, k) <==> k >= 0 && Differ(a, b, k + 1) {
      if 0 <= k < |x| && k < |y| {
        assert a[..k + 1] == [a[0]] + x[..k] && b[..k + 1] == [b[0]] + y[..k];
        assert a[..k + 1][1..] == x[..k] && b[..k + 1][1..] == y[..k];
      }
    }
    forall k | Differ(x, y, k) && x[k] < y[k] ensures Precedes(a, b) {
      assert Differ(a, b, k + 1) && a[k + 1] < b[k + 1];
    }
    forall k | Differ(a, b, k) && a[k] < b[k] ensures Precedes(x, y) {
      assert Differ(x, y, k - 1) && x[k - 1] < y[k - 1];
    }
  }

  // ---- what each tier stands for ----

  ghost predicate Nominal(receiver: string) {
    forall k :: 0 <= k < |receiver| - 1 ==> !(receiver[k] == ':' && receiver[k + 1] == ':')
  }

  /** The only row, outside the builtins, whose name ends in the candidate. */
  ghost predicate OnlySuffix(w: World, candidate: string, id: int) {
    exists k :: 0 <= k < |w.symbols| && w.symbols[k].id == id && EndsIn(w, candidate, k)
      && forall j :: 0 <= j < |w.symbols| && EndsIn(w, candidate, j) ==> j == k
  }

  ghost predicate EndsIn(w: World, candidate: string, k: nat)
    requires k < |w.symbols|
  {
    w.like("%::" + candidate, w.symbols[k].fqdn) && !w.like("<builtin>::%", w.symbols[k].fqdn)
  }

  /** Tier 1: the method of the receiver itself, of the only type of that name, or of the builtin of that name. */
  ghost predicate Inherent(w: World, receiver: string, method_: string, id: int) {
    var candidate := receiver + "::" + method_;
    || Named(w, candidate, id)
    || (NoneNamed(w, candidate) && Nominal(receiver) && OnlySuffix(w, candidate, id))
    || (NoneNamed(w, candidate) && !(Nominal(receiver) && exists other :: OnlySuffix(w, candidate, other))
        && Named(w, "<builtin>::rust::" + candidate, id))
  }

  /** A resolved IMPLEMENTS edge says so of a workspace type the receiver may name. */
  ghost predicate Implements(w: World, edges: seq<Edge>, receiver: string, trait_: string) {
    exists k :: 0 <= k < |edges| && Says(w, receiver, edges[k], trait_)
  }

  ghost predicate Says(w: World, receiver: string, e: Edge, trait_: string) {
    && e.kind == "IMPLEMENTS" && e.toSymbolId.Some? && HasId(w, e.toSymbolId.value, trait_)
    && exists source :: HasId(w, e.from, source) && !w.like("<builtin>::%", source)
         && (source == receiver || (Nominal(receiver) && w.like("%::" + receiver, source)))
  }

  /** Tier 2: the method of the first trait in the order of names that has it. */
  ghost predicate Dispatched(w: World, edges: seq<Edge>, receiver: string, method_: string, id: int) {
    exists t :: Implements(w, edges, receiver, t) && Named(w, t + "::" + method_, id)
      && forall u :: Implements(w, edges, receiver, u) && Precedes(u, t) ==> NoneNamed(w, u + "::" + method_)
  }

  ghost predicate Seeded(w: World, k: nat, method_: string)
    requires k < |w.symbols|
  {
    && w.like("<builtin>::rust::%::" + method_, w.symbols[k].fqdn) && w.symbols[k].name == method_
    && w.like("%\"trait_method\"%", w.symbols[k].flags)
  }

  /** Tier 3: the first flagged builtin method of that name in the order of names. */
  ghost predicate Builtin(w: World, method_: string, id: int) {
    exists k :: 0 <= k < |w.symbols| && w.symbols[k].id == id && IsFirstSeeded(w, method_, k)
  }

  ghost predicate IsFirstSeeded(w: World, method_: string, k: nat)
    requires k < |w.symbols|
  {
    && Seeded(w, k, method_)
    && (forall j :: 0 <= j < |w.symbols| && Seeded(w, j, method_) ==> !Precedes(w.symbols[j].fqdn, w.symbols[k].fqdn))
    && (forall j :: 0 <= j < k && Seeded(w, j, method_) ==> w.symbols[j].fqdn != w.symbols[k].fqdn)
  }

  /** Tier 4: the name the longest module prefix that hits gives the path. */
  ghost predicate Chained(w: World, name: string, id: int) {
    var segments := CW.Split(name);
    exists k :: CWM.LastFound(w.resolver, segments, k) && Named(w, CWM.FoundName(w.resolver, segments, k), id)
  }

  /** Which symbol a tier has for an edge; only calls with a known receiver have the first three. */
  ghost predicate Places(w: World, edges: seq<Edge>, e: Edge, tier: Tier, id: int) {
    e.toUnresolved.Some? &&
    var name := e.toUnresolved.value;
    match tier
    case ReceiverType => e.kind == "CALLS" && e.receiverType.Some? && Inherent(w, e.receiverType.value, name, id)
    case TraitDispatch =>
      e.kind == "CALLS" && e.receiverType.Some? && Dispatched(w, edges, e.receiverType.value, name, id)
    case BuiltinTraitMethod => e.kind == "CALLS" && e.receiverType.Some? && Builtin(w, name, id)
    case SuffixChain => Chained(w, name, id)
  }

  function Rank(tier: Tier): nat {
    match tier case ReceiverType => 0 case TraitDispatch => 1 case BuiltinTraitMethod => 2 case SuffixChain => 3
  }

  ghost predicate Silent(w: World, edges: seq<Edge>, e: Edge, tier: Tier) {
    forall id :: !Places(w, edges, e, tier, id)
  }

  /** The tier has a symbol, and no earlier one has. */
  ghost predicate Decides(w: World, edges: seq<Edge>, e: Edge, tier: Tier, id: int) {
    && Places(w, edges, e, tier, id)
    && forall earlier :: Rank(earlier) < Rank(tier) ==> Silent(w, edges, e, earlier)
  }

  // ---- each tier has what it stands for ----

  lemma NominalIff(receiver: string)
    ensures Nominal(receiver) <==> !IsPath(receiver)
  {
  }

  lemma OnlySuffixIs(w: World, candidate: string)
    ensures var found := SuffixMatches(w, w.symbols, "%::" + candidate);
      forall id :: OnlySuffix(w, candidate, id) <==> |found| == 1 && found[0] == id
  {
    var pattern := "%::" + candidate;
    var found := SuffixMatches(w, w.symbols, pattern);
    forall k | 0 <= k < |w.symbols| ensures EndsIn(w, candidate, k) <==> IsSuffixMatch(w, pattern, w.symbols[k]) {}
    if j, k :| 0 <= j < k < |w.symbols| && EndsIn(w, candidate, j) && EndsIn(w, candidate, k) {
      TwoSuffixMatches(w, w.symbols, pattern, j, k);
    } else if k :| 0 <= k < |w.symbols| && EndsIn(w, candidate, k) {
      OneSuffixMatch(w, w.symbols, pattern, k);
      assert OnlySuffix(w, candidate, w.symbols[k].id);
    } else {
      NoSuffixMatch(w, w.symbols, pattern);
    }
  }

  lemma InherentIs(w: World, receiver: string, method_: string, id: int)
    ensures ViaReceiverType(w, receiver, method_) == Some(id) <==> Inherent(w, receiver, method_, id)
  {
    var candidate := receiver + "::" + method_;
    LookupIs(w, candidate);
    LookupIs(w, "<builtin>::rust::" + candidate);
    NominalIff(receiver);
    OnlySuffixIs(w, candidate);
    var found := SuffixMatches(w, w.symbols, "%::" + candidate);
    assert |found| == 1 ==> OnlySuffix(w, candidate, found[0]);
  }

  lemma SaysIs(w: World, receiver: string, e: Edge, trait_: string)
    ensures TraitOf(w, receiver, e) == Some(trait_) <==> Says(w, receiver, e, trait_)
  {
    NominalIff(receiver);
    FqdnIs(w, e.from);
    if e.toSymbolId.Some? {
      FqdnIs(w, e.toSymbolId.value);
    }
  }

  lemma ImplementsIs(w: World, edges: seq<Edge>, receiver: string, trait_: string)
    ensures trait_ in Traits(w, edges, receiver) <==> Implements(w, edges, receiver, trait_)
  {
    TraitsMembers(w, edges, receiver);
    forall k | 0 <= k < |edges|
      ensures TraitOf(w, receiver, edges[k]) == Some(trait_) <==> Says(w, receiver, edges[k], trait_)
    {
      SaysIs(w, receiver, edges[k], trait_);
    }
  }

  lemma LeastTraitIs(w: World, edges: seq<Edge>, receiver: string, method_: string, t: string)
    ensures LeastTrait(w, Traits(w, edges, receiver), method_, t) <==>
      && Implements(w, edges, receiver, t) && !NoneNamed(w, t + "::" + method_)
      && forall u :: Implements(w, edges, receiver, u) && Precedes(u, t) ==> NoneNamed(w, u + "::" + method_)
  {
    forall u
      ensures u in Traits(w, edges, receiver) <==> Implements(w, edges, receiver, u)
      ensures Before(u, t) <==> Precedes(u, t)
      ensures LookupSymbolId(w.symbols, u + "::" + method_) == None <==> NoneNamed(w, u + "::" + method_)
    {
      ImplementsIs(w, edges, receiver, u);
      BeforeIs(u, t);
      LookupIs(w, u + "::" + method_);
    }
  }

  lemma DispatchedIs(w: World, edges: seq<Edge>, receiver: string, method_: string, id: int)
    ensures ViaTraitDispatch(w, edges, receiver, method_) == Some(id) <==> Dispatched(w, edges, receiver, method_, id)
  {
    var traits := Traits(w, edges, receiver);
    if ViaTraitDispatch(w, edges, receiver, method_) == Some(id) {
      TraitsAscend(w, edges, receiver);
      var t := FirstIsLeast(w, traits, method_);
      LeastTraitIs(w, edges, receiver, method_, t);
      LookupIs(w, t + "::" + method_);
    }
    if Dispatched(w, edges, receiver, method_, id) {
      var t :| Implements(w, edges, receiver, t) && Named(w, t + "::" + method_, id)
        && forall u :: Implements(w, edges, receiver, u) && Precedes(u, t) ==> NoneNamed(w, u + "::" + method_);
      LookupIs(w, t + "::" + method_);
      LeastTraitIs(w, edges, receiver, method_, t);
      DispatchPicksLeast(w, edges, receiver, method_, t);
    }
  }

  /** The builtin found is the first of the least name. */
  lemma {:induction false} LeastBuiltinAt(w: World, symbols: seq<Symbol>, method_: string) returns (k: nat)
    ensures k <= |symbols|
    ensures LeastBuiltin(w, symbols, method_) == if k < |symbols| then Some(symbols[k]) else None
    ensures forall j :: 0 <= j < k && IsBuiltinTraitMethod(w, symbols[j], method_) ==>
      k < |symbols| && symbols[j].fqdn != symbols[k].fqdn
  {
    if symbols == [] {
      k := 0;
    } else {
      var n := |symbols| - 1;
      var rest, last := symbols[..n], symbols[n];
      LeastBuiltinIsLeast(w, rest, method_);
      BeforeTotal(last.fqdn, last.fqdn);
      var i := LeastBuiltinAt(w, rest, method_);
      if !IsBuiltinTraitMethod(w, last, method_) || (i < n && !Before(last.fqdn, rest[i].fqdn)) {
        k := if i < n then i else n + 1;
      } else {
        k := n;
        forall j | 0 <= j < n && IsBuiltinTraitMethod(w, symbols[j], method_) ensures symbols[j].fqdn != last.fqdn {
          assert symbols[j] == rest[j] && rest[j] in rest;
        }
      }
    }
  }

  lemma SeededIs(w: World, method_: string)
    ensures forall k :: 0 <= k < |w.symbols| ==>
      (Seeded(w, k, method_) <==> IsBuiltinTraitMethod(w, w.symbols[k], method_))
  {
  }

  lemma OneFirstSeeded(w: World, method_: string, j: nat, k: nat)
    requires j < |w.symbols| && k < |w.symbols| && IsFirstSeeded(w, method_, j) && IsFirstSeeded(w, method_, k)
    ensures j == k
  {
    BeforeTotal(w.symbols[j].fqdn, w.symbols[k].fqdn);
    BeforeIs(w.symbols[j].fqdn, w.symbols[k].fqdn);
    BeforeIs(w.symbols[k].fqdn, w.symbols[j].fqdn);
  }

  lemma BuiltinIs(w: World, method_: string, id: int)
    ensures ViaBuiltinTraitMethod(w, method_) == Some(id) <==> Builtin(w, method_, id)
  {
    SeededIs(w, method_);
    LeastBuiltinIsLeast(w, w.symbols, method_);
    var k := LeastBuiltinAt(w, w.symbols, method_);
    if k < |w.symbols| {
      forall j | 0 <= j < |w.symbols| && Seeded(w, j, method_)
        ensures !Precedes(w.symbols[j].fqdn, w.symbols[k].fqdn)
      {
        BeforeIs(w.symbols[j].fqdn, w.symbols[k].fqdn);
      }
      assert IsFirstSeeded(w, method_, k);
      forall j | 0 <= j < |w.symbols| && IsFirstSeeded(w, method_, j) ensures j == k {
        OneFirstSeeded(w, method_, j, k);
      }
    }
  }

  lemma ChainedIs(w: World, name: string, id: int)
    ensures ViaSuffixChain(w, name) == Some(id) <==> Chained(w, name, id)
  {
    var segments := CW.Split(name);
    CWM.Decided(w.resolver, segments);
    CW.ChainMeaning(w.resolver, name);
    CWM.SplitsAgree(w.resolver, segments);
    forall k | CWM.LastFound(w.resolver, segments, k)
      ensures CW.Chain(w.resolver, name) ==
        Some(CW.Hit(CWM.PeerAt(w.resolver, segments, k), CWM.FoundName(w.resolver, segments, k)))
    {
      CWM.ChainIs(w.resolver, name, k);
    }
    forall fqdn { LookupIs(w, fqdn); }
  }

  // ---- the resolver ----

  /** What the resolver's tiers compute. */
  ghost function Has(w: World, edges: seq<Edge>, e: Edge, tier: Tier): Option<int>
    requires e.toUnresolved.Some?
  {
    var name := e.toUnresolved.value;
    if tier == SuffixChain then ViaSuffixChain(w, name)
    else if e.kind != "CALLS" || e.receiverType.None? then None
    else
      match tier
      case ReceiverType => ViaReceiverType(w, e.receiverType.value, name)
      case TraitDispatch => ViaTraitDispatch(w, edges, e.receiverType.value, name)
      case BuiltinTraitMethod => ViaBuiltinTraitMethod(w, name)
  }

  lemma PlacesIs(w: World, edges: seq<Edge>, e: Edge, tier: Tier, id: int)
    requires e.toUnresolved.Some?
    ensures Places(w, edges, e, tier, id) <==> Has(w, edges, e, tier) == Some(id)
  {
    var name := e.toUnresolved.value;
    if tier == SuffixChain {
      ChainedIs(w, name, id);
    } else if e.kind == "CALLS" && e.receiverType.Some? {
      match tier {
        case ReceiverType => InherentIs(w, e.receiverType.value, name, id);
        case TraitDispatch => DispatchedIs(w, edges, e.receiverType.value, name, id);
        case BuiltinTraitMethod => BuiltinIs(w, name, id);
      }
    }
  }

  lemma SilentIs(w: World, edges: seq<Edge>, e: Edge, tier: Tier)
    requires e.toUnresolved.Some?
    ensures Silent(w, edges, e, tier) <==> Has(w, edges, e, tier) == None
  {
    forall id ensures Places(w, edges, e, tier, id) <==> Has(w, edges, e, tier) == Some(id) {
      PlacesIs(w, edges, e, tier, id);
    }
    if Has(w, edges, e, tier).Some? {
      PlacesIs(w, edges, e, tier, Has(w, edges, e, tier).value);
    }
  }

  lemma FirstOfTiers(w: World, edges: seq<Edge>, e: Edge, tier: Tier, id: int)
    requires e.toUnresolved.Some?
    ensures Resolve(w, edges, e) == Some(Answer(id, tier)) <==>
      && Has(w, edges, e, tier) == Some(id)
      && forall earlier :: Rank(earlier) < Rank(tier) ==> Has(w, edges, e, earlier) == None
    ensures Resolve(w, edges, e) == None <==> forall other :: Has(w, edges, e, other) == None
  {
    assert Rank(ReceiverType) < Rank(TraitDispatch) < Rank(BuiltinTraitMethod) < Rank(SuffixChain);
    var a, b := Has(w, edges, e, ReceiverType), Has(w, edges, e, TraitDispatch);
    var c, d := Has(w, edges, e, BuiltinTraitMethod), Has(w, edges, e, SuffixChain);
    assert Resolve(w, edges, e) ==
      if a.Some? then Some(Answer(a.value, ReceiverType)) else if b.Some? then Some(Answer(b.value, TraitDispatch))
      else if c.Some? then Some(Answer(c.value, BuiltinTraitMethod))
      else if d.Some? then Some(Answer(d.value, SuffixChain)) else None;
  }

  /** An edge is answered by a tier with a symbol exactly when that tier decides it. */
  lemma ResolveMeans(w: World, edges: seq<Edge>, e: Edge, tier: Tier, id: int)
    requires e.toUnresolved.Some?
    ensures Resolve(w, edges, e) == Some(Answer(id, tier)) <==> Decides(w, edges, e, tier, id)
  {
    FirstOfTiers(w, edges, e, tier, id);
    PlacesIs(w, edges, e, tier, id);
    forall other ensures Silent(w, edges, e, other) <==> Has(w, edges, e, other) == None {
      SilentIs(w, edges, e, other);
    }
  }

  /** There is no answer exactly when no tier has a symbol. */
  lemma UnplacedMeans(w: World, edges: seq<Edge>, e: Edge)
    requires e.toUnresolved.Some?
    ensures Resolve(w, edges, e) == None <==> forall tier :: Silent(w, edges, e, tier)
  {
    FirstOfTiers(w, edges, e, SuffixChain, 0);
    forall other ensures Silent(w, edges, e, other) <==> Has(w, edges, e, other) == None {
      SilentIs(w, edges, e, other);
    }
  }

  // ---- the sweep ----

  /** Another row already links the same two symbols in the same way. */
  ghost predicate Taken(edges: seq<Edge>, k: nat, id: int)
    requires k < |edges|
  {
    exists j :: 0 <= j < |edges| && j != k && SameLink(edges[j], edges[k].from, edges[k].kind, id)
  }

  ghost predicate SameLink(e: Edge, from: int, kind: string, id: int) {
    e.from == from && e.kind == kind && e.toSymbolId == Some(id)
  }

  lemma TakenIs(edges: seq<Edge>, k: nat, id: int)
    requires k < |edges|
    ensures Taken(edges, k, id) <==> Collides(edges, k, id)
  {
    if Collides(edges, k, id) {
      var j :| 0 <= j < |edges| && j != k && edges[j].from == edges[k].from && edges[j].kind == edges[k].kind
        && edges[j].toSymbolId == Some(id);
      assert SameLink(edges[j], edges[k].from, edges[k].kind, id);
    }
    if Taken(edges, k, id) {
      var j :| 0 <= j < |edges| && j != k && SameLink(edges[j], edges[k].from, edges[k].kind, id);
      assert edges[j].from == edges[k].from;
    }
  }

  /** What one row is after the sweep. */
  ghost predicate Swept(w: World, before: seq<Edge>, after: seq<Edge>, k: nat, unique: bool)
    requires k < |before| == |after|
  {
    if exists tier, id :: Decides(w, before, before[k], tier, id) then
      exists tier, id :: Decides(w, before, before[k], tier, id) && (
        || after[k] == before[k].(toSymbolId := Some(id), toUnresolved := None)
        || (unique && after[k] == before[k] && Taken(after, k, id)))
    else after[k] == before[k]
  }

  /**
   Every row a tier can place links to the symbol of the first such tier, unless another
   row already does; every other row is untouched.
   */
  lemma SweepMeans(w: World, edges: seq<Edge>, unique: bool, k: nat)
    requires Checked(edges) && k < |edges|
    ensures Swept(w, edges, Sweep(w, edges, unique), k, unique)
  {
    var e, after := edges[k], Sweep(w, edges, unique);
    SweepDecides(w, edges, unique);
    assert Progress(e, after[k]);
    if e.toUnresolved.Some? {
      forall tier, id { ResolveMeans(w, edges, e, tier, id); }
      var answer := Resolve(w, edges, e);
      if answer.Some? {
        assert Decides(w, edges, e, answer.value.tier, answer.value.symbolId);
        PlannedRow(w, edges, unique, k, answer.value.symbolId);
        TakenIs(after, k, answer.value.symbolId);
      } else {
        StuckStays(w, edges, unique, k);
      }
    }
  }

  lemma PlannedRow(w: World, edges: seq<Edge>, unique: bool, k: nat, id: int)
    requires Checked(edges) && k < |edges| && edges[k].toUnresolved.Some?
    requires Resolve(w, edges, edges[k]).Some? && Resolve(w, edges, edges[k]).value.symbolId == id
    ensures var after := Sweep(w, edges, unique);
      || after[k] == edges[k].(toSymbolId := Some(id), toUnresolved := None)
      || (unique && after[k] == edges[k] && Collides(after, k, id))
  {
    var after, plan := Sweep(w, edges, unique), Planned(w, edges, |edges|);
    SweepDecides(w, edges, unique);
    assert Progress(edges[k], after[k]);
    PlanIsFresh(w, edges);
    PlannedMembers(w, edges, |edges|, Update(k, id));
    var n :| 0 <= n < |plan| && plan[n] == Update(k, id);
    ApplyAllDecides(edges, plan, unique, n);
  }

  /** No two rows link the same two symbols in the same way. */
  ghost predicate NoDoubles(edges: seq<Edge>) {
    forall k :: 0 <= k < |edges| && edges[k].toSymbolId.Some? ==> !Taken(edges, k, edges[k].toSymbolId.value)
  }

  /** With the unique index the sweep keeps it. */
  lemma SweepKeepsUnique(w: World, edges: seq<Edge>)
    requires Checked(edges) && NoDoubles(edges)
    ensures NoDoubles(Sweep(w, edges, true))
  {
    PlanIsFresh(w, edges);
    ApplyKeepsUnique(edges, Planned(w, edges, |edges|));
  }

  lemma {:induction false} ApplyKeepsUnique(edges: seq<Edge>, plan: seq<Update>)
    requires Fresh(edges, plan) && NoDoubles(edges)
    ensures NoDoubles(ApplyAll(edges, plan, true))
  {
    if plan != [] {
      ApplyKeepsUnique(edges, plan[..|plan| - 1]);
      OneKeepsUnique(ApplyAll(edges, plan[..|plan| - 1], true), plan[|plan| - 1]);
    }
  }

  lemma OneKeepsUnique(edges: seq<Edge>, u: Update)
    requires u.edge < |edges| && NoDoubles(edges)
    ensures NoDoubles(ApplyOne(edges, u, true))
  {
    var after := ApplyOne(edges, u, true);
    TakenIs(edges, u.edge, u.symbolId);
    if after != edges {
      forall k | 0 <= k < |after| && after[k].toSymbolId.Some? ensures !Taken(after, k, after[k].toSymbolId.value) {
        if Taken(after, k, after[k].toSymbolId.value) {
          var j :| 0 <= j < |after| && j != k
            && SameLink(after[j], after[k].from, after[k].kind, after[k].toSymbolId.value);
          DoubleWasThere(edges, u, j, k);
        }
      }
    }
  }

  /** Two equal links after an update: the update was a collision, or they were there before. */
  lemma DoubleWasThere(edges: seq<Edge>, u: Update, j: nat, k: nat)
    requires u.edge < |edges| && j < |edges| && k < |edges| && j != k
    requires var after := edges[u.edge := edges[u.edge].(toSymbolId := Some(u.symbolId), toUnresolved := None)];
      after[k].toSymbolId.Some? && SameLink(after[j], after[k].from, after[k].kind, after[k].toSymbolId.value)
    ensures Taken(edges, u.edge, u.symbolId) || !NoDoubles(edges)
  {
    if k == u.edge {
      assert SameLink(edges[j], edges[u.edge].from, edges[u.edge].kind, u.symbolId);
    } else if j == u.edge {
      assert SameLink(edges[k], edges[u.edge].from, edges[u.edge].kind, u.symbolId);
    } else {
      assert SameLink(edges[j], edges[k].from, edges[k].kind, edges[k].toSymbolId.value);
      assert Taken(edges, k, edges[k].toSymbolId.value);
    }
  }

  // ---- the report ----

  ghost predicate DecidedBy(w: World, edges: seq<Edge>, k: nat, tier: Tier)
    requires k < |edges|
  {
    exists id :: Decides(w, edges, edges[k], tier, id)
  }

  ghost predicate AnsweredBy(a: Option<Answer>, tier: Tier) { a.Some? && a.value.tier == tier }

  ghost function ByTier(answers: seq<Option<Answer>>, tier: Tier): set<nat> {
    set k | 0 <= k < |answers| && AnsweredBy(answers[k], tier)
  }

  lemma {:induction false} CountTierIs(answers: seq<Option<Answer>>, tier: Tier)
    ensures CountTier(answers, tier) == |ByTier(answers, tier)|
  {
    if answers != [] {
      var n := |answers| - 1;
      CountTierIs(answers[..n], tier);
      ByTierSnoc(answers, tier);
    }
  }

  lemma ByTierSnoc(answers: seq<Option<Answer>>, tier: Tier)
    requires answers != []
    ensures var n := |answers| - 1;
      var rest := ByTier(answers[..n], tier);
      n !in rest && ByTier(answers, tier) == if AnsweredBy(answers[n], tier) then rest + {n} else rest
  {
    var n := |answers| - 1;
    assert forall k :: 0 <= k < n ==> answers[..n][k] == answers[k];
  }

  lemma {:induction false} AnswersAt(w: World, edges: seq<Edge>, n: nat)
    requires n <= |edges|
    ensures |Answers(w, edges, n)| == n
    ensures forall k :: 0 <= k < n ==>
      Answers(w, edges, n)[k] == if edges[k].toUnresolved.Some? then Resolve(w, edges, edges[k]) else None
  {
    if n > 0 {
      AnswersAt(w, edges, n - 1);
    }
  }

  lemma DecidedIs(w: World, edges: seq<Edge>, k: nat, tier: Tier)
    requires k < |edges|
    ensures DecidedBy(w, edges, k, tier) <==>
      edges[k].toUnresolved.Some? && AnsweredBy(Resolve(w, edges, edges[k]), tier)
  {
    if edges[k].toUnresolved.Some? {
      forall id ensures Decides(w, edges, edges[k], tier, id) <==>
        Resolve(w, edges, edges[k]) == Some(Answer(id, tier))
      {
        ResolveMeans(w, edges, edges[k], tier, id);
      }
      var r := Resolve(w, edges, edges[k]);
      if r.Some? && r.value.tier == tier {
        ResolveMeans(w, edges, edges[k], tier, r.value.symbolId);
      }
    }
  }

  ghost function Decided(w: World, edges: seq<Edge>, tier: Tier): set<nat> {
    set k | 0 <= k < |edges| && DecidedBy(w, edges, k, tier)
  }

  /** A tier's counter is the number of edges that tier decides. */
  lemma TierCountMeans(w: World, edges: seq<Edge>, tier: Tier)
    ensures CountTier(Answers(w, edges, |edges|), tier) == |Decided(w, edges, tier)|
  {
    var answers := Answers(w, edges, |edges|);
    CountTierIs(answers, tier);
    AnswersAt(w, edges, |edges|);
    forall k | 0 <= k < |edges| ensures DecidedBy(w, edges, k, tier) <==> AnsweredBy(answers[k], tier) {
      DecidedIs(w, edges, k, tier);
    }
    assert ByTier(answers, tier) == Decided(w, edges, tier);
  }

  lemma {:induction false} UnresolvedCountMeans(edges: seq<Edge>)
    ensures CountUnresolved(edges) == |set k | 0 <= k < |edges| && edges[k].toUnresolved.Some?|
  {
    if edges != [] {
      var n := |edges| - 1;
      UnresolvedCountMeans(edges[..n]);
      var rest := set k | 0 <= k < n && edges[..n][k].toUnresolved.Some?;
      assert (set k | 0 <= k < |edges| && edges[k].toUnresolved.Some?) ==
        if edges[n].toUnresolved.Some? then rest + {n} else rest;
    }
  }

  /** What the report of a sweep counts. */
  lemma ReportMeans(w: World, edges: seq<Edge>, report: Report)
    requires CountsTiers(report, Answers(w, edges, |edges|))
    ensures report.viaReceiverType == |Decided(w, edges, ReceiverType)|
    ensures report.viaTraitDispatch == |Decided(w, edges, TraitDispatch)|
    ensures report.viaBuiltinTraitMethod == |Decided(w, edges, BuiltinTraitMethod)|
  {
    TierCountMeans(w, edges, ReceiverType);
    TierCountMeans(w, edges, TraitDispatch);
    TierCountMeans(w, edges, BuiltinTraitMethod);
  }
}
