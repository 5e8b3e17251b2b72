/** The scope arena of one module: scopes with parents, and bindings that shadow each other. */
module ScopeArena {
  import opened Prelude

  datatype ScopeRange = ScopeRange(startLine: nat, endLine: nat, parent: Option<nat>)

  datatype IdentResolution = IdentResolution(name: string, scopeIdx: nat, target: string)

  const U32_RANGE: nat := 0x1_0000_0000

  type Scopes = seq<ScopeRange>

  /** Each parent precedes its child, as when scopes are pushed while walking down. */
  predicate ParentsFirst(scopes: Scopes) {
    forall i :: 0 <= i < |scopes| && scopes[i].parent.Some? ==> scopes[i].parent.value < i
  }

  function ParentOf(scopes: Scopes, i: nat): Option<nat> {
    if i < |scopes| then scopes[i].parent else None
  }

  /** `entries.iter().rev().find(…)` */
  function LatestIn(entries: seq<IdentResolution>, i: nat): Option<IdentResolution> {
    if entries == [] then None
    else if entries[|entries| - 1].scopeIdx == i then Some(entries[|entries| - 1])
    else LatestIn(entries[..|entries| - 1], i)
  }

  /** The scope itself, then its parent, up to the root. */
  function Chain(scopes: Scopes, i: nat): (chain: seq<nat>)
    requires ParentsFirst(scopes)
    ensures chain != [] && chain[0] == i
    decreases i
  {
    var parent := ParentOf(scopes, i);
    if parent.None? then [i] else [i] + Chain(scopes, parent.value)
  }

  function Resolve(scopes: Scopes, entries: seq<IdentResolution>, i: nat): Option<IdentResolution>
    requires ParentsFirst(scopes)
    decreases i
  {
    var found, parent := LatestIn(entries, i), ParentOf(scopes, i);
    if found.Some? then found
    else if parent.None? then None
    else Resolve(scopes, entries, parent.value)
  }

  // ---- what the walk finds ----

  ghost predicate IsLatest(entries: seq<IdentResolution>, i: nat, k: nat) {
    k < |entries| && entries[k].scopeIdx == i && forall j :: k < j < |entries| ==> entries[j].scopeIdx != i
  }

  ghost predicate Unbound(entries: seq<IdentResolution>, i: nat) {
    forall k :: 0 <= k < |entries| ==> entries[k].scopeIdx != i
  }

  lemma {:induction false} LatestIs(entries: seq<IdentResolution>, i: nat)
    ensures LatestIn(entries, i).None? <==> Unbound(entries, i)
    ensures forall k: nat :: IsLatest(entries, i, k) ==> LatestIn(entries, i) == Some(entries[k])
  {
    if entries != [] {
      var rest := entries[..|entries| - 1];
      LatestIs(rest, i);
      forall k: nat | IsLatest(entries, i, k) ensures LatestIn(entries, i) == Some(entries[k]) {
        if k < |rest| { assert IsLatest(rest, i, k) && rest[k] == entries[k]; }
      }
      if LatestIn(entries, i).None? {
        forall k | 0 <= k < |entries| ensures entries[k].scopeIdx != i {
          if k < |rest| { assert rest[k] == entries[k]; }
        }
      }
    }
  }

  /** Nothing on the chain before depth `d` binds the name. */
  ghost predicate UnboundBefore(chain: seq<nat>, entries: seq<IdentResolution>, d: nat) {
    d <= |chain| && forall c :: 0 <= c < d ==> Unbound(entries, chain[c])
  }

  lemma UnboundCons(i: nat, rest: seq<nat>, entries: seq<IdentResolution>, d: nat)
    requires Unbound(entries, i) && d <= |rest|
    ensures UnboundBefore([i] + rest, entries, d + 1) <==> UnboundBefore(rest, entries, d)
  {
    var chain := [i] + rest;
    if UnboundBefore(rest, entries, d) {
      forall c | 0 <= c < d + 1 ensures Unbound(entries, chain[c]) {
        if c > 0 { assert chain[c] == rest[c - 1]; }
      }
    }
    if UnboundBefore(chain, entries, d + 1) {
      forall c | 0 <= c < d ensures Unbound(entries, rest[c]) { assert chain[c + 1] == rest[c]; }
    }
  }

  /** The answer is the latest binding in the nearest enclosing scope that has one. */
  lemma {:induction false} ResolvesToNearest(scopes: Scopes, entries: seq<IdentResolution>, i: nat, d: nat, k: nat)
    requires ParentsFirst(scopes) && d < |Chain(scopes, i)|
    requires UnboundBefore(Chain(scopes, i), entries, d) && IsLatest(entries, Chain(scopes, i)[d], k)
    ensures Resolve(scopes, entries, i) == Some(entries[k])
    decreases i
  {
    LatestIs(entries, i);
    var chain := Chain(scopes, i);
    if d > 0 {
      assert Unbound(entries, chain[0]);
      var rest := Chain(scopes, ParentOf(scopes, i).value);
      UnboundCons(i, rest, entries, d - 1);
      ResolvesToNearest(scopes, entries, ParentOf(scopes, i).value, d - 1, k);
    }
  }

  /** There is no answer exactly when no scope up to the root binds the name. */
  lemma {:induction false} UnresolvedIff(scopes: Scopes, entries: seq<IdentResolution>, i: nat)
    requires ParentsFirst(scopes)
    ensures Resolve(scopes, entries, i).None? <==> UnboundBefore(Chain(scopes, i), entries, |Chain(scopes, i)|)
    decreases i
  {
    LatestIs(entries, i);
    var parent := ParentOf(scopes, i);
    if Unbound(entries, i) && parent.Some? {
      UnresolvedIff(scopes, entries, parent.value);
      UnboundCons(i, Chain(scopes, parent.value), entries, |Chain(scopes, parent.value)|);
    } else if !Unbound(entries, i) {
      assert Chain(scopes, i)[0] == i;
    }
  }

  // ---- what pushes change ----

  /** A new scope changes no answer from the scopes that exist. */
  lemma {:induction false} PushScopeKeepsAnswers(scopes: Scopes, range: ScopeRange, entries: seq<IdentResolution>,
    i: nat)
    requires ParentsFirst(scopes) && ParentsFirst(scopes + [range]) && i != |scopes|
    ensures Resolve(scopes + [range], entries, i) == Resolve(scopes, entries, i)
    decreases i
  {
    if i < |scopes| && scopes[i].parent.Some? {
      PushScopeKeepsAnswers(scopes, range, entries, scopes[i].parent.value);
    }
  }

  /** The chain reaches the scope before any scope that binds the name. */
  ghost predicate ReachedFirst(scopes: Scopes, entries: seq<IdentResolution>, i: nat, scope: nat)
    requires ParentsFirst(scopes)
  {
    exists d :: 0 <= d < |Chain(scopes, i)| && Chain(scopes, i)[d] == scope && UnboundBefore(Chain(scopes, i),
      entries, d)
  }

  lemma ReachedFirstStep(scopes: Scopes, entries: seq<IdentResolution>, i: nat, scope: nat)
    requires ParentsFirst(scopes)
    ensures ReachedFirst(scopes, entries, i, scope) <==> (
      || i == scope
      || (Unbound(entries, i) && ParentOf(scopes, i).Some? && ReachedFirst(scopes, entries, ParentOf(scopes, i).value,
        scope)))
  {
    var chain, parent := Chain(scopes, i), ParentOf(scopes, i);
    if i == scope {
      assert chain[0] == scope && UnboundBefore(chain, entries, 0);
    } else if parent.Some? {
      var rest := Chain(scopes, parent.value);
      if ReachedFirst(scopes, entries, i, scope) {
        var d :| 0 <= d < |chain| && chain[d] == scope && UnboundBefore(chain, entries, d);
        assert Unbound(entries, chain[0]);
        UnboundCons(i, rest, entries, d - 1);
        assert rest[d - 1] == scope;
      }
      if Unbound(entries, i) && ReachedFirst(scopes, entries, parent.value, scope) {
        var d :| 0 <= d < |rest| && rest[d] == scope && UnboundBefore(rest, entries, d);
        UnboundCons(i, rest, entries, d);
        assert chain[d + 1] == scope;
      }
    }
  }

  lemma LatestSnoc(entries: seq<IdentResolution>, b: IdentResolution, i: nat)
    ensures LatestIn(entries + [b], i) == if b.scopeIdx == i then Some(b) else LatestIn(entries, i)
  {
    assert (entries + [b])[..|entries|] == entries;
  }

  /** A new binding is the answer where it is reached first, and changes no other answer. */
  lemma {:induction false} PushBindingChanges(scopes: Scopes, entries: seq<IdentResolution>, b: IdentResolution, i: nat)
    requires ParentsFirst(scopes)
    ensures Resolve(scopes, entries + [b], i) ==
      if ReachedFirst(scopes, entries, i, b.scopeIdx) then Some(b) else Resolve(scopes, entries, i)
    decreases i
  {
    LatestSnoc(entries, b, i);
    LatestIs(entries, i);
    ReachedFirstStep(scopes, entries, i, b.scopeIdx);
    if ParentOf(scopes, i).Some? {
      PushBindingChanges(scopes, entries, b, ParentOf(scopes, i).value);
    }
  }

  lemma ParentsFirstSnoc(scopes: Scopes, range: ScopeRange)
    ensures ParentsFirst(scopes + [range]) <==>
      ParentsFirst(scopes) && (range.parent.Some? ==> range.parent.value < |scopes|)
  {
    var more := scopes + [range];
    assert more[|scopes|] == range;
    assert forall i :: 0 <= i < |scopes| ==> more[i] == scopes[i];
  }

  // ---- when the walk ends ----

  /** The scope after `d` steps up, if there are so many. */
  function Climb(scopes: Scopes, i: nat, d: nat): Option<nat> {
    if d == 0 then Some(i) else
    var below := Climb(scopes, i, d - 1);
    if below.None? then None else ParentOf(scopes, below.value)
  }

  /** The walk stops at its `d`-th scope: the name is bound there, or there is no parent. */
  ghost predicate StopsAt(scopes: Scopes, entries: seq<IdentResolution>, i: nat, d: nat) {
    var at := Climb(scopes, i, d);
    at.Some? && (LatestIn(entries, at.value).Some? || ParentOf(scopes, at.value).None?)
  }

  /** It comes back to a scope without having met a binding. */
  ghost predicate GoesRound(scopes: Scopes, entries: seq<IdentResolution>, i: nat) {
    exists c, d: nat :: 0 <= c < d && ReturnsTo(scopes, entries, i, c, d)
  }

  ghost predicate ReturnsTo(scopes: Scopes, entries: seq<IdentResolution>, i: nat, c: nat, d: nat) {
    && Climb(scopes, i, d).Some? && Climb(scopes, i, c) == Climb(scopes, i, d)
    && forall e: nat :: e < d ==> !StopsAt(scopes, entries, i, e)
  }

  /** From there on it repeats itself. */
  lemma {:induction false} Repeats(scopes: Scopes, i: nat, c: nat, d: nat, k: nat)
    requires c < d && Climb(scopes, i, c) == Climb(scopes, i, d)
    ensures Climb(scopes, i, c + k) == Climb(scopes, i, d + k)
  {
    if k > 0 {
      Repeats(scopes, i, c, d, k - 1);
    }
  }

  lemma {:induction false} NeverStops(scopes: Scopes, entries: seq<IdentResolution>, i: nat, c: nat, d: nat, e: nat)
    requires c < d && ReturnsTo(scopes, entries, i, c, d)
    ensures !StopsAt(scopes, entries, i, e)
  {
    if e >= d {
      Repeats(scopes, i, c, d, e - d);
      NeverStops(scopes, entries, i, c, d, e - (d - c));
    }
  }

  /** A walk that does not stop goes on to a further scope of the arena. */
  lemma {:induction false} GoesOn(scopes: Scopes, entries: seq<IdentResolution>, i: nat, d: nat)
    requires forall e: nat :: e < d ==> !StopsAt(scopes, entries, i, e)
    ensures Climb(scopes, i, d).Some?
    ensures forall e: nat :: e < d ==> Climb(scopes, i, e).Some? && Climb(scopes, i, e).value < |scopes|
  {
    if d > 0 {
      GoesOn(scopes, entries, i, d - 1);
      assert !StopsAt(scopes, entries, i, d - 1);
    }
  }

  function Below(n: nat): set<nat> {
    if n == 0 then {} else Below(n - 1) + {n - 1}
  }

  lemma {:induction false} BelowHas(n: nat)
    ensures |Below(n)| == n && forall k: nat :: k in Below(n) <==> k < n
  {
    if n > 0 {
      BelowHas(n - 1);
    }
  }

  lemma {:induction false} DistinctHas(s: seq<nat>)
    requires forall c, d :: 0 <= c < d < |s| ==> s[c] != s[d]
    ensures |set k | 0 <= k < |s| :: s[k]| == |s|
  {
    if s != [] {
      var n := |s| - 1;
      DistinctHas(s[..n]);
      assert (set k | 0 <= k < |s| :: s[k]) == (set k | 0 <= k < n :: s[..n][k]) + {s[n]};
    }
  }

  /** More numbers than there are below `n` repeat one. */
  lemma SomeRepeats(s: seq<nat>, n: nat)
    requires |s| > n && forall k :: 0 <= k < |s| ==> s[k] < n
    ensures exists c, d :: 0 <= c < d < |s| && s[c] == s[d]
  {
    if forall c, d :: 0 <= c < d < |s| ==> s[c] != s[d] {
      DistinctHas(s);
      BelowHas(n);
      SubsetIsSmaller(set k | 0 <= k < |s| :: s[k], Below(n));
    }
  }

  /** In any arena the walk ends if and only if it does not come back to a scope unbound. */
  lemma WalkEndsIff(scopes: Scopes, entries: seq<IdentResolution>, i: nat)
    ensures (exists d: nat :: StopsAt(scopes, entries, i, d)) <==> !GoesRound(scopes, entries, i)
  {
    if GoesRound(scopes, entries, i) {
      var c: nat, d: nat :| c < d && ReturnsTo(scopes, entries, i, c, d);
      forall e: nat ensures !StopsAt(scopes, entries, i, e) { NeverStops(scopes, entries, i, c, d, e); }
    }
    if forall d: nat :: !StopsAt(scopes, entries, i, d) {
      EndlessGoesRound(scopes, entries, i);
    }
  }

  lemma EndlessGoesRound(scopes: Scopes, entries: seq<IdentResolution>, i: nat)
    requires forall d: nat :: !StopsAt(scopes, entries, i, d)
    ensures GoesRound(scopes, entries, i)
  {
    var n := |scopes| + 1;
    GoesOn(scopes, entries, i, n);
    var path := seq(n, d requires 0 <= d < n => Climb(scopes, i, d).value);
    SomeRepeats(path, |scopes|);
    var c, d :| 0 <= c < d < n && path[c] == path[d];
    assert ReturnsTo(scopes, entries, i, c, d);
  }

  /** Where each parent precedes its child the walk climbs strictly down the indices, so it ends. */
  lemma {:induction false} ClimbsDown(scopes: Scopes, i: nat, d: nat)
    requires ParentsFirst(scopes) && Climb(scopes, i, d).Some?
    ensures Climb(scopes, i, d).value + d <= i
  {
    if d > 0 {
      ClimbsDown(scopes, i, d - 1);
    }
  }

  lemma ParentsFirstEnds(scopes: Scopes, entries: seq<IdentResolution>, i: nat)
    requires ParentsFirst(scopes)
    ensures !GoesRound(scopes, entries, i)
  {
    if GoesRound(scopes, entries, i) {
      var c: nat, d: nat :| c < d && ReturnsTo(scopes, entries, i, c, d);
      NeverStops(scopes, entries, i, c, d, i + 1);
      forall e: nat | e < i + 1 ensures !StopsAt(scopes, entries, i, e) { NeverStops(scopes, entries, i, c, d, e); }
      GoesOn(scopes, entries, i, i + 1);
      ClimbsDown(scopes, i, i + 1);
    }
  }

  /** Where the walk stops for the first time. */
  ghost predicate StopsFirst(scopes: Scopes, entries: seq<IdentResolution>, i: nat, d: nat) {
    StopsAt(scopes, entries, i, d) && forall e: nat :: e < d ==> !StopsAt(scopes, entries, i, e)
  }

  /** Resolving goes on the same from any scope the walk passes. */
  lemma {:induction false} ResolveAlong(scopes: Scopes, entries: seq<IdentResolution>, i: nat, d: nat)
    requires ParentsFirst(scopes) && Climb(scopes, i, d).Some?
    requires forall e: nat :: e < d ==> !StopsAt(scopes, entries, i, e)
    ensures Resolve(scopes, entries, i) == Resolve(scopes, entries, Climb(scopes, i, d).value)
  {
    if d > 0 {
      ResolveAlong(scopes, entries, i, d - 1);
      assert !StopsAt(scopes, entries, i, d - 1);
    }
  }

  // ---- the arena ----

  class ModuleLookup {
    var scopes: Scopes
    var bindings: map<string, seq<IdentResolution>>
    var spanToScope: map<(int, int), nat>

    ghost predicate Valid()
      reads this
    {
      && scopes != []
      && forall name :: name in bindings ==> bindings[name] != [] && forall k :: 0 <= k < |bindings[name]| ==>
        bindings[name][k].name == name
    }

    function EntriesOf(name: string): seq<IdentResolution>
      reads this
    {
      if name in bindings then bindings[name] else []
    }

    constructor ()
      ensures Valid() && ParentsFirst(scopes) && scopes == [ScopeRange(1, U32_RANGE - 1, None)]
      ensures forall name :: EntriesOf(name) == []
    {
      scopes := [ScopeRange(1, U32_RANGE - 1, None)];
      bindings := map[];
      spanToScope := map[];
    }

    method PushScope(range: ScopeRange) returns (idx: nat)
      requires Valid()
      modifies this`scopes
      ensures Valid() && scopes == old(scopes) + [range] && idx == old(|scopes|) % U32_RANGE
      ensures ParentsFirst(scopes) <==>
        ParentsFirst(old(scopes)) && (range.parent.Some? ==> range.parent.value < |old(scopes)|)
      ensures ParentsFirst(scopes) && ParentsFirst(old(scopes)) ==> forall name, i :: i != |old(scopes)| ==>
        Resolve(scopes, EntriesOf(name), i) == Resolve(old(scopes), old(EntriesOf(name)), i)
    {
      idx := |scopes| % U32_RANGE;
      ghost var before := scopes;
      scopes := scopes + [range];
      ParentsFirstSnoc(before, range);
      if ParentsFirst(scopes) {
        forall name, i | i != |before|
          ensures Resolve(scopes, EntriesOf(name), i) == Resolve(before, EntriesOf(name), i)
        {
          PushScopeKeepsAnswers(before, range, EntriesOf(name), i);
        }
      }
    }

    method PushScopeWithSpan(range: ScopeRange, lo: int, hi: int) returns (idx: nat)
      requires Valid()
      modifies this`scopes, this`spanToScope
      ensures Valid() && scopes == old(scopes) + [range] && idx == old(|scopes|) % U32_RANGE
      ensures ParentsFirst(scopes) <==>
        ParentsFirst(old(scopes)) && (range.parent.Some? ==> range.parent.value < |old(scopes)|)
      ensures spanToScope == old(spanToScope)[(lo, hi) := idx]
    {
      idx := PushScope(range);
      spanToScope := spanToScope[(lo, hi) := idx];
    }

    method PushBinding(b: IdentResolution)
      requires Valid()
      modifies this`bindings
      ensures Valid() && EntriesOf(b.name) == old(EntriesOf(b.name)) + [b]
      ensures forall name :: name != b.name ==> EntriesOf(name) == old(EntriesOf(name))
      ensures ParentsFirst(scopes) ==> forall i :: (
        Resolve(scopes, EntriesOf(b.name), i) ==
        if ReachedFirst(scopes, old(EntriesOf(b.name)), i, b.scopeIdx) then Some(b)
        else Resolve(scopes, old(EntriesOf(b.name)), i))
    {
      ghost var before := EntriesOf(b.name);
      bindings := bindings[b.name := EntriesOf(b.name) + [b]];
      if ParentsFirst(scopes) {
        forall i ensures Resolve(scopes, before + [b], i) ==
          if ReachedFirst(scopes, before, i, b.scopeIdx) then Some(b) else Resolve(scopes, before, i)
        {
          PushBindingChanges(scopes, before, b, i);
        }
      }
    }

    /**
     An unbound name needs no walk. For a bound one the walk has to end; with parents
     before children it always does.
     */
    method ResolveLocal(name: string, start: nat) returns (r: Option<IdentResolution>)
      requires Valid() && (name in bindings ==> !GoesRound(scopes, bindings[name], start))
      ensures name !in bindings ==> r.None?
      ensures name in bindings ==> exists d: nat :: (
        StopsFirst(scopes, bindings[name], start, d) && r == LatestIn(bindings[name], Climb(scopes, start, d).value))
      ensures ParentsFirst(scopes) ==> r == Resolve(scopes, EntriesOf(name), start)
      ensures r.Some? ==> r.value.name == name && r.value in EntriesOf(name)
    {
      if name !in bindings {
        if ParentsFirst(scopes) {
          UnboundAnswer(scopes, start);
        }
        return None;
      }
      var entries := bindings[name];
      WalkEndsIff(scopes, entries, start);
      ghost var end: nat :| StopsAt(scopes, entries, start, end);
      var scopeIdx: nat := start;
      ghost var d: nat := 0;
      while true
        invariant d <= end && Climb(scopes, start, d) == Some(scopeIdx)
        invariant forall e: nat :: e < d ==> !StopsAt(scopes, entries, start, e)
        decreases end - d
      {
        var found := LatestIn(entries, scopeIdx);
        if found.Some? {
          LatestIsEntry(entries, scopeIdx);
          WalkAnswer(scopes, entries, start, d);
          return found;
        }
        if scopeIdx >= |scopes| || scopes[scopeIdx].parent.None? {
          WalkAnswer(scopes, entries, start, d);
          return None;
        }
        assert !StopsAt(scopes, entries, start, d);
        scopeIdx := scopes[scopeIdx].parent.value;
        d := d + 1;
      }
    }
  }

  /** The answer at the first stop is the resolution. */
  lemma WalkAnswer(scopes: Scopes, entries: seq<IdentResolution>, i: nat, d: nat)
    requires StopsFirst(scopes, entries, i, d)
    ensures ParentsFirst(scopes) ==> Resolve(scopes, entries, i) == LatestIn(entries, Climb(scopes, i, d).value)
  {
    if ParentsFirst(scopes) {
      ResolveAlong(scopes, entries, i, d);
    }
  }

  /** A name nobody binds is not found anywhere. */
  lemma {:induction false} UnboundAnswer(scopes: Scopes, i: nat)
    requires ParentsFirst(scopes)
    ensures Resolve(scopes, [], i) == None
    decreases i
  {
    if i < |scopes| && scopes[i].parent.Some? {
      UnboundAnswer(scopes, scopes[i].parent.value);
    }
  }

  lemma {:induction false} LatestIsEntry(entries: seq<IdentResolution>, i: nat)
    requires LatestIn(entries, i).Some?
    ensures LatestIn(entries, i).value in entries
  {
    if entries[|entries| - 1].scopeIdx != i {
      LatestIsEntry(entries[..|entries| - 1], i);
    }
  }
}
