/** What one sweep, and any number of sweeps, does to the edge table. */
module EdgeSweepTheorems {
  import opened Prelude
  import opened EdgeSweep

  // ---- traits depend on the resolved IMPLEMENTS edges only ----

  ghost predicate SameImplements(a: seq<Edge>, b: seq<Edge>) {
    && |a| == |b|
    && (forall k :: 0 <= k < |a| ==> a[k].kind == b[k].kind)
    && (forall k :: 0 <= k < |a| && a[k].kind == "IMPLEMENTS" ==> a[k] == b[k])
  }

  lemma {:induction false} SameTraits(w: World, a: seq<Edge>, b: seq<Edge>, receiver: string)
    requires SameImplements(a, b)
    ensures Traits(w, a, receiver) == Traits(w, b, receiver)
  {
    if a != [] {
      SameTraits(w, a[..|a| - 1], b[..|b| - 1], receiver);
      assert a[|a| - 1].kind == b[|b| - 1].kind;
    }
  }

  lemma SameAnswer(w: World, a: seq<Edge>, b: seq<Edge>, e: Edge)
    requires e.toUnresolved.Some? && (SameImplements(a, b) || e.kind != "CALLS")
    ensures Resolve(w, a, e) == Resolve(w, b, e)
  {
    if e.kind == "CALLS" && e.receiverType.Some? {
      SameTraits(w, a, b, e.receiverType.value);
    }
  }

  lemma {:induction false} InsertNameMembers(names: seq<string>, name: string)
    ensures forall x :: x in InsertName(names, name) <==> x in names || x == name
  {
    if names != [] && !Before(name, names[0]) && names[0] != name {
      InsertNameMembers(names[1..], name);
    }
  }

  lemma {:induction false} TraitsMembers(w: World, edges: seq<Edge>, receiver: string)
    ensures forall x :: x in Traits(w, edges, receiver) <==>
      exists k :: 0 <= k < |edges| && TraitOf(w, receiver, edges[k]) == Some(x)
  {
    if edges != [] {
      var rest, last := edges[..|edges| - 1], edges[|edges| - 1];
      TraitsMembers(w, rest, receiver);
      var t := TraitOf(w, receiver, last);
      if t.Some? { InsertNameMembers(Traits(w, rest, receiver), t.value); }
      forall x | exists k :: 0 <= k < |edges| && TraitOf(w, receiver, edges[k]) == Some(x)
        ensures x in Traits(w, edges, receiver)
      {
        var k :| 0 <= k < |edges| && TraitOf(w, receiver, edges[k]) == Some(x);
        assert k < |rest| ==> rest[k] == edges[k];
      }
      forall x | x in Traits(w, edges, receiver)
        ensures exists k :: 0 <= k < |edges| && TraitOf(w, receiver, edges[k]) == Some(x)
      {
        if x in Traits(w, rest, receiver) {
          var k :| 0 <= k < |rest| && TraitOf(w, receiver, rest[k]) == Some(x);
          assert edges[k] == rest[k];
        } else {
          assert TraitOf(w, receiver, edges[|edges| - 1]) == Some(x);
        }
      }
    }
  }

  lemma {:induction false} FirstTraitMethodIff(w: World, traits: seq<string>, method_: string)
    ensures FirstTraitMethod(w, traits, method_).Some? <==>
      exists t :: t in traits && LookupSymbolId(w.symbols, t + "::" + method_).Some?
  {
    if traits != [] {
      FirstTraitMethodIff(w, traits[1..], method_);
      if FirstTraitMethod(w, traits, method_).Some? {
        if LookupSymbolId(w.symbols, traits[0] + "::" + method_).None? {
          var t :| t in traits[1..] && LookupSymbolId(w.symbols, t + "::" + method_).Some?;
          assert t in traits;
        }
      }
    }
  }

  /** Resolving edges never takes a trait away. */
  lemma DispatchGrows(w: World, a: seq<Edge>, b: seq<Edge>, receiver: string, method_: string)
    requires Progresses(a, b) && Checked(a) && ViaTraitDispatch(w, a, receiver, method_).Some?
    ensures ViaTraitDispatch(w, b, receiver, method_).Some?
  {
    FirstTraitMethodIff(w, Traits(w, a, receiver), method_);
    FirstTraitMethodIff(w, Traits(w, b, receiver), method_);
    TraitsMembers(w, a, receiver);
    TraitsMembers(w, b, receiver);
    var t :| t in Traits(w, a, receiver) && LookupSymbolId(w.symbols, t + "::" + method_).Some?;
    var k :| 0 <= k < |a| && TraitOf(w, receiver, a[k]) == Some(t);
    assert Progress(a[k], b[k]) && b[k] == a[k];
    assert t in Traits(w, b, receiver);
  }

  // ---- one sweep ----

  lemma PlanIsFresh(w: World, edges: seq<Edge>)
    ensures Fresh(edges, Planned(w, edges, |edges|))
  {
    var plan := Planned(w, edges, |edges|);
    PlannedIncreases(w, edges, |edges|);
    forall k | 0 <= k < |plan| ensures edges[plan[k].edge].toUnresolved.Some? {
      assert plan[k] in plan;
      PlannedMembers(w, edges, |edges|, plan[k]);
    }
  }

  /** The edge is left as it is: no tier answers, or its place is taken. */
  ghost predicate Stuck(w: World, table: seq<Edge>, edges: seq<Edge>, k: nat, unique: bool)
    requires k < |edges| && edges[k].toUnresolved.Some?
  {
    var answer := Resolve(w, table, edges[k]);
    answer.None? || (unique && Collides(edges, k, answer.value.symbolId))
  }

  /** Resolved edges are untouched, the check constraint holds, and whatever is left is stuck. */
  lemma SweepDecides(w: World, edges: seq<Edge>, unique: bool)
    requires Checked(edges)
    ensures var r := Sweep(w, edges, unique);
      && Progresses(edges, r) && Checked(r)
      && (forall k :: 0 <= k < |r| && r[k].toUnresolved.Some? ==> r[k] == edges[k] && Stuck(w, edges, r, k, unique))
  {
    var r, plan := Sweep(w, edges, unique), Planned(w, edges, |edges|);
    PlanIsFresh(w, edges);
    ApplyAllProgresses(edges, plan, unique);
    ProgressKeepsChecks(edges, r);
    forall k | 0 <= k < |r| && r[k].toUnresolved.Some? ensures r[k] == edges[k] && Stuck(w, edges, r, k, unique) {
      assert Progress(edges[k], r[k]);
      var answer := Resolve(w, edges, edges[k]);
      if answer.Some? {
        PlannedMembers(w, edges, |edges|, Update(k, answer.value.symbolId));
        var n :| 0 <= n < |plan| && plan[n] == Update(k, answer.value.symbolId);
        ApplyAllDecides(edges, plan, unique, n);
      }
    }
  }

  ghost predicate Settled(w: World, edges: seq<Edge>, unique: bool) {
    forall k :: 0 <= k < |edges| && edges[k].toUnresolved.Some? ==> Stuck(w, edges, edges, k, unique)
  }

  lemma {:induction false} AllCollide(edges: seq<Edge>, plan: seq<Update>)
    requires forall k :: 0 <= k < |plan| ==> plan[k].edge < |edges| && Collides(edges, plan[k].edge, plan[k].symbolId)
    ensures ApplyAll(edges, plan, true) == edges
  {
    if plan != [] {
      AllCollide(edges, plan[..|plan| - 1]);
    }
  }

  /** A sweep changes nothing exactly when every unresolved edge is stuck. */
  lemma SettledIff(w: World, edges: seq<Edge>, unique: bool)
    requires Checked(edges)
    ensures Sweep(w, edges, unique) == edges <==> Settled(w, edges, unique)
  {
    var plan := Planned(w, edges, |edges|);
    SweepDecides(w, edges, unique);
    if Settled(w, edges, unique) {
      forall k | 0 <= k < |plan| ensures unique && Collides(edges, plan[k].edge, plan[k].symbolId) {
        assert plan[k] in plan;
        PlannedMembers(w, edges, |edges|, plan[k]);
        assert Stuck(w, edges, edges, plan[k].edge, unique);
      }
      if unique {
        AllCollide(edges, plan);
      }
    }
  }

  // ---- several sweeps ----

  /** If the first sweep resolved no IMPLEMENTS edge, the second has nothing to do. */
  lemma OneSweepSettles(w: World, edges: seq<Edge>, unique: bool)
    requires Checked(edges)
    requires forall k :: 0 <= k < |edges| && edges[k].kind == "IMPLEMENTS" ==> Sweep(w, edges, unique)[k] == edges[k]
    ensures Sweep(w, Sweep(w, edges, unique), unique) == Sweep(w, edges, unique)
  {
    var u := Sweep(w, edges, unique);
    SweepDecides(w, edges, unique);
    forall k | 0 <= k < |u| ensures edges[k].kind == u[k].kind { assert Progress(edges[k], u[k]); }
    forall k | 0 <= k < |u| && u[k].toUnresolved.Some? ensures Stuck(w, u, u, k, unique) {
      SameAnswer(w, edges, u, u[k]);
    }
    SettledIff(w, u, unique);
  }

  /** A second sweep resolves no IMPLEMENTS edge: their tiers read nothing a sweep writes. */
  lemma ImplementsSettleFirst(w: World, edges: seq<Edge>, unique: bool, k: nat)
    requires Checked(edges) && k < |edges| && edges[k].kind == "IMPLEMENTS"
    ensures var u := Sweep(w, edges, unique); Sweep(w, u, unique)[k] == u[k]
  {
    var u := Sweep(w, edges, unique);
    var v := Sweep(w, u, unique);
    SweepDecides(w, edges, unique);
    SweepDecides(w, u, unique);
    assert Progress(edges[k], u[k]) && Progress(u[k], v[k]);
    if u[k].toUnresolved.Some? {
      SameAnswer(w, edges, u, u[k]);
      StuckStays(w, u, unique, k);
    }
  }

  /** An edge stuck at the start of a sweep is not touched by it. */
  lemma StuckStays(w: World, edges: seq<Edge>, unique: bool, k: nat)
    requires Checked(edges) && k < |edges| && edges[k].toUnresolved.Some? && Stuck(w, edges, edges, k, unique)
    ensures Sweep(w, edges, unique)[k] == edges[k]
  {
    var plan := Planned(w, edges, |edges|);
    PlanIsFresh(w, edges);
    forall n | 0 <= n < |plan| && plan[n].edge == k ensures unique && Collides(edges, k, plan[n].symbolId) {
      assert plan[n] in plan;
      PlannedMembers(w, edges, |edges|, plan[n]);
    }
    CollidingStays(edges, plan, unique, k);
  }

  lemma {:induction false} CollidingStays(edges: seq<Edge>, plan: seq<Update>, unique: bool, k: nat)
    requires Fresh(edges, plan) && Checked(edges) && k < |edges|
    requires forall n :: 0 <= n < |plan| && plan[n].edge == k ==> unique && Collides(edges, k, plan[n].symbolId)
    ensures ApplyAll(edges, plan, unique)[k] == edges[k]
  {
    if plan != [] {
      var rest, last := plan[..|plan| - 1], plan[|plan| - 1];
      CollidingStays(edges, rest, unique, k);
      if last.edge == k {
        ApplyAllProgresses(edges, rest, unique);
        CollisionStays(edges, ApplyAll(edges, rest, unique), k, last.symbolId);
      }
    }
  }

  /** Two sweeps always reach a fixed point. */
  lemma TwoSweepsSettle(w: World, edges: seq<Edge>, unique: bool)
    requires Checked(edges)
    ensures var v := Sweep(w, Sweep(w, edges, unique), unique); Sweep(w, v, unique) == v
  {
    var u := Sweep(w, edges, unique);
    SweepDecides(w, edges, unique);
    forall k | 0 <= k < |u| && u[k].kind == "IMPLEMENTS" ensures Sweep(w, u, unique)[k] == u[k] {
      assert Progress(edges[k], u[k]);
      ImplementsSettleFirst(w, edges, unique, k);
    }
    OneSweepSettles(w, u, unique);
  }

  /** A call the first sweep left unresolved that trait dispatch can now place. */
  ghost predicate Overlooked(w: World, u: seq<Edge>, k: nat, unique: bool)
    requires k < |u|
  {
    && u[k].toUnresolved.Some? && u[k].kind == "CALLS" && u[k].receiverType.Some?
    && ViaReceiverType(w, u[k].receiverType.value, u[k].toUnresolved.value).None?
    && var found := ViaTraitDispatch(w, u, u[k].receiverType.value, u[k].toUnresolved.value);
       found.Some? && !(unique && Collides(u, k, found.value))
  }

  /** Trait dispatch is the only way a second sweep can find work. */
  lemma SecondSweepIff(w: World, edges: seq<Edge>, unique: bool)
    requires Checked(edges)
    ensures var u := Sweep(w, edges, unique);
      Sweep(w, u, unique) == u <==> forall k :: 0 <= k < |u| ==> !Overlooked(w, u, k, unique)
  {
    var u := Sweep(w, edges, unique);
    SweepDecides(w, edges, unique);
    SettledIff(w, u, unique);
    forall k | 0 <= k < |u| && u[k].toUnresolved.Some?
      ensures Stuck(w, u, u, k, unique) <==> !Overlooked(w, u, k, unique)
    {
      StuckUnlessOverlooked(w, edges, u, k, unique);
    }
  }

  lemma StuckUnlessOverlooked(w: World, edges: seq<Edge>, u: seq<Edge>, k: nat, unique: bool)
    requires Checked(edges) && Progresses(edges, u) && k < |u| && u[k].toUnresolved.Some?
    requires u[k] == edges[k] && Stuck(w, edges, u, k, unique)
    ensures Stuck(w, u, u, k, unique) <==> !Overlooked(w, u, k, unique)
  {
    var e := u[k];
    if e.kind == "CALLS" && e.receiverType.Some? {
      if ViaTraitDispatch(w, edges, e.receiverType.value, e.toUnresolved.value).Some? {
        DispatchGrows(w, edges, u, e.receiverType.value, e.toUnresolved.value);
      }
    }
  }
}
