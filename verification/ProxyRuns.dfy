/**
 Whole runs of the proxy, state by state: exactly when an id is registered, when a
 registration is answered as existing, when the default's entry survives, and when a
 health snapshot adds up.
 */
module ProxyRuns {
  import opened ProxyRegistry

  ghost predicate IsTrace(trace: seq<State>, steps: seq<Step>) {
    && |trace| == |steps| + 1
    && forall k :: 0 <= k < |steps| ==> Follows(trace[k], steps[k], trace[k + 1])
  }

  ghost predicate Follows(s: State, step: Step, t: State) {
    Enabled(s, step.request, step.event) && t == Next(s, step.request, step.event)
  }

  /** Every run has its trace. */
  lemma {:induction false} TraceOf(s: State, steps: seq<Step>) returns (trace: seq<State>)
    requires Runs(s, steps)
    ensures IsTrace(trace, steps) && trace[0] == s && trace[|steps|] == After(s, steps)
    decreases |steps|
  {
    if steps == [] {
      trace := [s];
    } else {
      var rest := TraceOf(Next(s, steps[0].request, steps[0].event), steps[1..]);
      trace := [s] + rest;
      forall k | 0 <= k < |steps| ensures Follows(trace[k], steps[k], trace[k + 1]) {
        if k > 0 {
          assert trace[k] == rest[k - 1] && trace[k + 1] == rest[k] && steps[k] == steps[1..][k - 1];
        }
      }
    }
  }

  lemma {:induction false} DefaultIdStays(trace: seq<State>, steps: seq<Step>, n: nat)
    requires IsTrace(trace, steps) && n <= |steps|
    ensures trace[n].defaultId == trace[0].defaultId
  {
    if n > 0 {
      DefaultIdStays(trace, steps, n - 1);
      assert Follows(trace[n - 1], steps[n - 1], trace[n]);
    }
  }

  // ---- when an id is registered ----

  /** The step puts an entry under the id. */
  predicate Inserts(s: State, step: Step, id: string) {
    && step.event.Insert? && step.request in s.tasks
    && s.tasks[step.request].Created? && s.tasks[step.request].entry.id == id
  }

  /** The step takes the id out; the default's cannot be. */
  predicate Removes(s: State, step: Step, id: string) {
    step.event.Remove? && step.request in s.tasks && s.tasks[step.request] == Unregister(id) && id != s.defaultId
  }

  ghost predicate NoRemoval(trace: seq<State>, steps: seq<Step>, id: string, from: nat, to: nat)
    requires IsTrace(trace, steps) && to <= |steps|
  {
    forall m :: from <= m < to ==> !Removes(trace[m], steps[m], id)
  }

  /** The id was there at the start, or was inserted, and was not removed since. */
  ghost predicate StillThere(trace: seq<State>, steps: seq<Step>, id: string, n: nat)
    requires IsTrace(trace, steps) && n <= |steps|
  {
    || (id in trace[0].workspaces && NoRemoval(trace, steps, id, 0, n))
    || (exists k :: 0 <= k < n && Inserts(trace[k], steps[k], id) && NoRemoval(trace, steps, id, k + 1, n))
  }

  lemma OneStepRegistry(s: State, step: Step, t: State, id: string)
    requires Follows(s, step, t)
    ensures id in t.workspaces <==> Inserts(s, step, id) || (id in s.workspaces && !Removes(s, step, id))
  {
  }

  lemma {:induction false} StillThereStep(trace: seq<State>, steps: seq<Step>, id: string, n: nat)
    requires IsTrace(trace, steps) && n < |steps|
    ensures StillThere(trace, steps, id, n + 1) <==>
      Inserts(trace[n], steps[n], id) || (StillThere(trace, steps, id, n) && !Removes(trace[n], steps[n], id))
  {
    if Inserts(trace[n], steps[n], id) {
      assert NoRemoval(trace, steps, id, n + 1, n + 1);
    }
    if StillThere(trace, steps, id, n) && !Removes(trace[n], steps[n], id) {
      if id in trace[0].workspaces && NoRemoval(trace, steps, id, 0, n) {
        assert NoRemoval(trace, steps, id, 0, n + 1);
      } else {
        var k :| 0 <= k < n && Inserts(trace[k], steps[k], id) && NoRemoval(trace, steps, id, k + 1, n);
        assert NoRemoval(trace, steps, id, k + 1, n + 1);
      }
    }
    if StillThere(trace, steps, id, n + 1) && !Inserts(trace[n], steps[n], id) {
      if id in trace[0].workspaces && NoRemoval(trace, steps, id, 0, n + 1) {
        assert NoRemoval(trace, steps, id, 0, n);
      } else {
        var k :| 0 <= k < n + 1 && Inserts(trace[k], steps[k], id) && NoRemoval(trace, steps, id, k + 1, n + 1);
        assert NoRemoval(trace, steps, id, k + 1, n);
      }
    }
  }

  /** An id is registered exactly when it was at the start or was inserted, and no removal came later. */
  lemma {:induction false} RegisteredIff(trace: seq<State>, steps: seq<Step>, id: string, n: nat)
    requires IsTrace(trace, steps) && n <= |steps|
    ensures id in trace[n].workspaces <==> StillThere(trace, steps, id, n)
  {
    if n > 0 {
      RegisteredIff(trace, steps, id, n - 1);
      assert Follows(trace[n - 1], steps[n - 1], trace[n]);
      OneStepRegistry(trace[n - 1], steps[n - 1], trace[n], id);
      StillThereStep(trace, steps, id, n - 1);
    }
  }

  /** A registration is answered as existing exactly when an insert of its id, not undone, precedes its lookup. */
  lemma AnsweredIff(trace: seq<State>, steps: seq<Step>, n: nat, id: string)
    requires IsTrace(trace, steps) && n < |steps| && steps[n].event == LookupId(id)
    ensures var r := steps[n].request;
      && r in trace[n + 1].tasks
      && (trace[n + 1].tasks[r] == Replied(200) <==> StillThere(trace, steps, id, n))
      && (trace[n + 1].tasks[r].Missed? <==> !StillThere(trace, steps, id, n))
  {
    assert Follows(trace[n], steps[n], trace[n + 1]);
    RegisteredIff(trace, steps, id, n);
  }

  /**
   Two registrations of one new id: the second goes on to create, like the first, exactly
   when it looks before the first has inserted, or after the id was removed again.
   */
  lemma BothCreateIff(trace: seq<State>, steps: seq<Step>, id: string, insert: nat, look: nat)
    requires IsTrace(trace, steps) && insert < |steps| && look < |steps| && id !in trace[0].workspaces
    requires Inserts(trace[insert], steps[insert], id) && steps[look].event == LookupId(id)
    requires forall k :: 0 <= k < look && Inserts(trace[k], steps[k], id) ==> k == insert
    ensures steps[look].request in trace[look + 1].tasks
    ensures trace[look + 1].tasks[steps[look].request].Missed? <==>
      look < insert || exists m :: insert < m < look && Removes(trace[m], steps[m], id)
  {
    AnsweredIff(trace, steps, look, id);
    assert look != insert;
    if StillThere(trace, steps, id, look) {
      var k :| 0 <= k < look && Inserts(trace[k], steps[k], id) && NoRemoval(trace, steps, id, k + 1, look);
    } else if insert < look {
      assert !NoRemoval(trace, steps, id, insert + 1, look);
    }
  }

  // ---- the default's entry ----

  /** The step replaces the default's entry. */
  predicate ReplacesDefault(s: State, step: Step, entry: Entry) {
    Inserts(s, step, s.defaultId) && s.tasks[step.request].entry != entry
  }

  ghost predicate DefaultEntryIs(s: State, entry: Entry) {
    s.defaultId in s.workspaces && s.workspaces[s.defaultId] == entry
  }

  lemma OneStepDefault(s: State, step: Step, t: State, entry: Entry)
    requires Follows(s, step, t) && DefaultEntryIs(s, entry)
    ensures DefaultEntryIs(t, entry) <==> !ReplacesDefault(s, step, entry)
  {
  }

  /** The default keeps its entry in every state exactly when no insert carries its id with another entry. */
  lemma {:induction false} DefaultKeptIff(trace: seq<State>, steps: seq<Step>, entry: Entry, n: nat)
    requires IsTrace(trace, steps) && n <= |steps| && DefaultEntryIs(trace[0], entry)
    ensures (forall k :: 0 <= k <= n ==> DefaultEntryIs(trace[k], entry)) <==>
      forall k :: 0 <= k < n ==> !ReplacesDefault(trace[k], steps[k], entry)
  {
    if n > 0 {
      DefaultKeptIff(trace, steps, entry, n - 1);
      assert Follows(trace[n - 1], steps[n - 1], trace[n]);
      if DefaultEntryIs(trace[n - 1], entry) {
        OneStepDefault(trace[n - 1], steps[n - 1], trace[n], entry);
      }
    }
  }

  // ---- health snapshots ----

  lemma {:induction false} TraceCountsExactly(trace: seq<State>, steps: seq<Step>, n: nat)
    requires IsTrace(trace, steps) && n <= |steps| && CountersExact(trace[0])
    ensures CountersExact(trace[n])
  {
    if n > 0 {
      TraceCountsExactly(trace, steps, n - 1);
      assert Follows(trace[n - 1], steps[n - 1], trace[n]);
      CountersStayExact(trace[n - 1], steps[n - 1].request, steps[n - 1].event);
    }
  }

  /** A request that has ended stays as it ended, and a counted one stays counted. */
  lemma {:induction false} ClassesGrow(trace: seq<State>, steps: seq<Step>, i: nat, k: nat)
    requires IsTrace(trace, steps) && i <= k <= |steps|
    ensures CountedOf(trace[i]) <= CountedOf(trace[k]) && SuccessfulOf(trace[i]) <= SuccessfulOf(trace[k])
    ensures UnavailableOf(trace[i]) <= UnavailableOf(trace[k])
    decreases k - i
  {
    if i < k {
      ClassesGrow(trace, steps, i, k - 1);
      assert Follows(trace[k - 1], steps[k - 1], trace[k]);
      StepMoves(trace[k - 1], steps[k - 1].request, steps[k - 1].event);
    }
  }

  lemma SizesCompare(x: set<nat>, y: set<nat>)
    ensures |x| <= |y| <==> |x - y| <= |y - x|
  {
    assert x == (x - y) + (x * y) && y == (y - x) + (x * y);
  }

  /** The requests a snapshot shows as ended: successes when they were loaded, 503s when those were. */
  ghost function EndedSeen(b: State, c: State): set<nat> { SuccessfulOf(b) + UnavailableOf(c) }

  /**
   The total is loaded in one state, the successes in a later one, the 503s in a later
   one still. The snapshot adds up exactly when the requests it shows as ended that were
   not yet in its total are no more than the requests in its total it does not show as ended.
   */
  lemma SnapshotIff(trace: seq<State>, steps: seq<Step>, i: nat, j: nat, k: nat)
    requires IsTrace(trace, steps) && i <= j <= k <= |steps| && CountersExact(trace[0])
    ensures var a, ended := trace[i], EndedSeen(trace[j], trace[k]);
      trace[j].successful + trace[k].unavailable <= a.total <==> |ended - CountedOf(a)| <= |CountedOf(a) - ended|
  {
    TraceCountsExactly(trace, steps, i);
    TraceCountsExactly(trace, steps, j);
    TraceCountsExactly(trace, steps, k);
    ClassesGrow(trace, steps, j, k);
    assert SuccessfulOf(trace[k]) !! UnavailableOf(trace[k]);
    SizesCompare(EndedSeen(trace[j], trace[k]), CountedOf(trace[i]));
  }

  lemma {:induction false} NothingCounted(trace: seq<State>, steps: seq<Step>, i: nat, k: nat)
    requires IsTrace(trace, steps) && i <= k <= |steps| && forall m :: i <= m < k ==> !steps[m].event.Count?
    ensures CountedOf(trace[k]) == CountedOf(trace[i])
    decreases k - i
  {
    if i < k {
      NothingCounted(trace, steps, i, k - 1);
      assert Follows(trace[k - 1], steps[k - 1], trace[k]);
      StepMoves(trace[k - 1], steps[k - 1].request, steps[k - 1].event);
    }
  }

  /** If no request is counted between the first load and the last, the snapshot adds up. */
  lemma QuietSnapshotAddsUp(trace: seq<State>, steps: seq<Step>, i: nat, j: nat, k: nat)
    requires IsTrace(trace, steps) && i <= j <= k <= |steps| && CountersExact(trace[0])
    requires forall m :: i <= m < k ==> !steps[m].event.Count?
    ensures trace[j].successful + trace[k].unavailable <= trace[i].total
  {
    SnapshotIff(trace, steps, i, j, k);
    NothingCounted(trace, steps, i, k);
    ClassesGrow(trace, steps, j, k);
    assert EndedSeen(trace[j], trace[k]) - CountedOf(trace[i]) == {};
  }

  /** Nobody else moves a request. */
  lemma {:induction false} OthersLeaveIt(trace: seq<State>, steps: seq<Step>, n: nat, i: nat, k: nat)
    requires IsTrace(trace, steps) && i <= k <= |steps| && n in trace[i].tasks
    requires forall m :: i <= m < k ==> steps[m].request != n
    ensures n in trace[k].tasks && trace[k].tasks[n] == trace[i].tasks[n]
    decreases k - i
  {
    if i < k {
      OthersLeaveIt(trace, steps, n, i, k - 1);
      assert Follows(trace[k - 1], steps[k - 1], trace[k]);
      StepMoves(trace[k - 1], steps[k - 1].request, steps[k - 1].event);
    }
  }

  /** What a health request answers: the three counters as they were at its three loads. */
  lemma HealthAnswers(trace: seq<State>, steps: seq<Step>, n: nat, i: nat, j: nat, k: nat)
    requires IsTrace(trace, steps) && i < j < k < |steps| && n in trace[i].tasks && trace[i].tasks[n].Health?
    requires steps[i] == Step(n, Load) && steps[j] == Step(n, Load) && steps[k] == Step(n, Load)
    requires forall m :: i < m < k && m != j ==> steps[m].request != n
    ensures n in trace[k + 1].tasks
    ensures trace[k + 1].tasks[n] == Snapshot(trace[i].total, trace[j].successful, trace[k].unavailable)
  {
    assert Follows(trace[i], steps[i], trace[i + 1]);
    OthersLeaveIt(trace, steps, n, i + 1, j);
    assert Follows(trace[j], steps[j], trace[j + 1]);
    OthersLeaveIt(trace, steps, n, j + 1, k);
    assert Follows(trace[k], steps[k], trace[k + 1]);
  }
}
