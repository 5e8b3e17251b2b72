/**
 The life of each request over whole runs: which workspace a forwarded request reaches,
 what registrations and removals are answered, and what they leave in the registry.
 */
module ProxyRouting {
  import opened Prelude
  import opened ProxyRegistry
  import opened ProxyRuns

  /** The request came in as `task` at step `a`. */
  ghost predicate Arrived(steps: seq<Step>, n: nat, task: Task, a: nat) {
    a < |steps| && steps[a] == Step(n, Arrive(task))
  }

  /** It takes none of the given steps between two states. */
  ghost predicate Idle(steps: seq<Step>, n: nat, from: nat, to: nat)
    requires to <= |steps|
  {
    forall m :: from <= m < to ==> steps[m].request != n
  }

  // ---- forwarded requests ----

  /** The id a request asks for. */
  function Wanted(s: State, target: Option<string>): string {
    if target.Some? then target.value else s.defaultId
  }

  /** Where a request is after looking in the registry of state `s`. */
  ghost predicate Routed(s: State, target: Option<string>, task: Task) {
    var id := Wanted(s, target);
    if id in s.workspaces then task == Found(s.workspaces[id]) || task == Counted(s.workspaces[id]) || task.Ended?
    else task == if target.Some? then Replied(404) else DefaultMissing
  }

  /** It still waits, or has looked at some step since. */
  ghost predicate ForwardLife(trace: seq<State>, steps: seq<Step>, n: nat, target: Option<string>, a: nat, k: nat)
    requires IsTrace(trace, steps) && k <= |steps|
  {
    n in trace[k].tasks && (
      || (trace[k].tasks[n] == Forward(target) && Idle(steps, n, a + 1, k))
      || exists l :: LooksAt(trace, steps, n, target, a, l, k))
  }

  ghost predicate LooksAt(
    trace: seq<State>, steps: seq<Step>, n: nat, target: Option<string>, a: nat, l: int, k: nat)
    requires IsTrace(trace, steps) && k <= |steps|
  {
    a < l < k && steps[l] == Step(n, Lookup) && n in trace[k].tasks && Routed(trace[l], target, trace[k].tasks[n])
  }

  lemma RoutedStep(s: State, step: Step, t: State, at: State, target: Option<string>)
    requires Follows(s, step, t) && step.request in s.tasks && Routed(at, target, s.tasks[step.request])
    ensures step.request in t.tasks && Routed(at, target, t.tasks[step.request])
  {
  }

  lemma LookupStep(s: State, step: Step, t: State, target: Option<string>)
    requires Follows(s, step, t) && step.request in s.tasks && s.tasks[step.request] == Forward(target)
    ensures step.event == Lookup && step.request in t.tasks && Routed(s, target, t.tasks[step.request])
  {
  }

  lemma {:induction false} ForwardLives(
    trace: seq<State>, steps: seq<Step>, n: nat, target: Option<string>, a: nat, k: nat)
    requires IsTrace(trace, steps) && Arrived(steps, n, Forward(target), a) && a < k <= |steps|
    ensures ForwardLife(trace, steps, n, target, a, k)
  {
    assert Follows(trace[k - 1], steps[k - 1], trace[k]);
    if k > a + 1 {
      ForwardLives(trace, steps, n, target, a, k - 1);
      StepMoves(trace[k - 1], steps[k - 1].request, steps[k - 1].event);
      var before := k - 1;
      if l :| LooksAt(trace, steps, n, target, a, l, before) {
        if steps[k - 1].request == n {
          RoutedStep(trace[k - 1], steps[k - 1], trace[k], trace[l], target);
        }
        assert LooksAt(trace, steps, n, target, a, l, k);
      } else if steps[k - 1].request == n {
        LookupStep(trace[k - 1], steps[k - 1], trace[k], target);
        assert LooksAt(trace, steps, n, target, a, k - 1, k);
      }
    }
  }

  lemma {:induction false} TraceSafe(trace: seq<State>, steps: seq<Step>, boot: Boot, k: nat)
    requires IsTrace(trace, steps) && Starts(trace[0], boot) && k <= |steps|
    ensures trace[k].defaultId == boot.defaultId && boot.defaultId in trace[k].workspaces
    ensures KeysAreIds(trace[k].workspaces) && NoneMissing(trace[k])
  {
    if k > 0 {
      TraceSafe(trace, steps, boot, k - 1);
      assert Follows(trace[k - 1], steps[k - 1], trace[k]);
      RegistryKeeps(trace[k - 1], steps[k - 1].request, steps[k - 1].event);
      NoneGoesMissing(trace[k - 1], steps[k - 1].request, steps[k - 1].event);
    }
  }

  /**
   In every run from boot a request for a named workspace only ever reaches the one of
   that id, and a request for none the default's.
   */
  lemma ReachesItsWorkspace(
    trace: seq<State>, steps: seq<Step>, boot: Boot, n: nat, target: Option<string>, a: nat, k: nat)
    requires IsTrace(trace, steps) && Starts(trace[0], boot)
    requires Arrived(steps, n, Forward(target), a) && a < k <= |steps|
    ensures n in trace[k].tasks
    ensures var task := trace[k].tasks[n];
      task.Found? || task.Counted? ==> task.ws.id == if target.Some? then target.value else boot.defaultId
  {
    ForwardLives(trace, steps, n, target, a, k);
    if l :| LooksAt(trace, steps, n, target, a, l, k) {
      TraceSafe(trace, steps, boot, l);
    }
  }

  /**
   It is answered 404 exactly when it named an id that was not registered when it looked:
   neither there at boot nor inserted before, or removed since.
   */
  lemma UnknownIff(
    trace: seq<State>, steps: seq<Step>, boot: Boot, n: nat, target: Option<string>, a: nat, l: nat, k: nat)
    requires IsTrace(trace, steps) && Starts(trace[0], boot)
    requires Arrived(steps, n, Forward(target), a) && a < l < k <= |steps| && steps[l] == Step(n, Lookup)
    ensures n in trace[k].tasks
    ensures trace[k].tasks[n] == Replied(404) <==> target.Some? && !StillThere(trace, steps, target.value, l)
    ensures trace[k].tasks[n].Replied? ==> trace[k].tasks[n] == Replied(404)
  {
    assert Follows(trace[l], steps[l], trace[l + 1]);
    ForwardLives(trace, steps, n, target, a, l);
    OnlyOneLookup(trace, steps, n, target, a, l);
    StaysRouted(trace, steps, n, target, l, k);
    TraceSafe(trace, steps, boot, l);
    if target.Some? {
      RegisteredIff(trace, steps, target.value, l);
    }
  }

  lemma OnlyOneLookup(trace: seq<State>, steps: seq<Step>, n: nat, target: Option<string>, a: nat, l: nat)
    requires IsTrace(trace, steps) && l < |steps| && steps[l] == Step(n, Lookup)
    requires ForwardLife(trace, steps, n, target, a, l)
    ensures trace[l].tasks[n] == Forward(target)
  {
    assert Follows(trace[l], steps[l], trace[l + 1]);
  }

  lemma {:induction false} StaysRouted(
    trace: seq<State>, steps: seq<Step>, n: nat, target: Option<string>, l: nat, k: nat)
    requires IsTrace(trace, steps) && l < k <= |steps| && steps[l] == Step(n, Lookup)
    requires n in trace[l].tasks && trace[l].tasks[n] == Forward(target)
    ensures n in trace[k].tasks && Routed(trace[l], target, trace[k].tasks[n])
  {
    assert Follows(trace[k - 1], steps[k - 1], trace[k]);
    if k == l + 1 {
      LookupStep(trace[l], steps[l], trace[k], target);
    } else {
      StaysRouted(trace, steps, n, target, l, k - 1);
      StepMoves(trace[k - 1], steps[k - 1].request, steps[k - 1].event);
      if steps[k - 1].request == n {
        RoutedStep(trace[k - 1], steps[k - 1], trace[k], trace[l], target);
      }
    }
  }

  // ---- removals ----

  /** What a removal is answered, and what it does to the registry. */
  ghost predicate RemovedAs(s: State, id: string, status: nat, t: State) {
    || (status == 409 && id == s.defaultId && t.workspaces == s.workspaces)
    || (status == 404 && id != s.defaultId && id !in s.workspaces && t.workspaces == s.workspaces)
    || (status == 204 && id != s.defaultId && id in s.workspaces && t.workspaces == s.workspaces - {id})
  }

  /** In every run a removal waits, or has taken effect at one step as its answer says. */
  lemma {:induction false} RemovalLives(trace: seq<State>, steps: seq<Step>, n: nat, id: string, a: nat, k: nat)
    requires IsTrace(trace, steps) && Arrived(steps, n, Unregister(id), a) && a < k <= |steps|
    ensures n in trace[k].tasks
    ensures trace[k].tasks[n] == Unregister(id) || (trace[k].tasks[n].Replied? &&
      exists l :: (
        && a < l < k && steps[l] == Step(n, Remove)
        && RemovedAs(trace[l], id, trace[k].tasks[n].status, trace[l + 1])))
  {
    assert Follows(trace[k - 1], steps[k - 1], trace[k]);
    if k > a + 1 {
      RemovalLives(trace, steps, n, id, a, k - 1);
      StepMoves(trace[k - 1], steps[k - 1].request, steps[k - 1].event);
      if trace[k - 1].tasks[n] == Unregister(id) && steps[k - 1].request == n {
        RemoveStep(trace[k - 1], steps[k - 1], trace[k], id);
      }
    }
  }

  lemma RemoveStep(s: State, step: Step, t: State, id: string)
    requires Follows(s, step, t) && step.request in s.tasks && s.tasks[step.request] == Unregister(id)
    ensures step.event == Remove && step.request in t.tasks && t.tasks[step.request].Replied?
    ensures RemovedAs(s, id, t.tasks[step.request].status, t)
  {
  }

  /** A removal's answer in terms of what happened before it. */
  lemma RemovalIff(
    trace: seq<State>, steps: seq<Step>, boot: Boot, n: nat, id: string, a: nat, l: nat)
    requires IsTrace(trace, steps) && Starts(trace[0], boot) && Arrived(steps, n, Unregister(id), a)
    requires a < l < |steps| && steps[l] == Step(n, Remove)
    ensures n in trace[l + 1].tasks
    ensures trace[l + 1].tasks[n] == Replied(
      if id == boot.defaultId then 409 else if StillThere(trace, steps, id, l) then 204 else 404)
    ensures id != boot.defaultId ==> id !in trace[l + 1].workspaces
  {
    assert Follows(trace[l], steps[l], trace[l + 1]);
    RemovalLives(trace, steps, n, id, a, l);
    TraceSafe(trace, steps, boot, l);
    RegisteredIff(trace, steps, id, l);
    RemoveStep(trace[l], steps[l], trace[l + 1], id);
  }

  // ---- registrations ----

  /** How far a registration of a path has come. */
  ghost predicate RegisterLife(
    trace: seq<State>, steps: seq<Step>, n: nat, path: string, a: nat, k: nat)
    requires IsTrace(trace, steps) && k <= |steps|
  {
    n in trace[k].tasks &&
    match trace[k].tasks[n]
    case Register(p) => p == path
    case Missed(p, id) =>
      p == path && exists l :: a < l < k && steps[l] == Step(n, LookupId(id)) && id !in trace[l].workspaces
    case Created(entry) => entry.root == path && exists l :: a < l < k && steps[l] == Step(n, Create(entry.id, true))
    case Replied(status) =>
      exists l :: (
        && a < l < k && steps[l].request == n
        && RegisteredAs(trace[l], steps[l].event, path, status, trace[l + 1]))
    case _ => false
  }

  /** The step that answers a registration: a bad body, a known id, a failed start, or the insert. */
  ghost predicate RegisteredAs(s: State, e: Event, path: string, status: nat, t: State) {
    match e
    case RejectBody => status == 400 && t.workspaces == s.workspaces
    case LookupId(id) => status == 200 && id in s.workspaces && t.workspaces == s.workspaces
    case Create(_, ok) => status == 500 && !ok && t.workspaces == s.workspaces
    case Insert => status == 201 && exists id :: t.workspaces == s.workspaces[id := Entry(id, path)]
    case _ => false
  }

  /** In every run a registration is answered as the step that ended it says. */
  lemma {:induction false} RegistrationLives(
    trace: seq<State>, steps: seq<Step>, n: nat, path: string, a: nat, k: nat)
    requires IsTrace(trace, steps) && Arrived(steps, n, Register(path), a) && a < k <= |steps|
    ensures RegisterLife(trace, steps, n, path, a, k)
  {
    assert Follows(trace[k - 1], steps[k - 1], trace[k]);
    if k > a + 1 {
      RegistrationLives(trace, steps, n, path, a, k - 1);
      StepMoves(trace[k - 1], steps[k - 1].request, steps[k - 1].event);
      if steps[k - 1].request == n {
        RegisterStep(trace[k - 1], steps[k - 1], trace[k], path);
      }
    }
  }

  lemma RegisterStep(s: State, step: Step, t: State, path: string)
    requires Follows(s, step, t) && step.request in s.tasks
    requires match s.tasks[step.request]
      case Register(p) => p == path
      case Missed(p, _) => p == path
      case Created(entry) => entry.root == path
      case _ => false
    ensures step.request in t.tasks
    ensures match t.tasks[step.request]
      case Missed(p, id) => p == path && step.event == LookupId(id) && id !in s.workspaces
      case Created(entry) => entry.root == path && step.event == Create(entry.id, true)
      case Replied(status) => RegisteredAs(s, step.event, path, status, t)
      case _ => false
  {
    if step.event == Insert {
      var entry := s.tasks[step.request].entry;
      assert t.workspaces == s.workspaces[entry.id := Entry(entry.id, path)];
    }
  }

  // ---- what the registry holds ----

  ghost predicate Writes(s: State, step: Step, id: string) {
    Inserts(s, step, id) || Removes(s, step, id)
  }

  ghost predicate Untouched(trace: seq<State>, steps: seq<Step>, id: string, from: nat, to: nat)
    requires IsTrace(trace, steps) && to <= |steps|
  {
    forall m :: from <= m < to ==> !Writes(trace[m], steps[m], id)
  }

  ghost predicate HeldSince(trace: seq<State>, steps: seq<Step>, id: string, entry: Entry, n: nat)
    requires IsTrace(trace, steps) && n <= |steps|
  {
    || (id in trace[0].workspaces && trace[0].workspaces[id] == entry && Untouched(trace, steps, id, 0, n))
    || (exists k :: 0 <= k < n && InsertsEntry(trace[k], steps[k], id, entry) && Untouched(trace, steps, id, k + 1, n))
  }

  ghost predicate InsertsEntry(s: State, step: Step, id: string, entry: Entry) {
    Inserts(s, step, id) && s.tasks[step.request].entry == entry
  }

  lemma OneStepEntry(s: State, step: Step, t: State, id: string, entry: Entry)
    requires Follows(s, step, t)
    ensures id in t.workspaces && t.workspaces[id] == entry <==>
      || InsertsEntry(s, step, id, entry)
      || (id in s.workspaces && s.workspaces[id] == entry && !Writes(s, step, id))
  {
  }

  lemma {:induction false} HeldStep(trace: seq<State>, steps: seq<Step>, id: string, entry: Entry, n: nat)
    requires IsTrace(trace, steps) && n < |steps|
    ensures HeldSince(trace, steps, id, entry, n + 1) <==>
      || InsertsEntry(trace[n], steps[n], id, entry)
      || (HeldSince(trace, steps, id, entry, n) && !Writes(trace[n], steps[n], id))
  {
    if InsertsEntry(trace[n], steps[n], id, entry) {
      assert Untouched(trace, steps, id, n + 1, n + 1);
    }
    if HeldSince(trace, steps, id, entry, n) && !Writes(trace[n], steps[n], id) {
      if Untouched(trace, steps, id, 0, n) {
        assert Untouched(trace, steps, id, 0, n + 1);
      } else {
        var k :| 0 <= k < n && InsertsEntry(trace[k], steps[k], id, entry) && Untouched(trace, steps, id, k + 1, n);
        assert Untouched(trace, steps, id, k + 1, n + 1);
      }
    }
    if HeldSince(trace, steps, id, entry, n + 1) && !InsertsEntry(trace[n], steps[n], id, entry) {
      if Untouched(trace, steps, id, 0, n + 1) {
        assert Untouched(trace, steps, id, 0, n);
      } else {
        var k :| 0 <= k < n + 1 && InsertsEntry(trace[k], steps[k], id, entry)
          && Untouched(trace, steps, id, k + 1, n + 1);
        assert Untouched(trace, steps, id, k + 1, n);
      }
    }
  }

  /** An id holds an entry exactly when that entry was there at the start or inserted, and nothing wrote it since. */
  lemma {:induction false} HoldsIff(trace: seq<State>, steps: seq<Step>, id: string, entry: Entry, n: nat)
    requires IsTrace(trace, steps) && n <= |steps|
    ensures id in trace[n].workspaces && trace[n].workspaces[id] == entry <==> HeldSince(trace, steps, id, entry, n)
  {
    if n > 0 {
      HoldsIff(trace, steps, id, entry, n - 1);
      assert Follows(trace[n - 1], steps[n - 1], trace[n]);
      OneStepEntry(trace[n - 1], steps[n - 1], trace[n], id, entry);
      HeldStep(trace, steps, id, entry, n - 1);
    }
  }
}
