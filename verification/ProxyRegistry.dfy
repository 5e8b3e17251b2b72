/**
 The proxy's workspace registry and request counters under every interleaving of
 forwarded requests, registrations and removals. Each step is one access to the
 shared map or to one counter.
 */
module ProxyRegistry {
  import opened Prelude

  datatype Entry = Entry(id: string, root: string)

  type Registry = map<string, Entry>

  // ---- boot ----

  datatype Boot = Booted(workspaces: Registry, defaultId: string) | NoWorkspaces | InitFailed(root: string)

  ghost predicate KeysAreIds(ws: Registry) {
    forall id :: id in ws ==> ws[id].id == id
  }

  /** The last of the roots with that id. */
  ghost predicate LastRootOf(roots: seq<string>, idFor: string -> string, entry: Entry) {
    exists k :: 0 <= k < |roots| && entry == Entry(idFor(roots[k]), roots[k])
      && forall j :: k < j < |roots| ==> idFor(roots[j]) != entry.id
  }

  lemma LaterRoot(roots: seq<string>, idFor: string -> string, k: nat, entry: Entry)
    requires k < |roots| && (entry == Entry(idFor(roots[k]), roots[k])
      || (LastRootOf(roots[..k], idFor, entry) && idFor(roots[k]) != entry.id))
    ensures LastRootOf(roots[..k + 1], idFor, entry)
  {
    var upTo := roots[..k + 1];
    if entry == Entry(idFor(roots[k]), roots[k]) {
      assert upTo[k] == roots[k];
    } else {
      var i :| 0 <= i < k && entry == Entry(idFor(roots[..k][i]), roots[..k][i])
        && forall j :: i < j < k ==> idFor(roots[..k][j]) != entry.id;
      assert forall j :: 0 <= j < k ==> upTo[j] == roots[..k][j];
      assert entry == Entry(idFor(upTo[i]), upTo[i]);
    }
  }

  ghost predicate FirstUnwatchable(roots: seq<string>, watchable: string -> bool, root: string) {
    exists k :: 0 <= k < |roots| && roots[k] == root && !watchable(root)
      && forall j :: 0 <= j < k ==> watchable(roots[j])
  }

  method RunBoot(roots: seq<string>, idFor: string -> string, watchable: string -> bool) returns (r: Boot)
    ensures r.NoWorkspaces? <==> roots == []
    ensures r.InitFailed? ==> FirstUnwatchable(roots, watchable, r.root)
    ensures r.Booted? ==> roots != [] && r.defaultId == idFor(roots[0]) && r.defaultId in r.workspaces
    ensures r.Booted? ==> KeysAreIds(r.workspaces) && r.workspaces.Keys == set root | root in roots :: idFor(root)
    ensures r.Booted? ==> forall id :: id in r.workspaces ==> LastRootOf(roots, idFor, r.workspaces[id])
    ensures r.Booted? ==> forall root :: root in roots ==> watchable(root)
  {
    if roots == [] {
      return NoWorkspaces;
    }
    var ws: Registry := map[];
    var default: Option<string> := None;
    for k := 0 to |roots|
      invariant KeysAreIds(ws) && ws.Keys == set root | root in roots[..k] :: idFor(root)
      invariant forall id :: id in ws ==> LastRootOf(roots[..k], idFor, ws[id])
      invariant default == if k == 0 then None else Some(idFor(roots[0]))
      invariant forall root :: root in roots[..k] ==> watchable(root)
    {
      assert roots[..k + 1] == roots[..k] + [roots[k]];
      if !watchable(roots[k]) {
        return InitFailed(roots[k]);
      }
      var entry := Entry(idFor(roots[k]), roots[k]);
      forall id | id in ws && id != entry.id ensures LastRootOf(roots[..k + 1], idFor, ws[id]) {
        LaterRoot(roots, idFor, k, ws[id]);
      }
      LaterRoot(roots, idFor, k, entry);
      if default.None? {
        default := Some(entry.id);
      }
      ws := ws[entry.id := entry];
    }
    assert roots[..|roots|] == roots;
    assert roots[0] in roots;
    r := Booted(ws, default.value);
  }

  // ---- requests in flight ----

  /** How a counted request ended: the upstream's status, or the proxy's own. */
  datatype Ending = Answered(status: nat) | BodyTooLarge | Fatal | WindowElapsed

  datatype Task =
    | Forward(target: Option<string>)
    | Found(ws: Entry)
    | Counted(ws: Entry)
    | Register(path: string)
    | Missed(path: string, id: string)
    | Created(entry: Entry)
    | Unregister(id: string)
    | Ended(ending: Ending)
    | Replied(status: nat)
    | DefaultMissing
    | Health
    | HealthTotal(totalSeen: nat)
    | HealthOk(totalSeen: nat, okSeen: nat)
    | Snapshot(totalSeen: nat, okSeen: nat, unavailableSeen: nat)

  datatype State = State(
    workspaces: Registry, defaultId: string,
    total: nat, successful: nat, unavailable: nat, tasks: map<nat, Task>)

  /**
   `id` in the two register steps is what `workspace_id_for` gives at that moment: it
   reads the file system, so the two may differ.
   */
  datatype Event =
    | Arrive(task: Task)
    | Lookup
    | Count
    | End(ending: Ending)
    | RejectBody
    | LookupId(id: string)
    | Create(id: string, ok: bool)
    | Insert
    | Remove
    | Load

  predicate Enabled(s: State, n: nat, e: Event) {
    match e
    case Arrive(task) => n !in s.tasks && (task.Forward? || task.Register? || task.Unregister? || task.Health?)
    case Lookup => n in s.tasks && s.tasks[n].Forward?
    case Count => n in s.tasks && s.tasks[n].Found?
    case End(_) => n in s.tasks && s.tasks[n].Counted?
    case RejectBody => n in s.tasks && s.tasks[n].Register?
    case LookupId(_) => n in s.tasks && s.tasks[n].Register?
    case Create(_, _) => n in s.tasks && s.tasks[n].Missed?
    case Insert => n in s.tasks && s.tasks[n].Created?
    case Remove => n in s.tasks && s.tasks[n].Unregister?
    case Load => n in s.tasks && (s.tasks[n].Health? || s.tasks[n].HealthTotal? || s.tasks[n].HealthOk?)
  }

  function With(s: State, n: nat, task: Task): State { s.(tasks := s.tasks[n := task]) }

  function Next(s: State, n: nat, e: Event): State
    requires Enabled(s, n, e)
  {
    match e
    case Arrive(task) => With(s, n, task)
    case Lookup =>
      var target := s.tasks[n].target;
      var id := if target.Some? then target.value else s.defaultId;
      if id in s.workspaces then With(s, n, Found(s.workspaces[id]))
      else With(s, n, if target.Some? then Replied(404) else DefaultMissing)
    case Count => With(s, n, Counted(s.tasks[n].ws)).(total := s.total + 1)
    case End(ending) =>
      var done := With(s, n, Ended(ending));
      if ending.Answered? && ending.status < 400 then done.(successful := s.successful + 1)
      else if ending.WindowElapsed? then done.(unavailable := s.unavailable + 1)
      else done
    case RejectBody => With(s, n, Replied(400))
    case LookupId(id) =>
      if id in s.workspaces then With(s, n, Replied(200)) else With(s, n, Missed(s.tasks[n].path, id))
    case Create(id, ok) =>
      With(s, n, if ok then Created(Entry(id, s.tasks[n].path)) else Replied(500))
    case Insert =>
      var entry := s.tasks[n].entry;
      With(s, n, Replied(201)).(workspaces := s.workspaces[entry.id := entry])
    case Remove =>
      var id := s.tasks[n].id;
      if id == s.defaultId then With(s, n, Replied(409))
      else if id !in s.workspaces then With(s, n, Replied(404))
      else With(s, n, Replied(204)).(workspaces := s.workspaces - {id})
    case Load => With(s, n, Loaded(s, s.tasks[n]))
  }

  /** The health handler loads the three counters one after the other. */
  function Loaded(s: State, t: Task): Task {
    match t
    case HealthTotal(total) => HealthOk(total, s.successful)
    case HealthOk(total, ok) => Snapshot(total, ok, s.unavailable)
    case _ => HealthTotal(s.total)
  }

  // ---- what the counters count ----

  predicate WasCounted(t: Task) { t.Counted? || t.Ended? }

  predicate WasSuccessful(t: Task) { t.Ended? && t.ending.Answered? && t.ending.status < 400 }

  predicate WasUnavailable(t: Task) { t.Ended? && t.ending.WindowElapsed? }

  ghost function CountedOf(s: State): set<nat> { set n | n in s.tasks && WasCounted(s.tasks[n]) }

  ghost function SuccessfulOf(s: State): set<nat> { set n | n in s.tasks && WasSuccessful(s.tasks[n]) }

  ghost function UnavailableOf(s: State): set<nat> { set n | n in s.tasks && WasUnavailable(s.tasks[n]) }

  ghost predicate CountersExact(s: State) {
    && s.total == |CountedOf(s)|
    && s.successful == |SuccessfulOf(s)|
    && s.unavailable == |UnavailableOf(s)|
  }

  /** A `/mcp` request that found its workspace missing (answered 500). */
  ghost predicate NoneMissing(s: State) {
    forall n :: n in s.tasks ==> !s.tasks[n].DefaultMissing?
  }

  ghost predicate Inv(s: State) {
    s.defaultId in s.workspaces && KeysAreIds(s.workspaces) && CountersExact(s) && NoneMissing(s)
  }

  /** A request that changes class is added to the classes it enters, and leaves none. */
  lemma ClassesAfter(s: State, n: nat, task: Task)
    requires n in s.tasks && WasCounted(s.tasks[n]) ==> WasCounted(task)
    requires n in s.tasks ==> !WasSuccessful(s.tasks[n]) && !WasUnavailable(s.tasks[n])
    ensures CountedOf(With(s, n, task)) == CountedOf(s) + (if WasCounted(task) then {n} else {})
    ensures SuccessfulOf(With(s, n, task)) == SuccessfulOf(s) + (if WasSuccessful(task) then {n} else {})
    ensures UnavailableOf(With(s, n, task)) == UnavailableOf(s) + (if WasUnavailable(task) then {n} else {})
  {
  }

  /** The classes depend on the requests only. */
  lemma SameClasses(a: State, b: State)
    requires a.tasks == b.tasks
    ensures CountedOf(a) == CountedOf(b) && SuccessfulOf(a) == SuccessfulOf(b) && UnavailableOf(a) == UnavailableOf(b)
  {
  }

  /** Each step moves one request, and the counters with it. */
  lemma StepMoves(s: State, n: nat, e: Event)
    requires Enabled(s, n, e)
    ensures var t := Next(s, n, e);
      && n in t.tasks && t.tasks == s.tasks[n := t.tasks[n]]
      && var task, was := t.tasks[n], n in s.tasks && WasCounted(s.tasks[n]);
        && (was ==> WasCounted(task))
        && (n in s.tasks ==> !s.tasks[n].Ended?)
        && t.total == s.total + (if WasCounted(task) && !was then 1 else 0)
        && t.successful == s.successful + (if WasSuccessful(task) then 1 else 0)
        && t.unavailable == s.unavailable + (if WasUnavailable(task) then 1 else 0)
  {
  }

  lemma AddOne(s: set<nat>, n: nat, add: bool)
    ensures |s + (if add then {n} else {})| == |s| + (if add && n !in s then 1 else 0)
  {
    if add && n in s {
      assert s + {n} == s;
    }
  }

  lemma CountersStayExact(s: State, n: nat, e: Event)
    requires CountersExact(s) && Enabled(s, n, e)
    ensures CountersExact(Next(s, n, e))
  {
    var t := Next(s, n, e);
    StepMoves(s, n, e);
    var task := t.tasks[n];
    SameClasses(t, With(s, n, task));
    ClassesAfter(s, n, task);
    AddOne(CountedOf(s), n, WasCounted(task));
    AddOne(SuccessfulOf(s), n, WasSuccessful(task));
    AddOne(UnavailableOf(s), n, WasUnavailable(task));
  }

  lemma RegistryKeeps(s: State, n: nat, e: Event)
    requires Enabled(s, n, e) && s.defaultId in s.workspaces && KeysAreIds(s.workspaces)
    ensures var t := Next(s, n, e);
      t.defaultId == s.defaultId && t.defaultId in t.workspaces && KeysAreIds(t.workspaces)
  {
  }

  lemma NoneGoesMissing(s: State, n: nat, e: Event)
    requires Enabled(s, n, e) && s.defaultId in s.workspaces && NoneMissing(s)
    ensures NoneMissing(Next(s, n, e))
  {
    StepMoves(s, n, e);
    var t := Next(s, n, e);
    assert !t.tasks[n].DefaultMissing?;
  }

  /** The branch for a missing default workspace is never taken. */
  lemma DefaultIsNeverMissing(s: State, n: nat)
    requires Inv(s) && Enabled(s, n, Lookup) && s.tasks[n].target.None?
    ensures Next(s, n, Lookup).tasks[n] == Found(s.workspaces[s.defaultId])
  {
  }

  // ---- runs ----

  datatype Step = Step(request: nat, event: Event)

  ghost predicate Runs(s: State, steps: seq<Step>)
    decreases |steps|
  {
    steps == []
    || (Enabled(s, steps[0].request, steps[0].event)
        && Runs(Next(s, steps[0].request, steps[0].event), steps[1..]))
  }

  ghost function After(s: State, steps: seq<Step>): State
    requires Runs(s, steps)
    decreases |steps|
  {
    if steps == [] then s else After(Next(s, steps[0].request, steps[0].event), steps[1..])
  }

  ghost predicate Starts(s: State, boot: Boot) {
    && boot.Booted? && boot.defaultId in boot.workspaces && KeysAreIds(boot.workspaces)
    && s == State(boot.workspaces, boot.defaultId, 0, 0, 0, map[])
  }

  lemma {:induction false} RunKeeps(s: State, steps: seq<Step>)
    requires Inv(s) && Runs(s, steps)
    ensures Inv(After(s, steps)) && After(s, steps).defaultId == s.defaultId
    decreases |steps|
  {
    if steps != [] {
      CountersStayExact(s, steps[0].request, steps[0].event);
      RegistryKeeps(s, steps[0].request, steps[0].event);
      NoneGoesMissing(s, steps[0].request, steps[0].event);
      RunKeeps(Next(s, steps[0].request, steps[0].event), steps[1..]);
    }
  }

  /**
   In every reachable state the default is registered, keys are ids, the counters fit,
   and no request of the default route was ever answered 500.
   */
  lemma EveryRunIsSafe(s: State, boot: Boot, steps: seq<Step>)
    requires Starts(s, boot) && Runs(s, steps)
    ensures var t := After(s, steps);
      && t.defaultId == boot.defaultId && t.defaultId in t.workspaces && KeysAreIds(t.workspaces)
      && t.successful + t.unavailable <= t.total && NoneMissing(t)
  {
    assert CountedOf(s) == {} && SuccessfulOf(s) == {} && UnavailableOf(s) == {};
    RunKeeps(s, steps);
    CountersFit(After(s, steps));
  }

  lemma CountersFit(s: State)
    requires CountersExact(s)
    ensures s.successful + s.unavailable <= s.total
  {
    var a, b, c := SuccessfulOf(s), UnavailableOf(s), CountedOf(s);
    assert a !! b && a + b <= c;
    SubsetIsSmaller(a + b, c);
  }

  // ---- the default entry itself ----

  /** The path of a registration is given the same id both times. */
  predicate SameId(s: State, step: Step) {
    step.event.Create? && step.request in s.tasks && s.tasks[step.request].Missed?
    ==> step.event.id == s.tasks[step.request].id
  }

  ghost predicate SameIds(s: State, steps: seq<Step>)
    requires Runs(s, steps)
    decreases |steps|
  {
    steps == [] || (SameId(s, steps[0]) && SameIds(Next(s, steps[0].request, steps[0].event), steps[1..]))
  }

  ghost predicate DefaultIs(s: State, entry: Entry) {
    && s.defaultId in s.workspaces && s.workspaces[s.defaultId] == entry
    && (forall n :: n in s.tasks && s.tasks[n].Missed? ==> s.tasks[n].id != s.defaultId)
    && (forall n :: n in s.tasks && s.tasks[n].Created? ==> s.tasks[n].entry.id != s.defaultId)
  }

  lemma DefaultStep(s: State, step: Step, entry: Entry)
    requires Enabled(s, step.request, step.event) && SameId(s, step) && DefaultIs(s, entry)
    ensures DefaultIs(Next(s, step.request, step.event), entry)
  {
    var t := Next(s, step.request, step.event);
    assert forall n :: n in t.tasks && n != step.request ==> n in s.tasks && s.tasks[n] == t.tasks[n];
  }

  lemma {:induction false} DefaultStays(s: State, steps: seq<Step>, entry: Entry)
    requires Runs(s, steps) && SameIds(s, steps) && DefaultIs(s, entry)
    ensures DefaultIs(After(s, steps), entry)
    decreases |steps|
  {
    if steps != [] {
      DefaultStep(s, steps[0], entry);
      DefaultStays(Next(s, steps[0].request, steps[0].event), steps[1..], entry);
    }
  }

  /** If an id moves between the lookup and the creation, a registration replaces the default's entry. */
  lemma DefaultCanBeReplaced(s: State, path: string, other: string)
    requires s.tasks == map[] && other !in s.workspaces
    ensures var s1 := Next(s, 0, Arrive(Register(path)));
      var s2 := Next(s1, 0, LookupId(other));
      var s3 := Next(s2, 0, Create(s.defaultId, true));
      Next(s3, 0, Insert).workspaces == s.workspaces[s.defaultId := Entry(s.defaultId, path)]
  {
  }

  // ---- what interleaving still allows ----

  ghost predicate AllNew(s: State) { s.tasks == map[] }

  /** Two registrations of one path that look before either inserts are both answered 201. */
  lemma BothCreated(s: State, path: string, id: string)
    requires AllNew(s) && id !in s.workspaces
    ensures var s1 := Next(Next(s, 0, Arrive(Register(path))), 1, Arrive(Register(path)));
      var s2 := Next(Next(s1, 0, LookupId(id)), 1, LookupId(id));
      var s3 := Next(Next(s2, 0, Create(id, true)), 1, Create(id, true));
      var s4 := Next(Next(s3, 0, Insert), 1, Insert);
      && s4.tasks[0] == Replied(201) && s4.tasks[1] == Replied(201)
      && s4.workspaces == s.workspaces[id := Entry(id, path)]
  {
  }

  /** What a health request has seen is never ahead of the counters. */
  ghost predicate SeenBehind(s: State, t: Task) {
    match t
    case HealthTotal(total) => total <= s.total
    case HealthOk(total, ok) => total <= s.total && ok <= s.successful
    case Snapshot(total, ok, u) => total <= s.total && ok <= s.successful && u <= s.unavailable
    case _ => true
  }

  lemma SnapshotsBehind(s: State, n: nat, e: Event)
    requires Enabled(s, n, e) && forall m :: m in s.tasks ==> SeenBehind(s, s.tasks[m])
    ensures var t := Next(s, n, e); forall m :: m in t.tasks ==> SeenBehind(t, t.tasks[m])
  {
    var t := Next(s, n, e);
    StepMoves(s, n, e);
    forall m | m in t.tasks && m != n ensures SeenBehind(t, t.tasks[m]) { assert t.tasks[m] == s.tasks[m]; }
  }

  /**
   The total is loaded first, so a snapshot can show more successes than requests: one
   request counted and answered between the two loads is enough.
   */
  lemma SnapshotCanExceed(s: State)
    requires AllNew(s) && s.defaultId in s.workspaces && s.total == s.successful && s.unavailable == 0
    ensures var s1 := Next(Next(s, 0, Arrive(Health)), 0, Load);
      var s2 := Next(Next(s1, 1, Arrive(Forward(None))), 1, Lookup);
      var s3 := Next(Next(s2, 1, Count), 1, End(Answered(200)));
      var s4 := Next(Next(s3, 0, Load), 0, Load);
      s4.tasks[0] == Snapshot(s.total, s.total + 1, 0)
  {
  }
}
