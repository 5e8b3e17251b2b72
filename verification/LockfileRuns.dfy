/**
 Runs of the daemon: lockfile edits, watcher deliveries handled in three steps,
 external resolutions in between, boot sweeps, stops and restarts.
 */
module LockfileRuns {
  import opened Prelude
  import opened LockfileCache

  /** The watcher is subscribed after the sweep and the cold scan; edits before that raise no event. */
  datatype Phase = Down | Scanning | Watching

  /** How far the single dispatch thread is with a lockfile event. */
  datatype Handler = Idle | HasPurged(origin: Origin) | HasRead(origin: Origin, live: Hashes)

  datatype State = State(
    disk: Disk, rows: seq<Row>, meta: Meta, phase: Phase, pending: set<File>, handler: Handler)

  datatype Event =
    | Edit(file: File, content: Option<Digest>)
    | Deliver(file: File)
    | ReadDisk
    | WriteBaseline
    | Resolve(origin: Origin, fqdn: string)
    | Boot
    | Subscribe
    | Stop

  function Edited(disk: Disk, file: File, content: Option<Digest>): Disk {
    if content.Some? then disk[file := content.value] else disk - {file}
  }

  predicate Enabled(s: State, e: Event) {
    match e
    case Edit(_, _) => true
    case Deliver(file) => s.phase.Watching? && s.handler.Idle? && file in s.pending
    case ReadDisk => s.handler.HasPurged?
    case WriteBaseline => s.handler.HasRead?
    case Resolve(_, _) => !s.phase.Down?
    case Boot => s.phase.Down?
    case Subscribe => s.phase.Scanning?
    case Stop => !s.phase.Down?
  }

  function Next(s: State, e: Event): State
    requires Enabled(s, e)
  {
    match e
    case Edit(file, content) =>
      s.(disk := Edited(s.disk, file, content), pending := if s.phase.Watching? then s.pending + {file} else s.pending)
    case Deliver(file) =>
      var origin := Classify(file);
      if origin.None? then s.(pending := s.pending - {file})
      else s.(pending := s.pending - {file}, rows := Without(s.rows, origin.value), handler := HasPurged(origin.value))
    case ReadDisk => s.(handler := HasRead(s.handler.origin, LiveHashes(s.disk)))
    case WriteBaseline => s.(meta := WriteStored(s.meta, s.handler.live), handler := Idle)
    case Resolve(origin, fqdn) => s.(rows := s.rows + [Row(origin, fqdn, LivePrint(s.disk, origin))])
    case Boot =>
      var live := LiveHashes(s.disk);
      s.(rows := Swept(s.rows, ReadStored(s.meta), live), meta := WriteStored(s.meta, live), phase := Scanning)
    case Subscribe => s.(phase := Watching)
    case Stop => s.(phase := Down, pending := {}, handler := Idle)
  }

  // ---- coherence ----

  ghost predicate NothingPending(s: State, origin: Origin) {
    forall f :: f in s.pending ==> Classify(f) != Some(origin)
  }

  ghost predicate RowsCurrent(s: State, origin: Origin) {
    forall r :: r in s.rows && r.origin == origin ==> r.under == LivePrint(s.disk, origin)
  }

  /** Every cached row was read under the stored baseline of its origin. */
  ghost predicate MatchesBaseline(s: State) {
    forall r :: r in s.rows ==> r.under == PrintOf(ReadStored(s.meta), r.origin)
  }

  /** Rows without a lockfile are always read under nothing. */
  ghost predicate WellFormed(s: State) {
    && HasRows(s.meta)
    && ReadStored(s.meta).luarocks.None?
    && (s.handler.HasRead? ==> NoBlanks(s.handler.live) && s.handler.live.luarocks.None?)
    && (!s.phase.Watching? ==> s.handler.Idle? && s.pending == {})
  }

  /** While no event is pending for an origin, its rows are current. */
  ghost predicate CoherentFor(s: State, origin: Origin) {
    NothingPending(s, origin) ==> RowsCurrent(s, origin)
  }

  ghost predicate Inv(s: State) {
    && WellFormed(s)
    && (s.phase.Down? ==> MatchesBaseline(s))
    && (!s.phase.Down? ==> forall o :: CoherentFor(s, o))
  }

  /**
   What the environment has to respect: no stop while a cached row disagrees with the
   baseline, and between the sweep and the subscription no edit that moves the
   fingerprint of an origin with cached rows.
   */
  ghost predicate Careful(s: State, e: Event) {
    && (e.Stop? ==> MatchesBaseline(s))
    && (e.Edit? && s.phase.Scanning? ==>
          forall r :: r in s.rows ==>
            LivePrint(Edited(s.disk, e.file, e.content), r.origin) == LivePrint(s.disk, r.origin))
  }

  // ---- every step keeps it ----

  lemma EditKeeps(s: State, e: Event, o: Origin)
    requires e.Edit? && Inv(s) && Careful(s, e) && !s.phase.Down?
    ensures CoherentFor(Next(s, e), o)
  {
    var t := Next(s, e);
    if s.phase.Watching? && Classify(e.file) == Some(o) {
      assert e.file in t.pending;
    } else {
      assert CoherentFor(s, o);
      if s.phase.Watching? {
        OneFileOneOrigin(s.disk, t.disk, e.file, o);
      }
      if NothingPending(t, o) {
        forall f | f in s.pending ensures Classify(f) != Some(o) { assert f in t.pending; }
      }
    }
  }

  lemma DeliverKeeps(s: State, e: Event, o: Origin)
    requires e.Deliver? && Enabled(s, e) && Inv(s)
    ensures CoherentFor(Next(s, e), o)
  {
    var t, origin := Next(s, e), Classify(e.file);
    assert CoherentFor(s, o);
    if NothingPending(t, o) {
      if origin == Some(o) {
        forall r | r in t.rows ensures r.origin != o { WithoutMembers(s.rows, o, r); }
      } else {
        forall f | f in s.pending ensures Classify(f) != Some(o) {
          assert f == e.file || f in t.pending;
        }
        forall r | r in t.rows ensures r in s.rows {
          if origin.Some? { WithoutMembers(s.rows, origin.value, r); }
        }
      }
    }
  }

  lemma BootMatches(s: State)
    requires s.phase.Down? && Inv(s)
    ensures var t := Next(s, Boot); WellFormed(t) && forall o :: RowsCurrent(t, o)
  {
    var t := Next(s, Boot);
    var live := LiveHashes(s.disk);
    BaselineRoundTripIff(s.meta, live);
    LiveHasNoBlanks(s.disk);
    forall r | r in t.rows ensures r.under == LivePrint(t.disk, r.origin) {
      SweptMembers(s.rows, ReadStored(s.meta), live, r);
    }
  }

  lemma StepKeeps(s: State, e: Event)
    requires Inv(s) && Enabled(s, e) && Careful(s, e)
    ensures Inv(Next(s, e))
  {
    var t := Next(s, e);
    match e
    case Boot => BootMatches(s);
    case Stop =>
    case ReadDisk =>
      LiveHasNoBlanks(s.disk);
      forall o ensures CoherentFor(t, o) { assert CoherentFor(s, o); }
    case WriteBaseline =>
      BaselineRoundTripIff(s.meta, s.handler.live);
      forall o ensures CoherentFor(t, o) { assert CoherentFor(s, o); }
    case Deliver(_) => forall o ensures CoherentFor(t, o) { DeliverKeeps(s, e, o); }
    case Edit(_, _) =>
      if !s.phase.Down? {
        forall o ensures CoherentFor(t, o) { EditKeeps(s, e, o); }
      }
    case Resolve(origin, fqdn) => forall o ensures CoherentFor(t, o) { assert CoherentFor(s, o); }
    case Subscribe => forall o ensures CoherentFor(t, o) { assert CoherentFor(s, o); }
  }

  // ---- the baseline ----

  /** While no event is pending for an origin and none of it is being handled, its baseline is the live one. */
  ghost predicate BaselineFor(s: State, origin: Origin) {
    NothingPending(s, origin) ==>
      && (s.handler.HasRead? ==> PrintOf(s.handler.live, origin) == LivePrint(s.disk, origin))
      && (s.handler.Idle? || s.handler.origin != origin ==>
        PrintOf(ReadStored(s.meta), origin) == LivePrint(s.disk, origin))
  }

  ghost predicate BaselineInv(s: State) {
    WellFormed(s) && (!s.phase.Down? ==> forall o :: BaselineFor(s, o))
  }

  /** Between the sweep and the subscription no fingerprint moves at all. */
  ghost predicate Steady(s: State, e: Event) {
    e.Edit? && s.phase.Scanning? ==> LiveHashes(Edited(s.disk, e.file, e.content)) == LiveHashes(s.disk)
  }

  lemma EditKeepsBaseline(s: State, e: Event, o: Origin)
    requires e.Edit? && BaselineInv(s) && Steady(s, e) && !s.phase.Down?
    ensures BaselineFor(Next(s, e), o)
  {
    var t := Next(s, e);
    if s.phase.Watching? && Classify(e.file) == Some(o) {
      assert e.file in t.pending;
    } else {
      assert BaselineFor(s, o);
      if s.phase.Watching? {
        OneFileOneOrigin(s.disk, t.disk, e.file, o);
      }
      if NothingPending(t, o) {
        forall f | f in s.pending ensures Classify(f) != Some(o) { assert f in t.pending; }
      }
    }
  }

  lemma DeliverKeepsBaseline(s: State, e: Event, o: Origin)
    requires e.Deliver? && Enabled(s, e) && BaselineInv(s)
    ensures BaselineFor(Next(s, e), o)
  {
    var t := Next(s, e);
    assert BaselineFor(s, o);
    if NothingPending(t, o) && Classify(e.file) != Some(o) {
      forall f | f in s.pending ensures Classify(f) != Some(o) {
        assert f == e.file || f in t.pending;
      }
    }
  }

  lemma StepKeepsBaseline(s: State, e: Event)
    requires BaselineInv(s) && Enabled(s, e) && Steady(s, e)
    ensures BaselineInv(Next(s, e))
  {
    var t := Next(s, e);
    match e
    case Boot =>
      BaselineRoundTripIff(s.meta, LiveHashes(s.disk));
      LiveHasNoBlanks(s.disk);
    case Stop =>
    case ReadDisk =>
      LiveHasNoBlanks(s.disk);
      forall o ensures BaselineFor(t, o) { assert BaselineFor(s, o); }
    case WriteBaseline =>
      BaselineRoundTripIff(s.meta, s.handler.live);
      forall o ensures BaselineFor(t, o) { assert BaselineFor(s, o); }
    case Deliver(_) => forall o ensures BaselineFor(t, o) { DeliverKeepsBaseline(s, e, o); }
    case Edit(_, _) =>
      if !s.phase.Down? {
        forall o ensures BaselineFor(t, o) { EditKeepsBaseline(s, e, o); }
      }
    case Resolve(_, _) => forall o ensures BaselineFor(t, o) { assert BaselineFor(s, o); }
    case Subscribe => forall o ensures BaselineFor(t, o) { assert BaselineFor(s, o); }
  }

  // ---- whole runs ----

  /** The events can happen one after the other, and the environment respects its part. */
  ghost predicate Runs(s: State, events: seq<Event>)
    decreases |events|
  {
    events == [] || (Enabled(s, events[0]) && Careful(s, events[0]) && Runs(Next(s, events[0]), events[1..]))
  }

  ghost predicate SteadyRuns(s: State, events: seq<Event>)
    decreases |events|
  {
    events == [] || (Enabled(s, events[0]) && Steady(s, events[0]) && SteadyRuns(Next(s, events[0]), events[1..]))
  }

  /** The state after the events, up to the first that cannot happen. */
  function After(s: State, events: seq<Event>): State
    decreases |events|
  {
    if events == [] || !Enabled(s, events[0]) then s else After(Next(s, events[0]), events[1..])
  }

  /** A new index: the daemon is down, nothing is cached, the baseline is blank. */
  ghost predicate Fresh(s: State) {
    && s.phase.Down? && s.rows == [] && s.pending == {} && s.handler.Idle?
    && HasRows(s.meta) && ReadStored(s.meta) == Hashes(None, None, None)
  }

  lemma {:induction false} RunKeepsBaseline(s: State, events: seq<Event>)
    requires BaselineInv(s) && SteadyRuns(s, events)
    ensures BaselineInv(After(s, events))
    decreases |events|
  {
    if events != [] {
      StepKeepsBaseline(s, events[0]);
      RunKeepsBaseline(Next(s, events[0]), events[1..]);
    }
  }

  lemma {:induction false} RunKeeps(s: State, events: seq<Event>)
    requires Inv(s) && Runs(s, events)
    ensures Inv(After(s, events))
    decreases |events|
  {
    if events != [] {
      StepKeeps(s, events[0]);
      RunKeeps(Next(s, events[0]), events[1..]);
    }
  }

  /**
   Once the sweep has run, and while no event is pending for an origin, every cached
   row of that origin was read under the lockfile now on disk.
   */
  lemma CacheIsCoherent(s: State, events: seq<Event>, origin: Origin)
    requires Fresh(s) && Runs(s, events)
    requires !After(s, events).phase.Down? && NothingPending(After(s, events), origin)
    ensures RowsCurrent(After(s, events), origin)
  {
    RunKeeps(s, events);
    assert CoherentFor(After(s, events), origin);
  }

  // ---- runs that stop only when quiet ----

  /** No lockfile event is pending and none is being handled. */
  predicate Quiet(s: State) { s.pending == {} && s.handler.Idle? }

  /** Every stop is quiet, and no fingerprint moves between a sweep and its subscription. */
  ghost predicate QuietRuns(s: State, events: seq<Event>)
    decreases |events|
  {
    events == []
    || (Enabled(s, events[0]) && Steady(s, events[0]) && (events[0].Stop? ==> Quiet(s))
        && QuietRuns(Next(s, events[0]), events[1..]))
  }

  /** In a coherent state a quiet step is a careful one. */
  lemma QuietIsCareful(s: State, e: Event)
    requires Inv(s) && BaselineInv(s) && Enabled(s, e) && Steady(s, e) && (e.Stop? ==> Quiet(s))
    ensures Careful(s, e)
  {
    if e.Stop? {
      forall r | r in s.rows ensures r.under == PrintOf(ReadStored(s.meta), r.origin) {
        assert CoherentFor(s, r.origin) && BaselineFor(s, r.origin) && NothingPending(s, r.origin);
      }
    }
  }

  lemma {:induction false} QuietRunKeeps(s: State, events: seq<Event>)
    requires Inv(s) && BaselineInv(s) && QuietRuns(s, events)
    ensures Runs(s, events) && SteadyRuns(s, events) && Inv(After(s, events)) && BaselineInv(After(s, events))
    decreases |events|
  {
    if events != [] {
      QuietIsCareful(s, events[0]);
      StepKeeps(s, events[0]);
      StepKeepsBaseline(s, events[0]);
      QuietRunKeeps(Next(s, events[0]), events[1..]);
    }
  }

  /**
   What the module is for: in every run from a new index that stops only when quiet,
   however often it restarts, once the sweep has run and while no event is pending for an
   origin, every cached row of that origin was read under the lockfile now on disk.
   */
  lemma QuietRunsAreCoherent(s: State, events: seq<Event>, origin: Origin)
    requires Fresh(s) && QuietRuns(s, events)
    requires !After(s, events).phase.Down? && NothingPending(After(s, events), origin)
    ensures RowsCurrent(After(s, events), origin)
  {
    QuietRunKeeps(s, events);
    assert CoherentFor(After(s, events), origin);
  }

  // ---- nothing is purged without cause ----

  /** The step purges an origin: its lockfile's event is handled, or a boot finds its fingerprint changed. */
  ghost predicate Purges(s: State, e: Event, origin: Origin) {
    || (e.Deliver? && Classify(e.file) == Some(origin))
    || (e.Boot? && PrintOf(ReadStored(s.meta), origin) != LivePrint(s.disk, origin))
  }

  /** A row is cached after a step exactly when it was and is not purged, or when it was just resolved. */
  lemma RowKeptIff(s: State, e: Event, r: Row)
    requires Enabled(s, e)
    ensures r in Next(s, e).rows <==>
      || (r in s.rows && !Purges(s, e, r.origin))
      || (e == Resolve(r.origin, r.fqdn) && r.under == LivePrint(s.disk, r.origin))
  {
    match e
    case Deliver(file) =>
      if Classify(file).Some? {
        WithoutMembers(s.rows, Classify(file).value, r);
      }
    case Boot => SweptMembers(s.rows, ReadStored(s.meta), LiveHashes(s.disk), r);
    case _ =>
  }

  // ---- when a stop is safe ----

  /** With no event pending and none being handled, it is, if no fingerprint moved unwatched. */
  lemma QuietStopIsCareful(s: State, events: seq<Event>)
    requires Fresh(s) && Runs(s, events) && SteadyRuns(s, events)
    requires After(s, events).pending == {} && After(s, events).handler.Idle?
    ensures Careful(After(s, events), Stop)
  {
    RunKeeps(s, events);
    RunKeepsBaseline(s, events);
    var t := After(s, events);
    forall r | r in t.rows ensures r.under == PrintOf(ReadStored(t.meta), r.origin) {
      if !t.phase.Down? {
        assert CoherentFor(t, r.origin) && BaselineFor(t, r.origin) && NothingPending(t, r.origin);
      }
    }
  }

  /** A disk on which the stored baseline is the live one. */
  function DiskFor(h: Hashes): Disk
    requires NoBlanks(h)
  {
    var cargo: Disk := if h.cargo.Some? then map[Root("Cargo.lock") := h.cargo.value] else map[];
    if h.npm.Some? then cargo[Root(KindText(h.npm.value.kind)) := h.npm.value.digest] else cargo
  }

  lemma DiskForPrints(h: Hashes)
    requires NoBlanks(h) && h.luarocks.None?
    ensures LiveHashes(DiskFor(h)) == h
  {
    if h.npm.Some? {
      assert KindText(h.npm.value.kind) != "Cargo.lock";
    }
  }

  ghost predicate BootIsSafe(s: State, disk: Disk)
    requires s.phase.Down?
  {
    forall o :: RowsCurrent(Next(s.(disk := disk), Boot), o)
  }

  /**
   The condition on stops is exact: the next boot is safe, whatever happens to the
   files in between, if and only if every row agrees with the baseline.
   */
  lemma StopSafeIff(s: State)
    requires WellFormed(s) && s.phase.Down? && NoBlanks(ReadStored(s.meta))
    ensures (forall disk :: BootIsSafe(s, disk)) <==> MatchesBaseline(s)
  {
    if MatchesBaseline(s) {
      forall disk, o ensures RowsCurrent(Next(s.(disk := disk), Boot), o) {
        BootKeepsAgreeing(s, disk, o);
      }
    }
    if forall disk :: BootIsSafe(s, disk) {
      var stored := ReadStored(s.meta);
      var disk := DiskFor(stored);
      assert BootIsSafe(s, disk);
      DiskForPrints(stored);
      forall r | r in s.rows ensures r.under == PrintOf(stored, r.origin) {
        SweptMembers(s.rows, stored, stored, r);
        assert RowsCurrent(Next(s.(disk := disk), Boot), r.origin);
      }
    }
  }

  lemma BootKeepsAgreeing(s: State, disk: Disk, o: Origin)
    requires s.phase.Down? && MatchesBaseline(s)
    ensures RowsCurrent(Next(s.(disk := disk), Boot), o)
  {
    var t := Next(s.(disk := disk), Boot);
    forall r | r in t.rows && r.origin == o ensures r.under == LivePrint(disk, o) {
      SweptMembers(s.rows, ReadStored(s.meta), LiveHashes(disk), r);
    }
  }

  // ---- both conditions are needed ----

  const CARGO := Root("Cargo.lock")
  const YARN := Root("yarn.lock")

  lemma AfterStep(s: State, e: Event, rest: seq<Event>)
    requires Enabled(s, e)
    ensures After(s, [e] + rest) == After(Next(s, e), rest)
  {
    assert ([e] + rest)[1..] == rest;
  }

  /**
   A row made stale by an edit whose event is still pending: handling another
   origin's event rewrites the baseline of both, and after a restart nothing is
   pending and the row is still there.
   */
  lemma PendingStopGoesStale(s: State, file: File, r: Row)
    requires WellFormed(s) && s.phase.Watching? && s.handler.Idle?
    requires r in s.rows && r.origin == CargoRegistry && r.under != LivePrint(s.disk, CargoRegistry)
    requires file in s.pending && Classify(file) == Some(NodeModulesDts)
    ensures var t := After(s, [Deliver(file)] + ([ReadDisk] + ([WriteBaseline] + ([Stop] + ([Boot] + [])))));
      t.phase.Scanning? && t.pending == {} && !RowsCurrent(t, CargoRegistry)
  {
    var s1 := Next(s, Deliver(file));
    AfterStep(s, Deliver(file), [ReadDisk] + ([WriteBaseline] + ([Stop] + ([Boot] + []))));
    var s2 := Next(s1, ReadDisk);
    AfterStep(s1, ReadDisk, [WriteBaseline] + ([Stop] + ([Boot] + [])));
    var s3 := Next(s2, WriteBaseline);
    AfterStep(s2, WriteBaseline, [Stop] + ([Boot] + []));
    var s4 := Next(s3, Stop);
    AfterStep(s3, Stop, [Boot] + []);
    AfterStep(s4, Boot, []);
    WithoutMembers(s.rows, NodeModulesDts, r);
    LiveHasNoBlanks(s.disk);
    BaselineRoundTripIff(s.meta, LiveHashes(s.disk));
    SweptMembers(s4.rows, ReadStored(s4.meta), LiveHashes(s.disk), r);
  }

  /** Such a state is reached: resolve, then edit both lockfiles. */
  lemma PendingIsReachable(s: State, cargo: Digest, yarn: Digest)
    requires Fresh(s) && (CARGO in s.disk ==> s.disk[CARGO] != cargo)
    ensures var events := [Boot] + ([Subscribe] + ([Resolve(CargoRegistry, "x")]
        + ([Edit(CARGO, Some(cargo))] + ([Edit(YARN, Some(yarn))] + []))));
      var t := After(s, events);
      && WellFormed(t) && t.phase.Watching? && t.handler.Idle? && YARN in t.pending
      && Classify(YARN) == Some(NodeModulesDts)
      && exists r :: r in t.rows && r.origin == CargoRegistry && r.under != LivePrint(t.disk, CargoRegistry)
  {
    var edits := [Edit(CARGO, Some(cargo))] + ([Edit(YARN, Some(yarn))] + []);
    var s1 := Next(s, Boot);
    AfterStep(s, Boot, [Subscribe] + ([Resolve(CargoRegistry, "x")] + edits));
    var s2 := Next(s1, Subscribe);
    AfterStep(s1, Subscribe, [Resolve(CargoRegistry, "x")] + edits);
    var s3 := Next(s2, Resolve(CargoRegistry, "x"));
    AfterStep(s2, Resolve(CargoRegistry, "x"), edits);
    var s4 := Next(s3, Edit(CARGO, Some(cargo)));
    AfterStep(s3, Edit(CARGO, Some(cargo)), [Edit(YARN, Some(yarn))] + []);
    AfterStep(s4, Edit(YARN, Some(yarn)), []);
    LiveHasNoBlanks(s.disk);
    BaselineRoundTripIff(s.meta, LiveHashes(s.disk));
    TwoEdits(s3, s3.rows[|s3.rows| - 1], cargo, yarn);
  }

  /** Editing `Cargo.lock` and then another lockfile leaves a Cargo row behind its own. */
  lemma TwoEdits(s: State, r: Row, cargo: Digest, yarn: Digest)
    requires s.phase.Watching? && r in s.rows && r.origin == CargoRegistry
    requires r.under == LivePrint(s.disk, CargoRegistry) && (CARGO in s.disk ==> s.disk[CARGO] != cargo)
    ensures var t := Next(Next(s, Edit(CARGO, Some(cargo))), Edit(YARN, Some(yarn)));
      YARN in t.pending && r in t.rows && r.under != LivePrint(t.disk, CargoRegistry)
  {
    var u := Next(s, Edit(CARGO, Some(cargo)));
    CargoEditMovesIff(s.disk, cargo);
    OneFileOneOrigin(u.disk, Edited(u.disk, YARN, Some(yarn)), YARN, CargoRegistry);
  }

  /**
   An edit between the sweep and the subscription raises no event. The rows stay
   current if and only if the origin of every cached row keeps its fingerprint.
   */
  lemma UnwatchedEditIff(s: State, file: File, content: Option<Digest>)
    requires s.phase.Scanning? && forall o :: RowsCurrent(s, o)
    ensures var t := Next(s, Edit(file, content));
      && t.pending == s.pending
      && ((forall o :: RowsCurrent(t, o)) <==> forall r :: r in s.rows ==>
        LivePrint(t.disk, r.origin) == LivePrint(s.disk, r.origin))
  {
    var t := Next(s, Edit(file, content));
    if forall o :: RowsCurrent(t, o) {
      forall r | r in s.rows ensures LivePrint(t.disk, r.origin) == LivePrint(s.disk, r.origin) {
        assert RowsCurrent(s, r.origin) && RowsCurrent(t, r.origin);
      }
    }
    if forall r :: r in s.rows ==> LivePrint(t.disk, r.origin) == LivePrint(s.disk, r.origin) {
      forall o ensures RowsCurrent(t, o) { assert RowsCurrent(s, o); }
    }
  }

  /** After a restart such a state holds a cached row: one edit then makes it stale, with nothing pending. */
  lemma UnwatchedIsReachable(s: State, cargo: Digest)
    requires Fresh(s) && (CARGO in s.disk ==> s.disk[CARGO] != cargo)
    ensures var t := After(s, [Boot] + ([Subscribe] + ([Resolve(CargoRegistry, "x")] + ([Stop] + ([Boot] + [])))));
      && t.phase.Scanning? && t.pending == {} && (forall o :: RowsCurrent(t, o))
      && !RowsCurrent(Next(Next(t, Edit(CARGO, Some(cargo))), Subscribe), CargoRegistry)
  {
    var resolve := Resolve(CargoRegistry, "x");
    var s1 := Next(s, Boot);
    AfterStep(s, Boot, [Subscribe] + ([resolve] + ([Stop] + ([Boot] + []))));
    var s2 := Next(s1, Subscribe);
    AfterStep(s1, Subscribe, [resolve] + ([Stop] + ([Boot] + [])));
    var s3 := Next(s2, resolve);
    AfterStep(s2, resolve, [Stop] + ([Boot] + []));
    var s4 := Next(s3, Stop);
    AfterStep(s3, Stop, [Boot] + []);
    AfterStep(s4, Boot, []);
    LiveHasNoBlanks(s.disk);
    BaselineRoundTripIff(s.meta, LiveHashes(s.disk));
    assert s1.rows == [];
    var r := Row(CargoRegistry, "x", LivePrint(s.disk, CargoRegistry));
    assert s4.rows == [r];
    SweptOne(s4, r);
  }

  /** A restart on an unchanged disk keeps a row that was read under it. */
  lemma SweptOne(s: State, r: Row)
    requires s.phase.Down? && s.rows == [r] && ReadStored(s.meta) == LiveHashes(s.disk)
    requires r.under == LivePrint(s.disk, r.origin)
    ensures Next(s, Boot).rows == [r] && forall o :: RowsCurrent(Next(s, Boot), o)
  {
  }
}
