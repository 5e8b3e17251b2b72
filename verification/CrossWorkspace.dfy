/**
 Resolving a path through peer workspaces, longest module prefix first, and the
 pass that rewrites the edges of a file with it.
 */
module CrossWorkspace {
  import opened Prelude

  datatype Lookup = Hit(workspace: string, fqdn: string) | KnownPeerMissingSymbol(workspace: string) | Unknown

  /** Answers for (module, symbol). */
  type Resolver = (string, string) -> Lookup

  // ---- paths ----

  /** `s.split("::")` */
  function Split(s: string): (r: seq<string>)
    ensures |r| > 0
  {
    if |s| < 2 then [s]
    else if s[0] == ':' && s[1] == ':' then [""] + Split(s[2..])
    else
      var rest := Split(s[1..]);
      [[s[0]] + rest[0]] + rest[1..]
  }

  /** `segments.join("::")` */
  function Join(segments: seq<string>): string {
    if segments == [] then ""
    else if |segments| == 1 then segments[0]
    else segments[0] + "::" + Join(segments[1..])
  }

  lemma JoinGrows(c: char, rest: seq<string>)
    requires rest != []
    ensures Join([[c] + rest[0]] + rest[1..]) == [c] + Join(rest)
  {
    var whole := [[c] + rest[0]] + rest[1..];
    assert whole[1..] == rest[1..];
    if |rest| > 1 {
      var tail := "::" + Join(rest[1..]);
      assert [c] + rest[0] + tail == [c] + (rest[0] + tail);
    }
  }

  /** Cutting a path and joining it again gives the path back. */
  lemma {:induction false} JoinSplit(s: string)
    ensures Join(Split(s)) == s
  {
    if |s| >= 2 {
      if s[0] == ':' && s[1] == ':' {
        JoinSplit(s[2..]);
        assert ([""] + Split(s[2..]))[1..] == Split(s[2..]);
        assert s == "" + "::" + s[2..];
      } else {
        JoinSplit(s[1..]);
        JoinGrows(s[0], Split(s[1..]));
        assert s == [s[0]] + s[1..];
      }
    }
  }

  predicate NoSeparator(s: string) {
    forall k :: 0 <= k < |s| - 1 ==> !(s[k] == ':' && s[k + 1] == ':')
  }

  predicate EndsInColon(s: string) { s != "" && s[|s| - 1] == ':' }

  /** Segments that a path can have: no separator inside, and no colon before one. */
  predicate Clean(segments: seq<string>) {
    forall k :: 0 <= k < |segments| ==> NoSeparator(segments[k]) && (k < |segments| - 1 ==> !EndsInColon(segments[k]))
  }

  lemma FirstIsPrefix(s: string)
    ensures Split(s)[0] <= s
  {
  }

  lemma {:induction false} SplitIsClean(s: string)
    ensures Clean(Split(s))
  {
    if |s| >= 2 {
      if s[0] == ':' && s[1] == ':' {
        SplitIsClean(s[2..]);
      } else {
        var rest, whole := Split(s[1..]), Split(s);
        SplitIsClean(s[1..]);
        FirstIsPrefix(s[1..]);
        forall k | 0 <= k < |whole| ensures NoSeparator(whole[k]) && (k < |whole| - 1 ==> !EndsInColon(whole[k])) {
          if k > 0 { assert whole[k] == rest[k]; }
        }
      }
    }
  }

  lemma SeparatorFreeTail(s: string)
    requires NoSeparator(s) && s != ""
    ensures NoSeparator(s[1..])
  {
    var tail := s[1..];
    forall k | 0 <= k < |tail| - 1 ensures !(tail[k] == ':' && tail[k + 1] == ':') {
      assert tail[k] == s[k + 1] && tail[k + 1] == s[k + 1 + 1];
    }
  }

  lemma {:induction false} SplitOne(s: string)
    requires NoSeparator(s)
    ensures Split(s) == [s]
  {
    if |s| >= 2 {
      SeparatorFreeTail(s);
      SplitOne(s[1..]);
      assert [s[0]] + s[1..] == s;
    }
  }

  lemma {:induction false} SplitAt(a: string, r: string)
    requires NoSeparator(a) && !EndsInColon(a)
    ensures Split(a + "::" + r) == [a] + Split(r)
  {
    var s := a + "::" + r;
    if a == "" {
      assert s[2..] == r;
    } else {
      var tail := a[1..];
      assert s[1..] == tail + "::" + r;
      SeparatorFreeTail(a);
      SplitAt(tail, r);
      assert [a[0]] + tail == a;
    }
  }

  /** Joining clean segments and cutting again gives them back. */
  lemma {:induction false} SplitJoin(segments: seq<string>)
    requires segments != [] && Clean(segments)
    ensures Split(Join(segments)) == segments
  {
    if |segments| == 1 {
      SplitOne(segments[0]);
    } else {
      SplitJoin(segments[1..]);
      SplitAt(segments[0], Join(segments[1..]));
    }
  }

  lemma {:induction false} JoinAppend(a: seq<string>, b: seq<string>)
    requires a != [] && b != []
    ensures Join(a + b) == Join(a) + "::" + Join(b)
  {
    if |a| == 1 {
      assert (a + b)[1..] == b;
    } else {
      assert (a + b)[1..] == a[1..] + b;
      JoinAppend(a[1..], b);
      var x, y, z := a[0], Join(a[1..]), Join(b);
      assert x + "::" + (y + "::" + z) == x + "::" + y + "::" + z;
    }
  }

  /** Joining the front first changes nothing. */
  lemma JoinFront(a: seq<string>, b: seq<string>)
    requires a != []
    ensures Join([Join(a)] + b) == Join(a + b)
  {
    if b == [] {
      assert a + b == a && [Join(a)] + b == [Join(a)];
    } else {
      JoinAppend(a, b);
      JoinAppend([Join(a)], b);
    }
  }

  // ---- one split, and all of them ----

  function Ask(resolver: Resolver, segments: seq<string>, split: nat): Lookup
    requires 1 <= split < |segments|
  {
    resolver(Join(segments[..split]), segments[split])
  }

  /** The hit's name with the segments after the split appended. */
  function WithTail(fqdn: string, segments: seq<string>, split: nat): string
    requires split < |segments|
  {
    Join([fqdn] + segments[split + 1..])
  }

  predicate Answers(l: Lookup, hit: bool) {
    if hit then l.Hit? else l.KnownPeerMissingSymbol?
  }

  /** The largest split below `bound` that hits, or that knows the module; 0 when there is none. */
  ghost function Largest(resolver: Resolver, segments: seq<string>, bound: nat, hit: bool): (r: nat)
    requires 1 <= bound <= |segments|
    ensures r < bound
    ensures r > 0 ==> Answers(Ask(resolver, segments, r), hit)
    ensures forall split :: r < split < bound ==> !Answers(Ask(resolver, segments, split), hit)
  {
    if bound == 1 then 0
    else if Answers(Ask(resolver, segments, bound - 1), hit) then bound - 1
    else Largest(resolver, segments, bound - 1, hit)
  }

  ghost function LongestHit(resolver: Resolver, segments: seq<string>): nat
    requires segments != []
  {
    Largest(resolver, segments, |segments|, true)
  }

  ghost function LongestMissing(resolver: Resolver, segments: seq<string>): nat
    requires segments != []
  {
    Largest(resolver, segments, |segments|, false)
  }

  /**
   The answer of the search: a hit for the longest module prefix that hits, with the
   tail appended; else the longest prefix whose module is known; else nothing.
   */
  ghost function Chain(resolver: Resolver, candidate: string): Option<Lookup> {
    var segments := Split(candidate);
    var hit, missing := LongestHit(resolver, segments), LongestMissing(resolver, segments);
    if hit > 0 then
      var found := Ask(resolver, segments, hit);
      Some(Hit(found.workspace, WithTail(found.fqdn, segments, hit)))
    else if missing > 0 then Some(Ask(resolver, segments, missing))
    else None
  }

  /** Some split of the path hits, or knows the module. */
  ghost predicate Somewhere(resolver: Resolver, segments: seq<string>, hit: bool) {
    exists split :: 1 <= split < |segments| && Answers(Ask(resolver, segments, split), hit)
  }

  lemma SomewhereIff(resolver: Resolver, segments: seq<string>, hit: bool)
    requires segments != []
    ensures Somewhere(resolver, segments, hit) <==> Largest(resolver, segments, |segments|, hit) > 0
  {
    var r := Largest(resolver, segments, |segments|, hit);
    if r > 0 {
      assert Answers(Ask(resolver, segments, r), hit);
    }
  }

  /** The longest module prefix that hits, or that is a known module. */
  ghost predicate IsLongest(resolver: Resolver, segments: seq<string>, k: int, hit: bool) {
    && 1 <= k < |segments| && Answers(Ask(resolver, segments, k), hit)
    && forall j :: k < j < |segments| ==> !Answers(Ask(resolver, segments, j), hit)
  }

  /** Said without the search: a hit exactly when some split hits, and so on down. */
  lemma ChainMeaning(resolver: Resolver, candidate: string)
    ensures var segments := Split(candidate);
      var r := Chain(resolver, candidate);
      && (r.Some? && r.value.Hit? <==> Somewhere(resolver, segments, true))
      && (r.Some? && r.value.KnownPeerMissingSymbol? <==>
            !Somewhere(resolver, segments, true) && Somewhere(resolver, segments, false))
      && (r.None? <==> !Somewhere(resolver, segments, true) && !Somewhere(resolver, segments, false))
      && (forall k :: IsLongest(resolver, segments, k, true) ==>
            r == Some(Hit(Ask(resolver, segments, k).workspace,
              WithTail(Ask(resolver, segments, k).fqdn, segments, k))))
      && (forall k :: !Somewhere(resolver, segments, true) && IsLongest(resolver, segments, k, false) ==>
            r == Some(Ask(resolver, segments, k)))
  {
    var segments := Split(candidate);
    SomewhereIff(resolver, segments, true);
    SomewhereIff(resolver, segments, false);
    forall k | IsLongest(resolver, segments, k, true) ensures LongestHit(resolver, segments) == k {
      assert Somewhere(resolver, segments, true);
    }
    forall k | IsLongest(resolver, segments, k, false) ensures LongestMissing(resolver, segments) == k {
      assert Somewhere(resolver, segments, false);
    }
  }

  method ResolveWithSuffixChain(resolver: Resolver, candidate: string) returns (r: Option<Lookup>)
    ensures r == Chain(resolver, candidate)
  {
    var segments := Split(candidate);
    if |segments| < 2 {
      return None;
    }
    ghost var known := LongestMissing(resolver, segments);
    var fallback: Option<Lookup> := None;
    var split := |segments|;
    while split > 1
      invariant 1 <= split <= |segments|
      invariant LongestHit(resolver, segments) < split
      invariant fallback.None? ==> known < split
      invariant fallback.Some? ==> split <= known && fallback == Some(Ask(resolver, segments, known))
    {
      split := split - 1;
      var prefix := Join(segments[..split]);
      var head := segments[split];
      match resolver(prefix, head) {
        case Hit(workspace, fqdn) =>
          var final := if split + 1 < |segments| then fqdn + "::" + Join(segments[split + 1..]) else fqdn;
          assert ([fqdn] + segments[split + 1..])[1..] == segments[split + 1..];
          assert Answers(Ask(resolver, segments, split), true);
          return Some(Hit(workspace, final));
        case KnownPeerMissingSymbol(workspace) =>
          assert Answers(Ask(resolver, segments, split), false);
          if fallback.None? {
            fallback := Some(KnownPeerMissingSymbol(workspace));
          }
        case Unknown =>
      }
    }
    r := fallback;
  }

  // ---- the edges of a file ----

  datatype Target = Resolved(fqdn: string) | Unresolved(name: string) | UnresolvedBridge(bridge: string, name: string)

  datatype Confidence = Extracted | Inferred | Ambiguous

  datatype RawEdge = RawEdge(
    fromFqdn: string, to: Target, attributes: seq<string>, confidence: Confidence)

  const BRIDGE_SLUG := "custom:cross-workspace"

  function DefaultConfidence(to: Target): Confidence {
    match to
    case Resolved(_) => Extracted
    case UnresolvedBridge(_, _) => Inferred
    case Unresolved(_) => Ambiguous
  }

  predicate IsLocal(fqdn: string, localPrefix: string) {
    || fqdn == localPrefix
    || (|localPrefix| + 2 <= |fqdn| && fqdn[..|localPrefix|] == localPrefix
        && fqdn[|localPrefix|..|localPrefix| + 2] == "::")
  }

  function AddOnce(attributes: seq<string>, a: string): seq<string> {
    if a in attributes then attributes else attributes + [a]
  }

  function Stamp(attributes: seq<string>, workspace: string): seq<string> {
    AddOnce(AddOnce(attributes, "cross-workspace"), "peer-" + workspace)
  }

  function CandidateOf(to: Target): Option<string> {
    match to
    case Resolved(fqdn) => Some(fqdn)
    case Unresolved(name) => Some(name)
    case UnresolvedBridge(_, _) => None
  }

  function Retarget(edge: RawEdge, to: Target, workspace: string): RawEdge {
    edge.(to := to, attributes := Stamp(edge.attributes, workspace), confidence := DefaultConfidence(to))
  }

  ghost function Rewrite(resolver: Resolver, localPrefix: string, edge: RawEdge): RawEdge {
    var candidate := CandidateOf(edge.to);
    if candidate.None? || IsLocal(candidate.value, localPrefix) then edge else
    match Chain(resolver, candidate.value)
    case None => edge
    case Some(Hit(workspace, fqdn)) => Retarget(edge, Resolved(fqdn), workspace)
    case Some(KnownPeerMissingSymbol(workspace)) =>
      Retarget(edge, UnresolvedBridge(BRIDGE_SLUG, candidate.value), workspace)
    case Some(Unknown) => edge
  }

  datatype ModuleLookup = ModuleLookup(moduleFqdn: string, languageHasPrefix: bool)

  /** The first segment of the module's name. */
  function LocalPrefix(lookup: ModuleLookup): string { Split(lookup.moduleFqdn)[0] }

  predicate Applies(lookup: Option<ModuleLookup>) {
    lookup.Some? && lookup.value.languageHasPrefix && LocalPrefix(lookup.value) != ""
  }

  /** The edges of a file after the pass. */
  ghost function RewriteAll(lookup: Option<ModuleLookup>, edges: seq<RawEdge>, resolver: Resolver): (r: seq<RawEdge>)
    ensures |r| == |edges|
    ensures forall k :: 0 <= k < |edges| ==>
      r[k] == if Applies(lookup) then Rewrite(resolver, LocalPrefix(lookup.value), edges[k]) else edges[k]
  {
    seq(|edges|, k requires 0 <= k < |edges| =>
      if Applies(lookup) then Rewrite(resolver, LocalPrefix(lookup.value), edges[k]) else edges[k])
  }

  method RewriteCrossWorkspaceEdges(lookup: Option<ModuleLookup>, edges: array<RawEdge>, resolver: Resolver)
    modifies edges
    ensures edges[..] == RewriteAll(lookup, old(edges[..]), resolver)
  {
    if lookup.None? || !lookup.value.languageHasPrefix {
      return;
    }
    var localPrefix := LocalPrefix(lookup.value);
    if localPrefix == "" {
      return;
    }
    for k := 0 to edges.Length
      invariant forall j :: 0 <= j < k ==> edges[j] == Rewrite(resolver, localPrefix, old(edges[j]))
      invariant forall j :: k <= j < edges.Length ==> edges[j] == old(edges[j])
    {
      var edge := edges[k];
      var candidate := CandidateOf(edge.to);
      if candidate.Some? && !IsLocal(candidate.value, localPrefix) {
        var outcome := ResolveWithSuffixChain(resolver, candidate.value);
        match outcome {
          case Some(Hit(workspace, fqdn)) =>
            edges[k] := Retarget(edge, Resolved(fqdn), workspace);
          case Some(KnownPeerMissingSymbol(workspace)) =>
            edges[k] := Retarget(edge, UnresolvedBridge(BRIDGE_SLUG, candidate.value), workspace);
          case Some(Unknown) =>
          case None =>
        }
      }
    }
  }

  // ---- when a second pass changes nothing ----

  /**
   What the resolver may say about the splits of a name that a first pass wrote: the
   longest split that hits gives the name itself, in a workspace already stamped, or no
   split hits and none is a known module without the symbol.
   */
  ghost predicate NameRests(resolver: Resolver, fqdn: string, attributes: seq<string>) {
    var segments := Split(fqdn);
    && (forall k :: IsLongest(resolver, segments, k, true) ==>
          && WithTail(Ask(resolver, segments, k).fqdn, segments, k) == fqdn
          && "peer-" + Ask(resolver, segments, k).workspace in attributes)
    && (!Somewhere(resolver, segments, true) ==> !Somewhere(resolver, segments, false))
  }

  /** The edge is not rewritten to a name, or to one that is local or rests. */
  ghost predicate Rests(resolver: Resolver, localPrefix: string, edge: RawEdge) {
    var once := Rewrite(resolver, localPrefix, edge);
    once.to.Resolved? && once != edge && !IsLocal(once.to.fqdn, localPrefix) ==>
      NameRests(resolver, once.to.fqdn, once.attributes)
  }

  /** One rewrite of a resolved, already stamped edge is idle exactly when its name rests. */
  lemma IdleIff(resolver: Resolver, localPrefix: string, edge: RawEdge)
    requires edge.to.Resolved? && edge.confidence == Extracted && "cross-workspace" in edge.attributes
    ensures Rewrite(resolver, localPrefix, edge) == edge <==>
      IsLocal(edge.to.fqdn, localPrefix) || NameRests(resolver, edge.to.fqdn, edge.attributes)
  {
    var fqdn := edge.to.fqdn;
    var segments := Split(fqdn);
    ChainMeaning(resolver, fqdn);
    SomewhereIff(resolver, segments, true);
    if Somewhere(resolver, segments, true) {
      var k := LongestHit(resolver, segments);
      assert IsLongest(resolver, segments, k, true);
    }
  }

  /** Rewriting an edge twice is rewriting it once, exactly when the name it was given rests. */
  lemma RewriteTwiceIff(resolver: Resolver, localPrefix: string, edge: RawEdge)
    ensures var once := Rewrite(resolver, localPrefix, edge);
      Rewrite(resolver, localPrefix, once) == once <==> Rests(resolver, localPrefix, edge)
  {
    var once := Rewrite(resolver, localPrefix, edge);
    if once != edge && once.to.Resolved? {
      IdleIff(resolver, localPrefix, once);
    }
  }

  /** So a second pass over a file is idle exactly when every edge rests. */
  lemma FileTwiceIff(lookup: Option<ModuleLookup>, edges: seq<RawEdge>, resolver: Resolver)
    ensures var once := RewriteAll(lookup, edges, resolver);
      RewriteAll(lookup, once, resolver) == once <==>
      (Applies(lookup) ==> forall k :: 0 <= k < |edges| ==> Rests(resolver, LocalPrefix(lookup.value), edges[k]))
  {
    if Applies(lookup) {
      var prefix, once := LocalPrefix(lookup.value), RewriteAll(lookup, edges, resolver);
      forall k | 0 <= k < |edges|
        ensures RewriteAll(lookup, once, resolver)[k] == once[k] <==> Rests(resolver, prefix, edges[k])
      {
        RewriteTwiceIff(resolver, prefix, edges[k]);
      }
    }
  }

  // ---- a condition on the resolver's single answers ----

  /** (module, symbol) for a path of at least two segments. */
  function AskLast(resolver: Resolver, segments: seq<string>): Lookup
    requires |segments| >= 2
  {
    resolver(Join(segments[..|segments| - 1]), segments[|segments| - 1])
  }

  /** Every path on the way to a name, and every path below it, answers with itself or not at all. */
  ghost predicate PathsSettle(resolver: Resolver, workspace: string, own: seq<string>) {
    forall segments :: |segments| >= 2 && Clean(segments) && (segments <= own || own <= segments[..|segments| - 1]) ==>
      AskLast(resolver, segments) in {Unknown, Hit(workspace, Join(segments))}
  }

  ghost predicate Settled(resolver: Resolver, workspace: string, fqdn: string) {
    !EndsInColon(Split(fqdn)[|Split(fqdn)| - 1]) && PathsSettle(resolver, workspace, Split(fqdn))
  }

  /** The names the resolver gives are canonical in that sense. */
  ghost predicate Canonical(resolver: Resolver) {
    forall mod, symbol :: resolver(mod, symbol).Hit? ==>
      Settled(resolver, resolver(mod, symbol).workspace, resolver(mod, symbol).fqdn)
  }

  lemma CleanTail(own: seq<string>, tail: seq<string>)
    requires Clean(own) && Clean(tail) && own != [] && !EndsInColon(own[|own| - 1])
    ensures Clean(own + tail)
  {
  }

  /** A split of a longer path is on the way to the name, or below it. */
  lemma OnTheWay(own: seq<string>, full: seq<string>, k: nat)
    requires own <= full && k < |full|
    ensures full[..k + 1] <= own || own <= full[..k]
  {
  }

  lemma CleanPrefix(full: seq<string>, n: nat)
    requires Clean(full) && n <= |full|
    ensures Clean(full[..n])
  {
  }

  ghost predicate SaysItself(resolver: Resolver, workspace: string, full: seq<string>, k: nat)
    requires 1 <= k < |full|
  {
    var a := Ask(resolver, full, k);
    a.Unknown? || (a.Hit? && a.workspace == workspace && WithTail(a.fqdn, full, k) == Join(full))
  }

  /** Each split of a settled name with a tail answers with itself or not at all. */
  lemma SplitsSettled(resolver: Resolver, workspace: string, own: seq<string>, full: seq<string>, k: nat)
    requires PathsSettle(resolver, workspace, own) && own <= full && Clean(full) && 1 <= k < |full|
    ensures SaysItself(resolver, workspace, full, k)
  {
    OnTheWay(own, full, k);
    CleanPrefix(full, k + 1);
    SameQuestion(resolver, full, k);
    JoinsBack(full, k);
  }

  lemma SameQuestion(resolver: Resolver, full: seq<string>, k: nat)
    requires 1 <= k < |full|
    ensures AskLast(resolver, full[..k + 1]) == Ask(resolver, full, k) && full[..k + 1][..k] == full[..k]
  {
    var segments := full[..k + 1];
    assert segments[..k] == full[..k] && segments[k] == full[k] && |segments| - 1 == k;
  }

  lemma {:induction false} JoinsBack(full: seq<string>, k: nat)
    requires k < |full|
    ensures WithTail(Join(full[..k + 1]), full, k) == Join(full)
  {
    JoinFront(full[..k + 1], full[k + 1..]);
    assert full[..k + 1] + full[k + 1..] == full;
  }

  lemma SaysItselfRests(
    resolver: Resolver, workspace: string, full: seq<string>, fqdn: string, attributes: seq<string>)
    requires Split(fqdn) == full && Join(full) == fqdn && "peer-" + workspace in attributes
    requires forall k :: 1 <= k < |full| ==> SaysItself(resolver, workspace, full, k)
    ensures NameRests(resolver, fqdn, attributes)
  {
    forall k | IsLongest(resolver, full, k, true)
      ensures WithTail(Ask(resolver, full, k).fqdn, full, k) == fqdn && Ask(resolver, full, k).workspace == workspace
    {
      assert SaysItself(resolver, workspace, full, k);
    }
    forall k | 1 <= k < |full| ensures !Answers(Ask(resolver, full, k), false) {
      assert SaysItself(resolver, workspace, full, k);
    }
  }

  /** The name of a hit, cut again: the segments of the resolver's name and the tail. */
  lemma HitSegments(fqdn: string, tail: seq<string>)
    requires Clean(tail) && !EndsInColon(Split(fqdn)[|Split(fqdn)| - 1])
    ensures Split(Join([fqdn] + tail)) == Split(fqdn) + tail
    ensures Join(Split(fqdn) + tail) == Join([fqdn] + tail)
  {
    var own := Split(fqdn);
    JoinSplit(fqdn);
    JoinFront(own, tail);
    SplitIsClean(fqdn);
    CleanTail(own, tail);
    SplitJoin(own + tail);
  }

  /** With a canonical resolver the search is idempotent: a hit name is found again as itself, or not at all. */
  lemma HitNameRests(resolver: Resolver, candidate: string, attributes: seq<string>)
    requires Canonical(resolver) && Chain(resolver, candidate).Some? && Chain(resolver, candidate).value.Hit?
    requires "peer-" + Chain(resolver, candidate).value.workspace in attributes
    ensures NameRests(resolver, Chain(resolver, candidate).value.fqdn, attributes)
  {
    var mod, symbol, tail := HitParts(resolver, candidate);
    var found := resolver(mod, symbol);
    assert Settled(resolver, found.workspace, found.fqdn);
    TailRests(resolver, found.workspace, found.fqdn, tail, attributes);
  }

  /** A hit is a name the resolver gave, with clean segments appended. */
  lemma HitParts(resolver: Resolver, candidate: string)
    returns (mod: string, symbol: string, tail: seq<string>)
    requires Chain(resolver, candidate).Some? && Chain(resolver, candidate).value.Hit?
    ensures Clean(tail) && resolver(mod, symbol).Hit?
    ensures Chain(resolver, candidate).value ==
      Hit(resolver(mod, symbol).workspace, Join([resolver(mod, symbol).fqdn] + tail))
  {
    var segments := Split(candidate);
    var k := LongestHit(resolver, segments);
    mod, symbol, tail := Join(segments[..k]), segments[k], segments[k + 1..];
    SplitIsClean(candidate);
    CleanSuffix(segments, k + 1);
  }

  lemma CleanSuffix(full: seq<string>, n: nat)
    requires Clean(full) && n <= |full|
    ensures Clean(full[n..])
  {
  }

  lemma TailRests(
    resolver: Resolver, workspace: string, fqdn: string, tail: seq<string>, attributes: seq<string>)
    requires Settled(resolver, workspace, fqdn) && Clean(tail) && "peer-" + workspace in attributes
    ensures NameRests(resolver, Join([fqdn] + tail), attributes)
  {
    CleanHit(fqdn, tail);
    FullRests(resolver, workspace, Split(fqdn), Split(fqdn) + tail, Join([fqdn] + tail), attributes);
  }

  lemma CleanHit(fqdn: string, tail: seq<string>)
    requires Clean(tail) && !EndsInColon(Split(fqdn)[|Split(fqdn)| - 1])
    ensures Clean(Split(fqdn) + tail) && Split(Join([fqdn] + tail)) == Split(fqdn) + tail
    ensures Join(Split(fqdn) + tail) == Join([fqdn] + tail)
  {
    SplitIsClean(fqdn);
    CleanTail(Split(fqdn), tail);
    HitSegments(fqdn, tail);
  }

  lemma FullRests(
    resolver: Resolver, workspace: string, own: seq<string>, full: seq<string>, name: string, attributes: seq<string>)
    requires PathsSettle(resolver, workspace, own) && own <= full && Clean(full) && "peer-" + workspace in attributes
    requires Split(name) == full && Join(full) == name
    ensures NameRests(resolver, name, attributes)
  {
    AllSettled(resolver, workspace, own, full);
    SaysItselfRests(resolver, workspace, full, name, attributes);
  }

  lemma AllSettled(resolver: Resolver, workspace: string, own: seq<string>, full: seq<string>)
    requires PathsSettle(resolver, workspace, own) && own <= full && Clean(full)
    ensures forall k :: 1 <= k < |full| ==> SaysItself(resolver, workspace, full, k)
  {
    forall k | 1 <= k < |full| ensures SaysItself(resolver, workspace, full, k) {
      SplitsSettled(resolver, workspace, own, full, k);
    }
  }

  /** With such a resolver a second pass over a file changes no edge, attributes included. */
  lemma RewriteIsIdempotent(lookup: Option<ModuleLookup>, edges: seq<RawEdge>, resolver: Resolver)
    requires Canonical(resolver)
    ensures var once := RewriteAll(lookup, edges, resolver); RewriteAll(lookup, once, resolver) == once
  {
    FileTwiceIff(lookup, edges, resolver);
    if Applies(lookup) {
      forall k | 0 <= k < |edges| ensures Rests(resolver, LocalPrefix(lookup.value), edges[k]) {
        EdgeRests(resolver, LocalPrefix(lookup.value), edges[k]);
      }
    }
  }

  lemma EdgeRests(resolver: Resolver, localPrefix: string, edge: RawEdge)
    requires Canonical(resolver)
    ensures Rests(resolver, localPrefix, edge)
  {
    var once := Rewrite(resolver, localPrefix, edge);
    if once != edge && once.to.Resolved? {
      HitNameRests(resolver, CandidateOf(edge.to).value, once.attributes);
    }
  }

  /** A peer that re-exports one symbol of another module. */
  function Reexport(mod: string, symbol: string): Lookup {
    if mod == "a" && symbol == "x" then Hit("w", "b::x") else Unknown
  }

  /** Such a re-export is canonical. */
  lemma ReexportIsCanonical()
    ensures Canonical(Reexport)
  {
    var own := ["b", "x"];
    SplitJoin(own);
    assert own[1..] == ["x"];
    assert Join(own) == "b::x";
    forall segments | |segments| >= 2 && (segments <= own || own <= segments[..|segments| - 1])
      ensures AskLast(Reexport, segments) == Unknown
    {
      assert segments[..|segments| - 1][0] == segments[0] == "b";
      assert Join(segments[..|segments| - 1])[0] == 'b';
    }
  }

  /** A peer that re-exports a name under another name. */
  function Forwarding(mod: string, symbol: string): Lookup {
    if mod == "a" && symbol == "x" then Hit("w", "b::x")
    else if mod == "b" && symbol == "x" then Hit("w", "c::x")
    else Unknown
  }

  /** So the pass is not idempotent for every resolver: a rewritten edge is a candidate again. */
  lemma RewriteIsNotAlwaysIdempotent()
    ensures var edge := RawEdge("m::f", Unresolved("a::x"), [], Ambiguous);
      var once := Rewrite(Forwarding, "m", edge);
      once.to == Resolved("b::x") && Rewrite(Forwarding, "m", once).to == Resolved("c::x")
  {
    ForwardedOnce("a::x", 'a', Hit("w", "b::x"));
    ForwardedOnce("b::x", 'b', Hit("w", "c::x"));
  }

  lemma ForwardedOnce(path: string, c: char, answer: Lookup)
    requires path == [c] + "::x" && c != ':' && Forwarding([c], "x") == answer && answer.Hit?
    ensures Chain(Forwarding, path) == Some(answer)
  {
    TwoSegments(c);
    var segments := [[c], "x"];
    assert Ask(Forwarding, segments, 1) == answer && Answers(answer, true);
    assert LongestHit(Forwarding, segments) == 1;
    assert [answer.fqdn] + segments[2..] == [answer.fqdn];
  }

  lemma TwoSegments(c: char)
    requires c != ':'
    ensures Split([c] + "::x") == [[c], "x"] && [[c], "x"][..1] == [[c]]
  {
    var s := [c] + "::x";
    assert s[0] == c && s[1..] == "::x" && "::x"[2..] == "x";
    assert Split("x") == ["x"];
    assert Split("::x") == [""] + Split("::x"[2..]);
    assert Split(s) == [[c] + Split(s[1..])[0]] + Split(s[1..])[1..];
    assert [c] + "" == [c];
  }
}
