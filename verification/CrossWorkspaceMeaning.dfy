/**
 What the pass does to an edge, said about the resolver's answers and the edge alone:
 which edges it leaves, what a found name and a missing one become, and how they are
 stamped.
 */
module CrossWorkspaceMeaning {
  import opened Prelude
  import opened CrossWorkspace

  // ---- which split decides ----

  /** The resolver finds segment `k` in the module the segments before it name. */
  ghost predicate FoundAt(resolver: Resolver, segments: seq<string>, k: int) {
    1 <= k < |segments| && resolver(Join(segments[..k]), segments[k]).Hit?
  }

  /** The module is a known peer's, without that symbol. */
  ghost predicate KnownAt(resolver: Resolver, segments: seq<string>, k: int) {
    1 <= k < |segments| && resolver(Join(segments[..k]), segments[k]).KnownPeerMissingSymbol?
  }

  ghost predicate LastFound(resolver: Resolver, segments: seq<string>, k: int) {
    FoundAt(resolver, segments, k) && forall j :: j > k ==> !FoundAt(resolver, segments, j)
  }

  ghost predicate LastKnown(resolver: Resolver, segments: seq<string>, k: int) {
    KnownAt(resolver, segments, k) && forall j :: j > k ==> !KnownAt(resolver, segments, j)
  }

  ghost predicate NothingFound(resolver: Resolver, segments: seq<string>) {
    forall k :: !FoundAt(resolver, segments, k)
  }

  ghost predicate NothingKnown(resolver: Resolver, segments: seq<string>) {
    forall k :: !KnownAt(resolver, segments, k)
  }

  /** The name a split that finds something stands for. */
  ghost function FoundName(resolver: Resolver, segments: seq<string>, k: int): string
    requires FoundAt(resolver, segments, k)
  {
    Join([resolver(Join(segments[..k]), segments[k]).fqdn] + segments[k + 1..])
  }

  ghost function PeerAt(resolver: Resolver, segments: seq<string>, k: int): string
    requires FoundAt(resolver, segments, k) || KnownAt(resolver, segments, k)
  {
    resolver(Join(segments[..k]), segments[k]).workspace
  }

  lemma SameSplits(resolver: Resolver, segments: seq<string>, k: int)
    ensures FoundAt(resolver, segments, k) <==> 1 <= k < |segments| && Answers(Ask(resolver, segments, k), true)
    ensures KnownAt(resolver, segments, k) <==> 1 <= k < |segments| && Answers(Ask(resolver, segments, k), false)
  {
  }

  lemma SplitsAgree(resolver: Resolver, segments: seq<string>)
    ensures Somewhere(resolver, segments, true) <==> !NothingFound(resolver, segments)
    ensures Somewhere(resolver, segments, false) <==> !NothingKnown(resolver, segments)
  {
    forall k { SameSplits(resolver, segments, k); }
  }

  lemma LongestAgree(resolver: Resolver, segments: seq<string>, k: int)
    ensures LastFound(resolver, segments, k) <==> IsLongest(resolver, segments, k, true)
    ensures LastKnown(resolver, segments, k) <==> IsLongest(resolver, segments, k, false)
  {
    forall j { SameSplits(resolver, segments, j); }
  }

  /** The search, one case per answer. */
  lemma ChainIs(resolver: Resolver, name: string, k: int)
    ensures var segments := Split(name);
      && (LastFound(resolver, segments, k) ==>
            Chain(resolver, name) == Some(Hit(PeerAt(resolver, segments, k), FoundName(resolver, segments, k))))
      && (NothingFound(resolver, segments) && LastKnown(resolver, segments, k) ==>
            Chain(resolver, name) == Some(KnownPeerMissingSymbol(PeerAt(resolver, segments, k))))
      && (NothingFound(resolver, segments) && NothingKnown(resolver, segments) ==> Chain(resolver, name) == None)
  {
    var segments := Split(name);
    ChainMeaning(resolver, name);
    SplitsAgree(resolver, segments);
    LongestAgree(resolver, segments, k);
    if LastFound(resolver, segments, k) { SameSplits(resolver, segments, k); }
    if LastKnown(resolver, segments, k) { SameSplits(resolver, segments, k); }
  }

  /** Some split decides. */
  lemma Decided(resolver: Resolver, segments: seq<string>)
    requires segments != []
    ensures NothingFound(resolver, segments) || exists k :: LastFound(resolver, segments, k)
    ensures NothingKnown(resolver, segments) || exists k :: LastKnown(resolver, segments, k)
  {
    SplitsAgree(resolver, segments);
    SomewhereIff(resolver, segments, true);
    SomewhereIff(resolver, segments, false);
    LongestAgree(resolver, segments, LongestHit(resolver, segments));
    LongestAgree(resolver, segments, LongestMissing(resolver, segments));
  }

  // ---- what an edge becomes ----

  /** Outside the module's own workspace. */
  predicate Foreign(name: string, localPrefix: string) {
    name != localPrefix && !(localPrefix + "::" <= name)
  }

  lemma ForeignIff(name: string, localPrefix: string)
    ensures Foreign(name, localPrefix) <==> !IsLocal(name, localPrefix)
  {
    var n := |localPrefix|;
    if n + 2 <= |name| {
      assert name[..n + 2] == name[..n] + name[n..n + 2];
      assert (localPrefix + "::")[..n] == localPrefix && (localPrefix + "::")[n..] == "::";
    }
  }

  /** The old attributes, and behind them the two stamps that were not there yet, each once and in that order. */
  ghost predicate StampedFor(before: seq<string>, after: seq<string>, workspace: string) {
    && before <= after && "cross-workspace" in after && "peer-" + workspace in after
    && ("cross-workspace" !in before ==> after[|before|..][..1] == ["cross-workspace"])
    && forall k :: |before| <= k < |after| ==>
         (after[k] == "cross-workspace" || after[k] == "peer-" + workspace) && after[k] !in after[..k]
  }

  lemma StampIs(attributes: seq<string>, workspace: string)
    ensures StampedFor(attributes, Stamp(attributes, workspace), workspace)
  {
    var once := AddOnce(attributes, "cross-workspace");
    var after := Stamp(attributes, workspace);
    assert after[..|attributes|] == attributes && after[..|once|] == once;
    if "cross-workspace" !in attributes {
      assert after[|attributes|..][..1] == [after[|attributes|]];
    }
    forall k | |attributes| <= k < |after|
      ensures (after[k] == "cross-workspace" || after[k] == "peer-" + workspace) && after[k] !in after[..k]
    {
      if k == |once| {
        assert after[k] == "peer-" + workspace && after[..k] == once;
      } else {
        assert after[k] == "cross-workspace" && after[..k] == attributes;
      }
    }
  }

  /** Nothing but the target, the stamps and the confidence changes. */
  ghost predicate Becomes(before: RawEdge, after: RawEdge, to: Target, confidence: Confidence, workspace: string) {
    && after.fromFqdn == before.fromFqdn && after.to == to && after.confidence == confidence
    && StampedFor(before.attributes, after.attributes, workspace)
  }

  /** The name an edge asks about. */
  ghost predicate Asks(edge: RawEdge, name: string) {
    edge.to == Resolved(name) || edge.to == Unresolved(name)
  }

  /** A foreign name some split finds is resolved to what the longest such module gives it. */
  lemma FoundIsResolved(resolver: Resolver, localPrefix: string, edge: RawEdge, name: string, k: int)
    requires Asks(edge, name) && Foreign(name, localPrefix) && LastFound(resolver, Split(name), k)
    ensures var segments := Split(name);
      Becomes(edge, Rewrite(resolver, localPrefix, edge), Resolved(FoundName(resolver, segments, k)), Extracted,
        PeerAt(resolver, segments, k))
  {
    ForeignIff(name, localPrefix);
    ChainIs(resolver, name, k);
    StampIs(edge.attributes, PeerAt(resolver, Split(name), k));
  }

  /** A foreign name no split finds, below a known module, becomes a bridge under its own name. */
  lemma MissingIsBridged(resolver: Resolver, localPrefix: string, edge: RawEdge, name: string, k: int)
    requires Asks(edge, name) && Foreign(name, localPrefix)
    requires NothingFound(resolver, Split(name)) && LastKnown(resolver, Split(name), k)
    ensures Becomes(edge, Rewrite(resolver, localPrefix, edge), UnresolvedBridge("custom:cross-workspace", name),
      Inferred, PeerAt(resolver, Split(name), k))
  {
    ForeignIff(name, localPrefix);
    ChainIs(resolver, name, k);
    StampIs(edge.attributes, PeerAt(resolver, Split(name), k));
  }

  /** The edges that have nothing to ask, or no answer. */
  ghost predicate LeftAlone(resolver: Resolver, localPrefix: string, edge: RawEdge) {
    || edge.to.UnresolvedBridge?
    || exists name :: Asks(edge, name) && (!Foreign(name, localPrefix)
         || (NothingFound(resolver, Split(name)) && NothingKnown(resolver, Split(name))))
  }

  lemma OthersAreLeft(resolver: Resolver, localPrefix: string, edge: RawEdge)
    requires LeftAlone(resolver, localPrefix, edge)
    ensures Rewrite(resolver, localPrefix, edge) == edge
  {
    if !edge.to.UnresolvedBridge? {
      var name := CandidateOf(edge.to).value;
      assert Asks(edge, name);
      ForeignIff(name, localPrefix);
      ChainIs(resolver, name, 0);
    }
  }

  /** What the pass may make of an edge. */
  ghost predicate Rewritten(resolver: Resolver, localPrefix: string, before: RawEdge, after: RawEdge) {
    || (LeftAlone(resolver, localPrefix, before) && after == before)
    || (exists name, k :: Asks(before, name) && Foreign(name, localPrefix) && LastFound(resolver, Split(name), k)
          && Becomes(before, after, Resolved(FoundName(resolver, Split(name), k)), Extracted,
               PeerAt(resolver, Split(name), k)))
    || (exists name, k :: Asks(before, name) && Foreign(name, localPrefix) && NothingFound(resolver, Split(name))
          && LastKnown(resolver, Split(name), k)
          && Becomes(before, after, UnresolvedBridge("custom:cross-workspace", name), Inferred,
               PeerAt(resolver, Split(name), k)))
  }

  /** Every edge falls under exactly these cases. */
  lemma RewriteMeans(resolver: Resolver, localPrefix: string, edge: RawEdge)
    ensures Rewritten(resolver, localPrefix, edge, Rewrite(resolver, localPrefix, edge))
  {
    if LeftAlone(resolver, localPrefix, edge) {
      OthersAreLeft(resolver, localPrefix, edge);
    } else {
      var name := CandidateOf(edge.to).value;
      assert Asks(edge, name);
      Decided(resolver, Split(name));
      if k :| LastFound(resolver, Split(name), k) {
        FoundIsResolved(resolver, localPrefix, edge, name, k);
      } else {
        var k :| LastKnown(resolver, Split(name), k);
        MissingIsBridged(resolver, localPrefix, edge, name, k);
      }
    }
  }

  // ---- the whole file ----

  /** What stands before the first `::`, or the whole name. */
  ghost predicate IsHead(head: string, name: string) {
    NoSeparator(head) && (name == head || (!EndsInColon(head) && head + "::" <= name))
  }

  lemma LocalPrefixIsHead(lookup: ModuleLookup)
    ensures IsHead(LocalPrefix(lookup), lookup.moduleFqdn)
  {
    var name := lookup.moduleFqdn;
    var segments := Split(name);
    SplitIsClean(name);
    JoinSplit(name);
    if |segments| > 1 {
      assert segments[0] + "::" <= Join(segments);
    }
  }

  /** The pass in terms of the module's name: without a head it does nothing, with one it does the above. */
  lemma FileMeans(lookup: Option<ModuleLookup>, edges: seq<RawEdge>, resolver: Resolver, head: string)
    requires lookup.Some? ==> IsHead(head, lookup.value.moduleFqdn)
    ensures var after := RewriteAll(lookup, edges, resolver);
      if lookup.Some? && lookup.value.languageHasPrefix && head != "" then
        forall k :: 0 <= k < |edges| ==> Rewritten(resolver, head, edges[k], after[k])
      else after == edges
  {
    var after := RewriteAll(lookup, edges, resolver);
    if lookup.Some? {
      LocalPrefixIsHead(lookup.value);
      OneHead(LocalPrefix(lookup.value), head, lookup.value.moduleFqdn);
    }
    forall k | 0 <= k < |edges| && Applies(lookup) ensures Rewritten(resolver, head, edges[k], after[k]) {
      RewriteMeans(resolver, head, edges[k]);
    }
  }

  lemma OneHead(a: string, b: string, name: string)
    requires IsHead(a, name) && IsHead(b, name)
    ensures a == b
  {
    ShorterHead(a, b, name);
    ShorterHead(b, a, name);
  }

  lemma HeadEnds(head: string, name: string)
    requires IsHead(head, name)
    ensures |head| <= |name| && head == name[..|head|]
    ensures head != name ==> |head| + 1 < |name| && name[|head|] == ':' && name[|head| + 1] == ':'
  {
    if head != name {
      var n := |head|;
      assert name[n] == (head + "::")[n] && name[n + 1] == (head + "::")[n + 1];
    }
  }

  lemma SeparatorInside(head: string, name: string, n: nat)
    requires n < |head| <= |name| && head == name[..|head|]
    requires n + 1 < |name| && name[n] == ':' && name[n + 1] == ':'
    ensures !NoSeparator(head) || EndsInColon(head)
  {
    assert head[n] == ':' && (n + 1 < |head| ==> head[n + 1] == ':');
  }

  lemma ShorterHead(a: string, b: string, name: string)
    requires IsHead(a, name) && IsHead(b, name)
    ensures |a| >= |b|
    ensures |a| == |b| ==> a == b
  {
    HeadEnds(a, name);
    HeadEnds(b, name);
    if |a| < |b| {
      SeparatorInside(b, name, |a|);
    }
  }
}
