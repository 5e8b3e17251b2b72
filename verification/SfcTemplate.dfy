/**
 The template regions of a Svelte component: everything outside its script and
 style blocks, tags included.
 */
module SfcTemplate {
  import opened SfcScanner
  import opened SfcBlocks
  import opened SfcPayload

  datatype Range = Range(start: nat, end: nat)

  predicate Covers(r: Range, k: nat) { r.start <= k < r.end }

  // ---- the outer range of a block ----

  /** The last `<` at or before `i`, or 0. */
  function LastLt(b: string, i: nat): (r: nat)
    requires i < |b|
    ensures r <= i
  {
    if i == 0 then 0 else if b[i] == '<' then i else LastLt(b, i - 1)
  }

  lemma {:induction false} LastLtIsLast(b: string, i: nat, k: nat)
    requires k <= i < |b| && b[k] == '<'
    ensures var r := LastLt(b, i); k <= r && b[r] == '<' && forall j :: r < j <= i ==> b[j] != '<'
  {
    if i > 0 && b[i] != '<' {
      LastLtIsLast(b, i - 1, k);
    }
  }

  method BlockOuterStart(b: string, contentStart: nat) returns (r: nat)
    requires 0 < contentStart <= |b|
    ensures r == LastLt(b, contentStart - 1)
  {
    var i := contentStart - 1;
    while i > 0
      invariant i < |b| && LastLt(b, contentStart - 1) == LastLt(b, i)
    {
      if b[i] == '<' {
        return i;
      }
      i := i - 1;
    }
    r := 0;
  }

  method BlockOuterEnd(b: string, contentEnd: nat) returns (r: nat)
    requires contentEnd <= |b|
    ensures r == PastByte(b, contentEnd, '>')
  {
    var i := contentEnd;
    while i < |b|
      invariant contentEnd <= i <= |b| && PastByte(b, contentEnd, '>') == PastByte(b, i, '>')
    {
      if b[i] == '>' {
        return i + 1;
      }
      i := i + 1;
    }
    r := |b|;
  }

  predicate HasContent(b: string, block: SfcBlock) {
    0 < block.contentStart <= block.contentEnd <= |b|
  }

  function OuterRange(b: string, block: SfcBlock): Range
    requires HasContent(b, block)
  {
    Range(LastLt(b, block.contentStart - 1), OuterEnd(b, block))
  }

  // ---- sorting the blocked ranges ----

  function InsertRange(sorted: seq<Range>, r: Range): (out: seq<Range>)
    ensures multiset(out) == multiset(sorted) + multiset{r}
  {
    if sorted == [] || sorted[|sorted| - 1].start <= r.start then sorted + [r]
    else
      assert sorted == sorted[..|sorted| - 1] + [sorted[|sorted| - 1]];
      InsertRange(sorted[..|sorted| - 1], r) + [sorted[|sorted| - 1]]
  }

  /** A stable sort by start. */
  function SortByStart(ranges: seq<Range>): (out: seq<Range>)
    ensures multiset(out) == multiset(ranges)
  {
    if ranges == [] then [] else
    assert ranges == ranges[..|ranges| - 1] + [ranges[|ranges| - 1]];
    InsertRange(SortByStart(ranges[..|ranges| - 1]), ranges[|ranges| - 1])
  }

  ghost predicate Sorted(ranges: seq<Range>) {
    forall j, k :: 0 <= j < k < |ranges| ==> ranges[j].start <= ranges[k].start
  }

  lemma {:induction false} InsertSorted(sorted: seq<Range>, r: Range)
    requires Sorted(sorted)
    ensures Sorted(InsertRange(sorted, r))
    ensures forall x :: x in InsertRange(sorted, r) ==> x in sorted || x == r
  {
    if sorted != [] && sorted[|sorted| - 1].start > r.start {
      var rest, last := sorted[..|sorted| - 1], sorted[|sorted| - 1];
      InsertSorted(rest, r);
      var out := InsertRange(rest, r);
      forall j | 0 <= j < |out| ensures out[j].start <= last.start {
        assert out[j] in out;
      }
    }
  }

  lemma {:induction false} SortSorted(ranges: seq<Range>)
    ensures Sorted(SortByStart(ranges))
  {
    if ranges != [] {
      SortSorted(ranges[..|ranges| - 1]);
      InsertSorted(SortByStart(ranges[..|ranges| - 1]), ranges[|ranges| - 1]);
    }
  }

  // ---- the gaps between sorted ranges ----

  /** Non-empty ranges, each ending before the next begins. */
  ghost predicate Disjoint(ranges: seq<Range>, length: nat) {
    && (forall k :: 0 <= k < |ranges| ==> ranges[k].start < ranges[k].end <= length)
    && (forall j, k :: 0 <= j < k < |ranges| ==> ranges[j].end <= ranges[k].start)
  }

  ghost predicate Covered(ranges: seq<Range>, k: nat) {
    exists j :: 0 <= j < |ranges| && Covers(ranges[j], k)
  }

  /** Where the cursor stands after some blocked ranges. */
  function CursorAfter(blocked: seq<Range>): nat {
    if blocked == [] then 0 else blocked[|blocked| - 1].end
  }

  function GapsBefore(blocked: seq<Range>): seq<Range> {
    if blocked == [] then [] else
    var rest, last := blocked[..|blocked| - 1], blocked[|blocked| - 1];
    GapsBefore(rest) + (if CursorAfter(rest) < last.start then [Range(CursorAfter(rest), last.start)] else [])
  }

  function Gaps(blocked: seq<Range>, length: nat): seq<Range> {
    GapsBefore(blocked) + (if CursorAfter(blocked) < length then [Range(CursorAfter(blocked), length)] else [])
  }

  lemma CoveredSnoc(ranges: seq<Range>, last: Range, k: nat)
    ensures Covered(ranges + [last], k) <==> Covered(ranges, k) || Covers(last, k)
  {
    if Covered(ranges, k) {
      var j :| 0 <= j < |ranges| && Covers(ranges[j], k);
      assert Covers((ranges + [last])[j], k);
    }
    if Covers(last, k) {
      assert Covers((ranges + [last])[|ranges|], k);
    }
  }

  lemma {:induction false} GapsBeforeDisjoint(blocked: seq<Range>, length: nat)
    requires Disjoint(blocked, length)
    ensures Disjoint(GapsBefore(blocked), CursorAfter(blocked)) && CursorAfter(blocked) <= length
  {
    if blocked != [] {
      var rest := blocked[..|blocked| - 1];
      GapsBeforeDisjoint(rest, length);
      assert rest != [] ==> rest[|rest| - 1] == blocked[|rest| - 1];
    }
  }

  ghost predicate Shares(gaps: seq<Range>, blocked: seq<Range>, cursor: nat, k: nat) {
    && (k < cursor ==> (Covered(gaps, k) <==> !Covered(blocked, k)))
    && (cursor <= k ==> !Covered(gaps, k) && !Covered(blocked, k))
  }

  lemma SharesSnoc(gaps: seq<Range>, blocked: seq<Range>, cursor: nat, last: Range, k: nat)
    requires Shares(gaps, blocked, cursor, k) && cursor <= last.start < last.end
    ensures Shares(gaps + (if cursor < last.start then [Range(cursor, last.start)] else []), blocked + [last],
      last.end, k)
  {
    CoveredSnoc(gaps, Range(cursor, last.start), k);
    CoveredSnoc(blocked, last, k);
    assert gaps + [] == gaps;
  }

  lemma DisjointInit(blocked: seq<Range>, length: nat)
    requires Disjoint(blocked, length) && blocked != []
    ensures var rest, last := blocked[..|blocked| - 1], blocked[|blocked| - 1];
      Disjoint(rest, length) && CursorAfter(rest) <= last.start < last.end && blocked == rest + [last]
  {
  }

  /** Up to the cursor, gaps and blocked ranges share out the bytes; beyond it there is neither. */
  lemma {:induction false} GapsBeforeShare(blocked: seq<Range>, length: nat, k: nat)
    requires Disjoint(blocked, length)
    ensures Shares(GapsBefore(blocked), blocked, CursorAfter(blocked), k)
  {
    if blocked != [] {
      var rest, last := blocked[..|blocked| - 1], blocked[|blocked| - 1];
      DisjointInit(blocked, length);
      GapsBeforeShare(rest, length, k);
      SharesSnoc(GapsBefore(rest), rest, CursorAfter(rest), last, k);
    }
  }

  /** The gaps are non-empty, in order and disjoint, and hold exactly the bytes no blocked range holds. */
  lemma GapsSplit(blocked: seq<Range>, length: nat)
    requires Disjoint(blocked, length)
    ensures Disjoint(Gaps(blocked, length), length)
    ensures forall k: nat :: k < length ==> (Covered(Gaps(blocked, length), k) <==> !Covered(blocked, k))
  {
    GapsBeforeDisjoint(blocked, length);
    forall k: nat | k < length ensures Covered(Gaps(blocked, length), k) <==> !Covered(blocked, k) {
      GapsBeforeShare(blocked, length, k);
      CoveredSnoc(GapsBefore(blocked), Range(CursorAfter(blocked), length), k);
      assert CursorAfter(blocked) == length ==> Gaps(blocked, length) == GapsBefore(blocked);
    }
  }

  method CarveRegions(blocked: seq<Range>, length: nat) returns (regions: seq<Range>)
    ensures regions == Gaps(blocked, length)
  {
    regions := [];
    var cursor := 0;
    for k := 0 to |blocked|
      invariant cursor == CursorAfter(blocked[..k])
      invariant regions == GapsBefore(blocked[..k])
    {
      assert blocked[..k + 1][..k] == blocked[..k];
      if cursor < blocked[k].start {
        regions := regions + [Range(cursor, blocked[k].start)];
      }
      cursor := blocked[k].end;
    }
    assert blocked[..|blocked|] == blocked;
    if cursor < length {
      regions := regions + [Range(cursor, length)];
    }
  }

  // ---- the blocked ranges of a document ----

  function OuterRanges(b: string, blocks: seq<SfcBlock>): (r: seq<Range>)
    requires forall k :: 0 <= k < |blocks| ==> HasContent(b, blocks[k])
    ensures |r| == |blocks| && forall k :: 0 <= k < |blocks| ==> r[k] == OuterRange(b, blocks[k])
  {
    if blocks == [] then [] else
    OuterRanges(b, blocks[..|blocks| - 1]) + [OuterRange(b, blocks[|blocks| - 1])]
  }

  method CollectRanges(b: string, blocks: seq<SfcBlock>) returns (r: seq<Range>)
    requires forall k :: 0 <= k < |blocks| ==> HasContent(b, blocks[k])
    ensures r == OuterRanges(b, blocks)
  {
    r := [];
    for k := 0 to |blocks|
      invariant r == OuterRanges(b, blocks[..k])
    {
      assert blocks[..k + 1][..k] == blocks[..k];
      var start := BlockOuterStart(b, blocks[k].contentStart);
      var end := BlockOuterEnd(b, blocks[k].contentEnd);
      r := r + [Range(start, end)];
    }
    assert blocks[..|blocks|] == blocks;
  }

  /** The outer range of a placed block reaches from its tag, or inside it, to past its closing tag. */
  lemma OuterRangeOf(b: string, p: Placed)
    requires InBounds(b, p)
    ensures HasContent(b, p.block)
    ensures var r := OuterRange(b, p.block);
      p.lt <= r.start < p.block.contentStart && p.block.contentEnd <= r.end <= |b|
  {
    LastLtIsLast(b, p.block.contentStart - 1, p.lt);
  }

  ghost predicate Apart(x: Range, y: Range) { x.end <= y.start || y.end <= x.start }

  lemma PlacedApart(b: string, ps: seq<Placed>, j: nat, k: nat)
    requires Ordered(b, ps) && j < k < |ps|
    ensures HasContent(b, ps[j].block) && HasContent(b, ps[k].block)
    ensures OuterRange(b, ps[j].block).end <= OuterRange(b, ps[k].block).start
  {
    OuterRangeOf(b, ps[j]);
    OuterRangeOf(b, ps[k]);
  }

  /** Blocks of one tag, in order, have their outer ranges in order. */
  lemma {:induction false} TagRanges(b: string, ps: seq<Placed>, tag: string)
    requires Ordered(b, ps)
    ensures var blocks := OfTag(ps, tag);
      && (forall k :: 0 <= k < |blocks| ==> HasContent(b, blocks[k]))
      && Disjoint(OuterRanges(b, blocks), |b|)
  {
    if ps != [] {
      var rest, last := ps[..|ps| - 1], ps[|ps| - 1];
      TagRanges(b, rest, tag);
      OuterRangeOf(b, last);
      var blocks := OfTag(rest, tag);
      forall n | 0 <= n < |blocks| ensures OuterRange(b, blocks[n]).end <= OuterRange(b, last.block).start {
        BeforeLast(b, ps, tag, n);
      }
      OuterRangesSnoc(b, blocks, last.block);
    }
  }

  lemma {:induction false} OuterRangesSnoc(b: string, blocks: seq<SfcBlock>, last: SfcBlock)
    requires forall k :: 0 <= k < |blocks| ==> HasContent(b, blocks[k])
    requires HasContent(b, last) && OuterRange(b, last).start < OuterRange(b, last).end <= |b|
    requires Disjoint(OuterRanges(b, blocks), |b|)
    requires forall n :: 0 <= n < |blocks| ==> OuterRange(b, blocks[n]).end <= OuterRange(b, last).start
    ensures forall k :: 0 <= k < |blocks + [last]| ==> HasContent(b, (blocks + [last])[k])
    ensures Disjoint(OuterRanges(b, blocks + [last]), |b|)
  {
    DisjointSnoc(OuterRanges(b, blocks), OuterRange(b, last), |b|);
    assert (blocks + [last])[..|blocks|] == blocks;
  }

  lemma BeforeLast(b: string, ps: seq<Placed>, tag: string, n: nat)
    requires Ordered(b, ps) && ps != [] && n < |OfTag(ps[..|ps| - 1], tag)|
    ensures var block, last := OfTag(ps[..|ps| - 1], tag)[n], ps[|ps| - 1].block;
      && HasContent(b, block) && HasContent(b, last)
      && OuterRange(b, block).end <= OuterRange(b, last).start
  {
    var rest := ps[..|ps| - 1];
    var blocks := OfTag(rest, tag);
    OfTagMembers(rest, tag);
    assert blocks[n] in blocks;
    var k :| 0 <= k < |rest| && rest[k].block == blocks[n];
    assert rest[k] == ps[k];
    PlacedApart(b, ps, k, |ps| - 1);
  }

  lemma DisjointSnoc(ranges: seq<Range>, last: Range, length: nat)
    requires Disjoint(ranges, length) && last.start < last.end <= length
    requires forall k :: 0 <= k < |ranges| ==> ranges[k].end <= last.start
    ensures Disjoint(ranges + [last], length)
  {
  }

  lemma TagsApart(b: string, ps: seq<Placed>, x: SfcBlock, y: SfcBlock)
    requires Ordered(b, ps) && x in OfTag(ps, "script") && y in OfTag(ps, "style")
    ensures HasContent(b, x) && HasContent(b, y) && Apart(OuterRange(b, x), OuterRange(b, y))
  {
    OfTagMembers(ps, "script");
    OfTagMembers(ps, "style");
    var j :| 0 <= j < |ps| && ps[j].block == x;
    var k :| 0 <= k < |ps| && ps[k].block == y;
    if j < k {
      PlacedApart(b, ps, j, k);
    } else {
      PlacedApart(b, ps, k, j);
    }
  }

  // ---- sorting ranges that are apart makes them disjoint ----

  ghost predicate PairwiseApart(ranges: seq<Range>, length: nat) {
    && (forall k :: 0 <= k < |ranges| ==> ranges[k].start < ranges[k].end <= length)
    && (forall j, k :: 0 <= j < k < |ranges| ==> Apart(ranges[j], ranges[k]))
  }

  lemma {:induction false} OnceEach(ranges: seq<Range>, length: nat, x: Range)
    requires PairwiseApart(ranges, length)
    ensures multiset(ranges)[x] <= 1
  {
    if ranges != [] {
      var rest, last := ranges[..|ranges| - 1], ranges[|ranges| - 1];
      OnceEach(rest, length, x);
      assert ranges == rest + [last];
      forall k | 0 <= k < |rest| ensures rest[k] != last {
        assert Apart(ranges[k], ranges[|ranges| - 1]);
      }
    }
  }

  lemma SortedApart(ranges: seq<Range>, length: nat)
    requires PairwiseApart(ranges, length)
    ensures Disjoint(SortByStart(ranges), length)
  {
    var s := SortByStart(ranges);
    SortSorted(ranges);
    forall k | 0 <= k < |s| ensures s[k].start < s[k].end <= length {
      assert s[k] in multiset(s);
      assert s[k] in ranges;
    }
    forall j, k | 0 <= j < k < |s| ensures s[j].end <= s[k].start {
      NotTwice(ranges, length, s, j, k);
      assert s[j] in multiset(s) && s[k] in multiset(s);
      TwoApart(ranges, length, s[j], s[k]);
    }
  }

  lemma TwoApart(ranges: seq<Range>, length: nat, x: Range, y: Range)
    requires PairwiseApart(ranges, length) && x in ranges && y in ranges && x != y
    ensures Apart(x, y) && x.start < x.end && y.start < y.end
  {
    var i :| 0 <= i < |ranges| && ranges[i] == x;
    var n :| 0 <= n < |ranges| && ranges[n] == y;
  }

  lemma NotTwice(ranges: seq<Range>, length: nat, s: seq<Range>, j: nat, k: nat)
    requires PairwiseApart(ranges, length) && multiset(s) == multiset(ranges) && j < k < |s|
    ensures s[j] != s[k]
  {
    OnceEach(ranges, length, s[j]);
    assert s == s[..k] + [s[k]] + s[k + 1..];
    assert multiset(s) == multiset(s[..k]) + multiset{s[k]} + multiset(s[k + 1..]);
    assert s[j] in s[..k];
  }

  // ---- for every source ----

  function Blocked(doc: SfcDocument): seq<SfcBlock> { doc.scripts + doc.styles }

  lemma ConcatApart(xs: seq<Range>, ys: seq<Range>, length: nat)
    requires Disjoint(xs, length) && Disjoint(ys, length)
    requires forall j, k :: 0 <= j < |xs| && 0 <= k < |ys| ==> Apart(xs[j], ys[k])
    ensures PairwiseApart(xs + ys, length)
  {
  }

  lemma DocumentApart(b: string)
    ensures var blocks := Blocked(Collect(Walk(b, 0)));
      && (forall k :: 0 <= k < |blocks| ==> HasContent(b, blocks[k]))
      && PairwiseApart(OuterRanges(b, blocks), |b|)
  {
    var ps := Walk(b, 0);
    WalkOrdered(b, 0);
    PlacedDocumentApart(b, ps);
  }

  lemma PlacedDocumentApart(b: string, ps: seq<Placed>)
    requires Ordered(b, ps)
    ensures var blocks := Blocked(Collect(ps));
      && (forall k :: 0 <= k < |blocks| ==> HasContent(b, blocks[k]))
      && PairwiseApart(OuterRanges(b, blocks), |b|)
  {
    TagRanges(b, ps, "script");
    TagRanges(b, ps, "style");
    var scripts, styles := OfTag(ps, "script"), OfTag(ps, "style");
    var xs, ys := OuterRanges(b, scripts), OuterRanges(b, styles);
    forall j, k | 0 <= j < |xs| && 0 <= k < |ys| ensures Apart(xs[j], ys[k]) {
      TagsApart(b, ps, scripts[j], styles[k]);
    }
    ConcatApart(xs, ys, |b|);
    OuterRangesConcat(b, scripts, styles);
  }

  lemma OuterRangesConcat(b: string, xs: seq<SfcBlock>, ys: seq<SfcBlock>)
    requires forall k :: 0 <= k < |xs| ==> HasContent(b, xs[k])
    requires forall k :: 0 <= k < |ys| ==> HasContent(b, ys[k])
    ensures OuterRanges(b, xs + ys) == OuterRanges(b, xs) + OuterRanges(b, ys)
  {
    var all, parts := OuterRanges(b, xs + ys), OuterRanges(b, xs) + OuterRanges(b, ys);
    forall k | 0 <= k < |all| ensures all[k] == parts[k] {
      assert all[k] == OuterRange(b, (xs + ys)[k]);
    }
  }

  /**
   For every source: the regions are non-empty, sorted and disjoint, the blocked
   ranges are too, and each byte lies in exactly one range of the two lists.
   */
  method SvelteTemplateRegions(source: string) returns (regions: seq<Range>, ghost blocked: seq<Range>)
    ensures var blocks := Blocked(Collect(Walk(source, 0)));
      && (forall k :: 0 <= k < |blocks| ==> HasContent(source, blocks[k]))
      && multiset(blocked) == multiset(OuterRanges(source, blocks))
    ensures Disjoint(regions, |source|) && Disjoint(blocked, |source|)
    ensures forall k: nat :: k < |source| ==> (Covered(regions, k) <==> !Covered(blocked, k))
    ensures var doc := Collect(Walk(source, 0));
      forall block, k: nat | block in doc.scripts || block in doc.styles ::
        block.contentStart <= k < block.contentEnd ==> !Covered(regions, k)
  {
    var doc := ExtractBlocks(source);
    DocumentApart(source);
    var ranges := CollectRanges(source, Blocked(doc));
    var sorted := SortByStart(ranges);
    SortedApart(ranges, |source|);
    regions := CarveRegions(sorted, |source|);
    GapsSplit(sorted, |source|);
    blocked := sorted;
    forall block, k: nat | (block in doc.scripts || block in doc.styles)
      && block.contentStart <= k < block.contentEnd
      ensures !Covered(regions, k)
    {
      assert block in Blocked(doc);
      ContentBlocked(source, Blocked(doc), sorted, block, k);
    }
  }

  lemma ContentBlocked(b: string, blocks: seq<SfcBlock>, sorted: seq<Range>, block: SfcBlock, k: nat)
    requires forall n :: 0 <= n < |blocks| ==> HasContent(b, blocks[n])
    requires multiset(sorted) == multiset(OuterRanges(b, blocks))
    requires block in blocks && block.contentStart <= k < block.contentEnd
    ensures k < |b| && Covered(sorted, k)
  {
    var n :| 0 <= n < |blocks| && blocks[n] == block;
    var r := OuterRanges(b, blocks)[n];
    assert r in multiset(OuterRanges(b, blocks));
    assert r in multiset(sorted);
    var i :| 0 <= i < |sorted| && sorted[i] == r;
    assert Covers(sorted[i], k);
  }
}
