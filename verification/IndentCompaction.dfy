/**
 Indentation compaction of a body: strip the common leading whitespace, then turn
 uniform runs of leading spaces into tabs.
 */
module IndentCompaction {
  import opened Prelude

  predicate IsIndent(c: char) { c == ' ' || c == '\t' }

  /** The first non-indent character. */
  function IndentEnd(s: string): (n: nat)
    ensures n <= |s|
  {
    if s != "" && IsIndent(s[0]) then 1 + IndentEnd(s[1..]) else 0
  }

  function LeadingWs(s: string): string { s[..IndentEnd(s)] }

  lemma {:induction false} IndentEndIs(s: string)
    ensures forall k :: 0 <= k < IndentEnd(s) ==> IsIndent(s[k])
    ensures IndentEnd(s) < |s| ==> !IsIndent(s[IndentEnd(s)])
  {
    if s != "" && IsIndent(s[0]) {
      IndentEndIs(s[1..]);
      forall k | 0 <= k < IndentEnd(s) ensures IsIndent(s[k]) {
        if k > 0 { assert s[k] == s[1..][k - 1]; }
      }
    }
  }

  lemma IndentEndUnique(s: string, n: nat)
    requires n <= |s| && (forall k :: 0 <= k < n ==> IsIndent(s[k])) && (n < |s| ==> !IsIndent(s[n]))
    ensures IndentEnd(s) == n
  {
    IndentEndIs(s);
  }

  /** `trim().is_empty()` */
  predicate Blank(s: string) { forall k :: 0 <= k < |s| ==> IsSpace(s[k]) }

  // ---- the common prefix ----

  ghost predicate CommonIndent(lines: seq<string>, p: string) {
    forall k :: 0 <= k < |lines| && !Blank(lines[k]) ==> p <= LeadingWs(lines[k])
  }

  ghost predicate HasText(lines: seq<string>) {
    exists k :: 0 <= k < |lines| && !Blank(lines[k])
  }

  /** The longest leading whitespace that all non-blank lines share. */
  ghost predicate LongestCommonIndent(lines: seq<string>, p: string) {
    && CommonIndent(lines, p)
    && (forall q :: HasText(lines) && CommonIndent(lines, q) ==> q <= p)
    && (!HasText(lines) ==> p == "")
  }

  function CommonPrefix(a: string, b: string): string {
    if a != "" && b != "" && a[0] == b[0] then [a[0]] + CommonPrefix(a[1..], b[1..]) else ""
  }

  lemma {:induction false} CommonPrefixIs(a: string, b: string)
    ensures CommonPrefix(a, b) <= a && CommonPrefix(a, b) <= b
  {
    if a != "" && b != "" && a[0] == b[0] {
      CommonPrefixIs(a[1..], b[1..]);
    }
  }

  lemma {:induction false} CommonPrefixLongest(a: string, b: string, q: string)
    requires q <= a && q <= b
    ensures q <= CommonPrefix(a, b)
  {
    if q != "" {
      assert q[1..] <= a[1..] && q[1..] <= b[1..];
      CommonPrefixLongest(a[1..], b[1..], q[1..]);
      assert q == [q[0]] + q[1..];
    }
  }

  lemma PrefixTransitive(a: string, b: string, c: string)
    requires a <= b && b <= c
    ensures a <= c
  {
  }

  /** One more line. */
  lemma LongestSnoc(lines: seq<string>, p: string, line: string, r: string)
    requires LongestCommonIndent(lines, p)
    requires r == if Blank(line) then p else if HasText(lines) then CommonPrefix(p,
      LeadingWs(line)) else LeadingWs(line)
    ensures LongestCommonIndent(lines + [line], r)
  {
    var more := lines + [line];
    assert more[|lines|] == line;
    forall k | 0 <= k < |lines| ensures more[k] == lines[k] {}
    assert HasText(more) <==> HasText(lines) || !Blank(line) by {
      if HasText(lines) {
        var k :| 0 <= k < |lines| && !Blank(lines[k]);
        assert !Blank(more[k]);
      }
    }
    CommonPrefixIs(p, LeadingWs(line));
    forall k | 0 <= k < |more| && !Blank(more[k]) ensures r <= LeadingWs(more[k]) {
      if k < |lines| && !Blank(line) { PrefixTransitive(r, p, LeadingWs(more[k])); }
    }
    forall q | HasText(more) && CommonIndent(more, q) ensures q <= r {
      LongerCommon(lines, line, q);
      if !Blank(line) && HasText(lines) {
        CommonPrefixLongest(p, LeadingWs(line), q);
      }
    }
  }

  lemma LongerCommon(lines: seq<string>, line: string, q: string)
    requires CommonIndent(lines + [line], q)
    ensures CommonIndent(lines, q) && (!Blank(line) ==> q <= LeadingWs(line))
  {
    var more := lines + [line];
    assert more[|lines|] == line;
    forall k | 0 <= k < |lines| && !Blank(lines[k]) ensures q <= LeadingWs(lines[k]) {
      assert more[k] == lines[k];
    }
  }

  /** Nothing shared stays nothing shared. */
  lemma EmptyIsLongest(lines: seq<string>, k: nat)
    requires k <= |lines| && HasText(lines[..k]) && LongestCommonIndent(lines[..k], "")
    ensures LongestCommonIndent(lines, "")
  {
    var j :| 0 <= j < k && !Blank(lines[..k][j]);
    assert !Blank(lines[j]);
    forall q | CommonIndent(lines, q) ensures q <= "" {
      assert CommonIndent(lines[..k], q);
    }
  }

  method LongestCommonLeadingWs(lines: seq<string>) returns (prefix: string)
    ensures LongestCommonIndent(lines, prefix)
  {
    prefix := "";
    var found := false;
    for k := 0 to |lines|
      invariant found == HasText(lines[..k])
      invariant LongestCommonIndent(lines[..k], prefix)
    {
      var line := lines[k];
      assert lines[..k + 1] == lines[..k] + [line];
      if !Blank(line) {
        var next := if found then CommonPrefix(prefix, LeadingWs(line)) else LeadingWs(line);
        LongestSnoc(lines[..k], prefix, line, next);
        assert !Blank(lines[..k + 1][k]);
        prefix := next;
        if found && prefix == "" {
          EmptyIsLongest(lines, k + 1);
          return;
        }
        found := true;
      } else {
        LongestSnoc(lines[..k], prefix, line, prefix);
        HasTextSkips(lines, k);
      }
    }
    assert lines[..|lines|] == lines;
  }

  lemma HasTextSkips(lines: seq<string>, k: nat)
    requires k < |lines| && Blank(lines[k])
    ensures HasText(lines[..k + 1]) == HasText(lines[..k])
  {
    if HasText(lines[..k]) {
      var j :| 0 <= j < k && !Blank(lines[..k][j]);
      assert !Blank(lines[..k + 1][j]);
    }
    if HasText(lines[..k + 1]) {
      var j :| 0 <= j < k + 1 && !Blank(lines[..k + 1][j]);
      assert !Blank(lines[..k][j]);
    }
  }

  // ---- the unit ----

  predicate AllAre(s: string, c: char) { forall k :: 0 <= k < |s| ==> s[k] == c }

  /** Lines whose indentation says something. */
  predicate Indented(line: string) { !Blank(line) && LeadingWs(line) != "" }

  ghost predicate SomeIndented(lines: seq<string>) {
    exists k :: 0 <= k < |lines| && Indented(lines[k])
  }

  ghost predicate AllTabs(lines: seq<string>) {
    forall k :: 0 <= k < |lines| && Indented(lines[k]) ==> AllAre(LeadingWs(lines[k]), '\t')
  }

  ghost predicate AllSpacesBy(lines: seq<string>, width: nat)
    requires width > 0
  {
    forall k :: 0 <= k < |lines| && Indented(lines[k]) ==>
      AllAre(LeadingWs(lines[k]), ' ') && |LeadingWs(lines[k])| % width == 0
  }

  predicate TabIndented(line: string) { Indented(line) && AllAre(LeadingWs(line), '\t') }

  predicate SpaceIndented(line: string) { Indented(line) && AllAre(LeadingWs(line), ' ') }

  ghost predicate SpaceWidth(lines: seq<string>, n: nat) {
    exists k :: 0 <= k < |lines| && SpaceIndented(lines[k]) && |LeadingWs(lines[k])| == n
  }

  ghost predicate SomeTabbed(lines: seq<string>) {
    exists k :: 0 <= k < |lines| && TabIndented(lines[k])
  }

  /** What the loop has seen. */
  ghost predicate Scanned(lines: seq<string>, hasTabOnly: bool, widths: seq<nat>) {
    && (forall k :: 0 <= k < |lines| && Indented(lines[k]) ==> TabIndented(lines[k]) || SpaceIndented(lines[k]))
    && (hasTabOnly <==> SomeTabbed(lines))
    && (forall n :: n in widths <==> SpaceWidth(lines, n))
  }

  lemma SpaceWidthSnoc(lines: seq<string>, line: string, n: nat)
    ensures SpaceWidth(lines + [line], n) <==> SpaceWidth(lines, n) || (SpaceIndented(line) && |LeadingWs(line)| == n)
  {
    var more := lines + [line];
    assert more[|lines|] == line;
    if SpaceWidth(lines, n) {
      var k :| 0 <= k < |lines| && SpaceIndented(lines[k]) && |LeadingWs(lines[k])| == n;
      assert more[k] == lines[k];
    }
    if SpaceWidth(more, n) {
      var k :| 0 <= k < |more| && SpaceIndented(more[k]) && |LeadingWs(more[k])| == n;
      assert k < |lines| ==> more[k] == lines[k];
    }
  }

  lemma SomeTabbedSnoc(lines: seq<string>, line: string)
    ensures SomeTabbed(lines + [line]) <==> SomeTabbed(lines) || TabIndented(line)
  {
    var more := lines + [line];
    assert more[|lines|] == line;
    if SomeTabbed(lines) {
      var k :| 0 <= k < |lines| && TabIndented(lines[k]);
      assert more[k] == lines[k];
    }
  }

  lemma NotBoth(line: string)
    ensures !(TabIndented(line) && SpaceIndented(line))
  {
    if TabIndented(line) {
      assert LeadingWs(line)[0] == '\t';
    }
  }

  lemma ScannedSnoc(lines: seq<string>, hasTabOnly: bool, widths: seq<nat>, line: string)
    requires Scanned(lines, hasTabOnly, widths) && (Indented(line) ==> TabIndented(line) || SpaceIndented(line))
    ensures Scanned(lines + [line], hasTabOnly || TabIndented(line),
      if SpaceIndented(line) then widths + [|LeadingWs(line)|] else widths)
  {
    var more := lines + [line];
    SomeTabbedSnoc(lines, line);
    forall n ensures SpaceWidth(more, n) <==> SpaceWidth(lines, n) || (SpaceIndented(line) && |LeadingWs(line)| == n) {
      SpaceWidthSnoc(lines, line, n);
    }
    forall k | 0 <= k < |more| && Indented(more[k]) ensures TabIndented(more[k]) || SpaceIndented(more[k]) {
      assert k < |lines| ==> more[k] == lines[k];
    }
  }

  predicate AllMultiples(widths: seq<nat>, width: nat)
    requires width > 0
  {
    forall k :: 0 <= k < |widths| ==> widths[k] % width == 0
  }

  /** The unit for a set of lines: tabs as they are, four spaces, two spaces, or nothing uniform. */
  ghost predicate IsUnit(lines: seq<string>, unit: Option<nat>) {
    && (unit.None? <==> SomeIndented(lines) && AllTabs(lines))
    && (unit == Some(4) <==> SomeIndented(lines) && AllSpacesBy(lines, 4))
    && (unit == Some(2) <==> SomeIndented(lines) && AllSpacesBy(lines, 2) && !AllSpacesBy(lines, 4))
    && (unit.Some? ==> unit.value in {0, 2, 4})
  }

  lemma MixedHasNoUnit(lines: seq<string>, k: nat)
    requires k < |lines| && Indented(lines[k]) && !TabIndented(lines[k]) && !SpaceIndented(lines[k])
    ensures IsUnit(lines, Some(0))
  {
  }

  lemma MultiplesIff(lines: seq<string>, widths: seq<nat>, width: nat)
    requires width > 0 && Scanned(lines, false, widths)
    ensures AllMultiples(widths, width) <==> AllSpacesBy(lines, width)
  {
    if AllSpacesBy(lines, width) {
      forall j | 0 <= j < |widths| ensures widths[j] % width == 0 {
        assert widths[j] in widths && SpaceWidth(lines, widths[j]);
      }
    }
    if AllMultiples(widths, width) {
      forall k | 0 <= k < |lines| && Indented(lines[k])
        ensures AllAre(LeadingWs(lines[k]), ' ') && |LeadingWs(lines[k])| % width == 0
      {
        assert SpaceIndented(lines[k]) by {
          if TabIndented(lines[k]) { assert SomeTabbed(lines); }
        }
        assert SpaceWidth(lines, |LeadingWs(lines[k])|);
      }
    }
  }

  /** Reading the unit off what the loop has seen. */
  lemma UnitOfScan(lines: seq<string>, hasTabOnly: bool, widths: seq<nat>)
    requires Scanned(lines, hasTabOnly, widths)
    ensures SomeIndented(lines) <==> hasTabOnly || widths != []
    ensures SomeIndented(lines) ==> (AllTabs(lines) <==> widths == [])
    ensures hasTabOnly ==> !AllSpacesBy(lines, 2) && !AllSpacesBy(lines, 4)
  {
    if widths != [] {
      assert SpaceWidth(lines, widths[0]);
      var k :| 0 <= k < |lines| && SpaceIndented(lines[k]) && |LeadingWs(lines[k])| == widths[0];
      NotBoth(lines[k]);
    }
    if hasTabOnly {
      var k :| 0 <= k < |lines| && TabIndented(lines[k]);
      NotBoth(lines[k]);
    }
    forall k | 0 <= k < |lines| && Indented(lines[k]) && !TabIndented(lines[k]) ensures widths != [] {
      assert SpaceWidth(lines, |LeadingWs(lines[k])|);
    }
  }

  method DetectIndentUnit(lines: seq<string>) returns (unit: Option<nat>)
    ensures IsUnit(lines, unit)
  {
    var hasTabOnly := false;
    var widths: seq<nat> := [];
    for k := 0 to |lines|
      invariant Scanned(lines[..k], hasTabOnly, widths)
    {
      var line := lines[k];
      assert lines[..k + 1] == lines[..k] + [line];
      var lw := LeadingWs(line);
      if !Blank(line) && lw != "" {
        var hasTab := exists j :: 0 <= j < |lw| && lw[j] == '\t';
        var hasSpace := exists j :: 0 <= j < |lw| && lw[j] == ' ';
        IndentEndIs(line);
        assert hasTab <==> !AllAre(lw, ' ');
        assert hasSpace <==> !AllAre(lw, '\t');
        if hasTab && hasSpace {
          MixedHasNoUnit(lines, k);
          return Some(0);
        }
        ScannedSnoc(lines[..k], hasTabOnly, widths, line);
        NotBoth(line);
        if hasTab {
          hasTabOnly := true;
        } else {
          widths := widths + [|lw|];
        }
      } else {
        ScannedSnoc(lines[..k], hasTabOnly, widths, line);
      }
    }
    assert lines[..|lines|] == lines;
    unit := UnitFor(lines, hasTabOnly, widths);
  }

  method UnitFor(ghost lines: seq<string>, hasTabOnly: bool, widths: seq<nat>) returns (unit: Option<nat>)
    requires Scanned(lines, hasTabOnly, widths)
    ensures IsUnit(lines, unit)
  {
    UnitOfScan(lines, hasTabOnly, widths);
    if hasTabOnly {
      return if widths == [] then None else Some(0);
    }
    MultiplesIff(lines, widths, 4);
    MultiplesIff(lines, widths, 2);
    if widths == [] {
      return Some(0);
    }
    if AllMultiples(widths, 4) {
      return Some(4);
    }
    unit := if AllMultiples(widths, 2) then Some(2) else Some(0);
  }
}
