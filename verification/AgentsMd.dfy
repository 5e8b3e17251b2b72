/**
 The managed section of AGENTS.md: found by its markers, replaced in place or
 appended. The section's own text is a parameter; the markers are the program's.
 */
module AgentsMd {
  import opened Prelude

  /** The two markers, and the text between and including them. */
  datatype Managed = Managed(begin: string, end: string, section: string)

  const BEGIN := "<!-- standardoc:begin"
  const END := "<!-- standardoc:end -->"

  // ---- substring search ----

  predicate OccursAt(s: string, m: string, i: int) {
    0 <= i && i + |m| <= |s| && s[i..i + |m|] == m
  }

  /** `s[i..].find(m)`, as a position in `s`. */
  function FindFrom(s: string, m: string, i: nat): (r: Option<nat>)
    requires i <= |s|
    ensures r.Some? ==> i <= r.value <= |s|
    decreases |s| - i
  {
    if OccursAt(s, m, i) then Some(i)
    else if i == |s| then None
    else FindFrom(s, m, i + 1)
  }

  lemma {:induction false} FindIsFirst(s: string, m: string, i: nat)
    requires i <= |s|
    ensures FindFrom(s, m, i).None? <==> forall j :: i <= j ==> !OccursAt(s, m, j)
    ensures FindFrom(s, m, i).Some? ==> i <= FindFrom(s, m, i).value && OccursAt(s, m, FindFrom(s, m, i).value)
    ensures FindFrom(s, m, i).Some? ==> forall j :: i <= j < FindFrom(s, m, i).value ==> !OccursAt(s, m, j)
    decreases |s| - i
  {
    if !OccursAt(s, m, i) && i < |s| {
      FindIsFirst(s, m, i + 1);
    }
  }

  lemma FindIs(s: string, m: string, i: nat, at: nat)
    requires i <= at <= |s| && OccursAt(s, m, at) && forall j :: i <= j < at ==> !OccursAt(s, m, j)
    ensures FindFrom(s, m, i) == Some(at)
  {
    FindIsFirst(s, m, i);
  }

  // ---- the merge ----

  datatype Span = Span(start: nat, end: nat)

  function MarkerSpan(g: Managed, s: string): (r: Option<Span>)
    ensures r.Some? ==> r.value.start <= r.value.end <= |s|
  {
    var start := FindFrom(s, g.begin, 0);
    if start.None? then None else
    FindIsFirst(s, g.begin, 0);
    var end := FindFrom(s, g.end, start.value);
    if end.None? then None else
    FindIsFirst(s, g.end, start.value);
    Some(Span(start.value, end.value + |g.end|))
  }

  function Normalize(s: string): string { ReplacePair(s, '\r', '\n', '\n') }

  datatype Outcome = NoOp | Written(text: string)

  function Separator(existing: string): string {
    var n := |existing|;
    if n == 0 || (n >= 2 && existing[n - 2] == '\n' && existing[n - 1] == '\n') then ""
    else if existing[n - 1] == '\n' then "\n"
    else "\n\n"
  }

  function Merge(raw: Option<string>, g: Managed): Outcome {
    if raw.None? then Written(g.section + "\n") else
    var existing := raw.value;
    var span := MarkerSpan(g, existing);
    if span.None? then Written(existing + Separator(existing) + g.section + "\n")
    else if Normalize(existing[span.value.start..span.value.end]) == Normalize(g.section) then NoOp
    else Written(existing[..span.value.start] + g.section + existing[span.value.end..])
  }

  /** A marker starts with the only `<` it has, and is on one line. */
  ghost predicate IsMarker(m: string) {
    && m != "" && m[0] == '<'
    && (forall k :: 0 < k < |m| ==> m[k] != '<')
    && (forall k :: 0 <= k < |m| ==> m[k] != '\n')
  }

  ghost predicate GoodMarkers(begin: string, end: string) {
    IsMarker(begin) && IsMarker(end) && exists k :: 0 <= k < |begin| && k < |end| && begin[k] != end[k]
  }

  /** What the managed text promises: one begin marker, at its start, and one end marker, at its end. */
  ghost predicate IsManaged(g: Managed) {
    && GoodMarkers(g.begin, g.end)
    && |g.section| >= |g.begin| + |g.end|
    && (forall i :: OccursAt(g.section, g.begin, i) <==> i == 0)
    && (forall i :: OccursAt(g.section, g.end, i) <==> i == |g.section| - |g.end|)
  }

  /** The program's own markers are such markers. */
  lemma StandardMarkers()
    ensures GoodMarkers(BEGIN, END)
  {
    assert BEGIN[16] != END[16];
  }

  /** Two such markers one after the other are a managed text already. */
  lemma MarkersAreManaged(begin: string, end: string)
    requires GoodMarkers(begin, end)
    ensures IsManaged(Managed(begin, end, begin + end))
  {
    var s := begin + end;
    forall i ensures OccursAt(s, begin, i) <==> i == 0 {
      if OccursAt(s, begin, i) && i != 0 { SecondMarker(begin, end, begin, i); }
    }
    forall i ensures OccursAt(s, end, i) <==> i == |begin| {
      if OccursAt(s, end, i) && i != |begin| { SecondMarker(begin, end, end, i); }
    }
  }

  /** A marker occurs only where a `<` is. */
  lemma SecondMarker(begin: string, end: string, m: string, i: nat)
    requires GoodMarkers(begin, end) && (m == begin || m == end) && OccursAt(begin + end, m, i)
    ensures (i == 0 && m == begin) || (i == |begin| && m == end)
  {
    var s := begin + end;
    OccursChar(s, m, i, 0);
    assert i == 0 || i == |begin|;
    var k :| 0 <= k < |begin| && k < |end| && begin[k] != end[k];
    OccursChar(s, m, i, k);
    assert s[k] == begin[k] && s[|begin| + k] == end[k];
  }

  // ---- a marker cannot straddle the start of another, nor a line end ----

  predicate Breaks(rest: string) { rest != "" && (rest[0] == '<' || rest[0] == '\n') }

  lemma OccursChar(s: string, m: string, j: nat, k: nat)
    requires OccursAt(s, m, j) && k < |m|
    ensures s[j + k] == m[k]
  {
    assert s[j..j + |m|][k] == s[j + k];
  }

  lemma NoStraddle(pre: string, rest: string, m: string, j: nat)
    requires IsMarker(m) && Breaks(rest) && j < |pre| && OccursAt(pre + rest, m, j)
    ensures OccursAt(pre, m, j)
  {
    if j + |m| > |pre| {
      OccursChar(pre + rest, m, j, |pre| - j);
    } else {
      OccursInside(pre, rest, m, j);
    }
  }

  lemma OccursInside(pre: string, rest: string, m: string, j: nat)
    requires j + |m| <= |pre|
    ensures OccursAt(pre + rest, m, j) <==> OccursAt(pre, m, j)
  {
    assert (pre + rest)[j..j + |m|] == pre[j..j + |m|];
  }

  lemma OccursShift(pre: string, rest: string, m: string, i: nat)
    ensures OccursAt(pre + rest, m, |pre| + i) <==> OccursAt(rest, m, i)
  {
    if i + |m| <= |rest| {
      assert (pre + rest)[|pre| + i..|pre| + i + |m|] == rest[i..i + |m|];
    }
  }

  /** In `pre + section + post`, no end marker lies between the section's start and its own. */
  lemma EndInSection(pre: string, g: Managed, post: string, j: nat)
    requires IsManaged(g) && |pre| <= j < |pre| + |g.section| - |g.end|
    ensures !OccursAt(pre + (g.section + post), g.end, j)
  {
    OccursShift(pre, g.section + post, g.end, j - |pre|);
    OccursInside(g.section, post, g.end, j - |pre|);
  }

  lemma SectionOccurs(pre: string, g: Managed, post: string)
    requires IsManaged(g)
    ensures OccursAt(pre + (g.section + post), g.begin, |pre|)
    ensures OccursAt(pre + (g.section + post), g.end, |pre| + |g.section| - |g.end|)
    ensures g.section[0] == '<'
  {
    OccursShift(pre, g.section + post, g.begin, 0);
    OccursInside(g.section, post, g.begin, 0);
    OccursShift(pre, g.section + post, g.end, |g.section| - |g.end|);
    OccursInside(g.section, post, g.end, |g.section| - |g.end|);
    OccursChar(g.section, g.begin, 0, 0);
  }

  /** What a span is: the first begin marker, and the first end marker from there on. */
  lemma SpanIs(g: Managed, s: string, span: Span)
    requires MarkerSpan(g, s) == Some(span)
    ensures OccursAt(s, g.begin, span.start) && OccursAt(s, g.end, span.end - |g.end|)
    ensures span.start <= span.end - |g.end|
    ensures forall j :: 0 <= j < span.start ==> !OccursAt(s, g.begin, j)
  {
    FindIsFirst(s, g.begin, 0);
    FindIsFirst(s, g.end, span.start);
  }

  lemma NoBeginBefore(pre: string, g: Managed, post: string, j: nat)
    requires IsManaged(g) && j < |pre| && !OccursAt(pre, g.begin, j) && g.section[0] == '<'
    ensures !OccursAt(pre + (g.section + post), g.begin, j)
  {
    if OccursAt(pre + (g.section + post), g.begin, j) {
      NoStraddle(pre, g.section + post, g.begin, j);
    }
  }

  lemma BeginOfSection(pre: string, g: Managed, post: string)
    requires IsManaged(g) && forall j :: !OccursAt(pre, g.begin, j)
    ensures FindFrom(pre + (g.section + post), g.begin, 0) == Some(|pre|)
  {
    SectionOccurs(pre, g, post);
    forall j | 0 <= j < |pre| ensures !OccursAt(pre + (g.section + post), g.begin, j) {
      NoBeginBefore(pre, g, post, j);
    }
    FindIs(pre + (g.section + post), g.begin, 0, |pre|);
  }

  lemma {:induction false} EndOfSection(pre: string, g: Managed, post: string)
    requires IsManaged(g)
    ensures FindFrom(pre + (g.section + post), g.end, |pre|) == Some(|pre| + |g.section| - |g.end|)
  {
    SectionOccurs(pre, g, post);
    forall j | |pre| <= j < |pre| + |g.section| - |g.end| ensures !OccursAt(pre + (g.section + post), g.end, j) {
      EndInSection(pre, g, post, j);
    }
    FindIs(pre + (g.section + post), g.end, |pre|, |pre| + |g.section| - |g.end|);
  }

  /** Where no begin marker precedes it, the section is what the markers delimit. */
  lemma SpanOfSection(pre: string, g: Managed, post: string)
    requires IsManaged(g) && forall j :: !OccursAt(pre, g.begin, j)
    ensures MarkerSpan(g, pre + g.section + post) == Some(Span(|pre|, |pre| + |g.section|))
    ensures Merge(Some(pre + g.section + post), g) == NoOp
  {
    var text := pre + g.section + post;
    assert text == pre + (g.section + post);
    BeginOfSection(pre, g, post);
    EndOfSection(pre, g, post);
    assert text[|pre|..|pre| + |g.section|] == g.section;
  }

  // ---- texts without an unclosed begin marker ----

  /** A begin marker with no end marker after it. */
  predicate Unclosed(g: Managed, text: string) {
    var start := FindFrom(text, g.begin, 0);
    start.Some? && FindFrom(text, g.end, start.value).None?
  }

  /** The separator leaves one blank line, and adds no more than that takes. */
  lemma SeparatorIsBlankLine(existing: string)
    ensures var sep := Separator(existing);
      && (forall k :: 0 <= k < |sep| ==> sep[k] == '\n') && |sep| <= 2
      && (existing != "" ==> |existing + sep| >= 2 && (existing + sep)[|existing + sep| - 2..] == "\n\n")
  {
  }

  lemma NoMarkerInSeparator(existing: string, m: string, j: nat)
    requires IsMarker(m) && OccursAt(existing + Separator(existing), m, j)
    ensures OccursAt(existing, m, j)
  {
    var sep := Separator(existing);
    SeparatorIsBlankLine(existing);
    OccursChar(existing + sep, m, j, 0);
    if sep == "" {
      assert existing + sep == existing;
    } else if j < |existing| {
      NoStraddle(existing, sep, m, j);
    }
  }

  lemma NoMarkerInPrefix(s: string, m: string, n: nat)
    requires n <= |s| && m != "" && forall j :: 0 <= j < n ==> !OccursAt(s, m, j)
    ensures forall j :: !OccursAt(s[..n], m, j)
  {
    forall j ensures !OccursAt(s[..n], m, j) {
      if 0 <= j && j + |m| <= n {
        assert s == s[..n] + s[n..];
        OccursInside(s[..n], s[n..], m, j);
      }
    }
  }

  lemma ReplaceSettles(existing: string, g: Managed)
    requires IsManaged(g) && MarkerSpan(g, existing).Some? && Merge(Some(existing), g).Written?
    ensures Merge(Some(Merge(Some(existing), g).text), g) == NoOp
  {
    var span := MarkerSpan(g, existing).value;
    SpanIs(g, existing, span);
    NoMarkerInPrefix(existing, g.begin, span.start);
    SpanOfSection(existing[..span.start], g, existing[span.end..]);
  }

  lemma AppendSettles(existing: string, g: Managed)
    requires IsManaged(g) && FindFrom(existing, g.begin, 0).None?
    ensures Merge(Some(existing), g).Written?
    ensures Merge(Some(Merge(Some(existing), g).text), g) == NoOp
  {
    var pre := existing + Separator(existing);
    FindIsFirst(existing, g.begin, 0);
    forall j | OccursAt(pre, g.begin, j) ensures false {
      NoMarkerInSeparator(existing, g.begin, j);
    }
    SpanOfSection(pre, g, "\n");
  }

  // ---- texts with one ----

  lemma {:induction false} NormalizeAppend(x: string, rest: string)
    requires rest != "" && rest[0] != '\n'
    ensures Normalize(x + rest) == Normalize(x) + Normalize(rest)
    ensures x != "" ==> Normalize(x) != ""
  {
    if x == "" {
      assert x + rest == rest;
    } else if |x| >= 2 && x[0] == '\r' && x[1] == '\n' {
      assert (x + rest)[2..] == x[2..] + rest;
      NormalizeAppend(x[2..], rest);
      Associates("\n", Normalize(x[2..]), Normalize(rest));
    } else {
      assert (x + rest)[1..] == x[1..] + rest;
      NormalizeAppend(x[1..], rest);
      Associates([x[0]], Normalize(x[1..]), Normalize(rest));
    }
  }

  /** No end marker between an unclosed begin marker and the end of the appended section. */
  lemma EndAfterUnclosed(existing: string, g: Managed, start: nat, j: nat)
    requires IsManaged(g) && start <= |existing| && FindFrom(existing, g.end, start).None?
    requires start <= j < |existing + Separator(existing)| + |g.section| - |g.end|
    ensures !OccursAt(existing + Separator(existing) + (g.section + "\n"), g.end, j)
  {
    var pre := existing + Separator(existing);
    if j >= |pre| {
      EndInSection(pre, g, "\n", j);
    } else if OccursAt(pre + (g.section + "\n"), g.end, j) {
      SectionOccurs(pre, g, "\n");
      NoStraddle(pre, g.section + "\n", g.end, j);
      NoMarkerInSeparator(existing, g.end, j);
      FindIsFirst(existing, g.end, start);
    }
  }

  lemma BeginStaysFirst(g: Managed, existing: string, rest: string)
    requires FindFrom(existing, g.begin, 0).Some?
    ensures FindFrom(existing + rest, g.begin, 0) == FindFrom(existing, g.begin, 0)
  {
    var start := FindFrom(existing, g.begin, 0).value;
    FindIsFirst(existing, g.begin, 0);
    forall j | 0 <= j <= start ensures OccursAt(existing + rest, g.begin, j) <==> OccursAt(existing, g.begin, j) {
      OccursInside(existing, rest, g.begin, j);
    }
    FindIs(existing + rest, g.begin, 0, start);
  }

  lemma EndIsTheSections(existing: string, g: Managed, start: nat)
    requires IsManaged(g) && start <= |existing| && FindFrom(existing, g.end, start).None?
    ensures var pre := existing + Separator(existing);
      FindFrom(pre + (g.section + "\n"), g.end, start) == Some(|pre| + |g.section| - |g.end|)
  {
    var pre := existing + Separator(existing);
    var text := pre + (g.section + "\n");
    SectionOccurs(pre, g, "\n");
    forall j | start <= j < |pre| + |g.section| - |g.end| ensures !OccursAt(text, g.end, j) {
      EndAfterUnclosed(existing, g, start, j);
    }
    FindIs(text, g.end, start, |pre| + |g.section| - |g.end|);
  }

  lemma SpanAfterUnclosed(existing: string, g: Managed)
    requires IsManaged(g) && Unclosed(g, existing)
    ensures var pre := existing + Separator(existing);
      MarkerSpan(g, pre + (g.section + "\n")) == Some(Span(FindFrom(existing, g.begin, 0).value, |pre| + |g.section|))
  {
    var sep := Separator(existing);
    assert existing + sep + (g.section + "\n") == existing + (sep + (g.section + "\n"));
    BeginStaysFirst(g, existing, sep + (g.section + "\n"));
    EndIsTheSections(existing, g, FindFrom(existing, g.begin, 0).value);
  }

  /** A block that is not the section is replaced by it. */
  lemma ReplacesBlock(g: Managed, pre: string, block: string, post: string)
    requires MarkerSpan(g, pre + block + post) == Some(Span(|pre|, |pre| + |block|))
    requires Normalize(block) != Normalize(g.section)
    ensures Merge(Some(pre + block + post), g) == Written(pre + g.section + post)
  {
    var text := pre + block + post;
    assert text[|pre|..|pre| + |block|] == block;
    assert text[..|pre|] == pre && text[|pre| + |block|..] == post;
  }

  /** The second merge takes everything from the unclosed marker on for the managed block and drops it. */
  lemma {:induction false} UnclosedLosesText(existing: string, g: Managed)
    requires IsManaged(g) && Unclosed(g, existing)
    ensures var first := Merge(Some(existing), g);
      && first == Written(existing + Separator(existing) + g.section + "\n")
      && Merge(Some(first.text), g) == Written(existing[..FindFrom(existing, g.begin, 0).value] + g.section + "\n")
  {
    var pre, start := existing + Separator(existing), FindFrom(existing, g.begin, 0).value;
    SpanAfterUnclosed(existing, g);
    LongerBlock(existing, g, start);
    var kept, x := existing[..start], pre[start..];
    assert pre + g.section + "\n" == pre + (g.section + "\n") == kept + (x + g.section) + "\n";
    ReplacesBlock(g, kept, x + g.section, "\n");
  }

  lemma LongerBlock(existing: string, g: Managed, start: nat)
    requires IsManaged(g) && FindFrom(existing, g.begin, 0) == Some(start)
    ensures start < |existing|
    ensures Normalize((existing + Separator(existing))[start..] + g.section) != Normalize(g.section)
  {
    FindIsFirst(existing, g.begin, 0);
    SectionOccurs("", g, "");
    NormalizeAppend((existing + Separator(existing))[start..], g.section);
  }

  // ---- convergence ----

  lemma AbsentSettles(g: Managed)
    requires IsManaged(g)
    ensures Merge(Some(g.section + "\n"), g) == NoOp
  {
    assert forall j :: !OccursAt("", g.begin, j);
    SpanOfSection("", g, "\n");
    assert "" + g.section + "\n" == g.section + "\n";
  }

  /** After a write the next merge is a no-op exactly when no begin marker was left unclosed. */
  lemma WriteSettlesIff(raw: Option<string>, g: Managed)
    requires IsManaged(g) && Merge(raw, g).Written?
    ensures Merge(Some(Merge(raw, g).text), g) == NoOp <==> raw.None? || !Unclosed(g, raw.value)
  {
    if raw.None? {
      AbsentSettles(g);
    } else if Unclosed(g, raw.value) {
      UnclosedLosesText(raw.value, g);
    } else if MarkerSpan(g, raw.value).Some? {
      ReplaceSettles(raw.value, g);
    } else {
      FindIsFirst(raw.value, g.begin, 0);
      AppendSettles(raw.value, g);
    }
  }

  function Next(raw: Option<string>, g: Managed): Option<string> {
    var r := Merge(raw, g);
    if r.Written? then Some(r.text) else raw
  }

  /** Whatever the text, the third merge does not write. */
  lemma AtMostTwoWrites(raw: Option<string>, g: Managed)
    requires IsManaged(g)
    ensures Merge(Next(Next(raw, g), g), g) == NoOp
  {
    var one := Next(raw, g);
    if Merge(raw, g).Written? {
      WriteSettlesIff(raw, g);
      if raw.Some? && Unclosed(g, raw.value) {
        UnclosedLosesText(raw.value, g);
        SpanAfterUnclosed(raw.value, g);
        var pre := raw.value + Separator(raw.value);
        assert pre + g.section + "\n" == pre + (g.section + "\n");
        ReplaceSettles(one.value, g);
      }
    }
  }

  /** A replacing write keeps everything outside the markers, and changes the block between them. */
  lemma ReplacePreserves(existing: string, g: Managed, span: Span)
    requires IsManaged(g) && MarkerSpan(g, existing) == Some(span) && Merge(Some(existing), g).Written?
    ensures var pre, block, post := existing[..span.start], existing[span.start..span.end], existing[span.end..];
      && existing == pre + block + post
      && Merge(Some(existing), g).text == pre + g.section + post
      && block != g.section
  {
  }

  /** What it replaces runs from a begin marker to an end marker. */
  lemma ReplacedIsMarked(existing: string, g: Managed, span: Span)
    requires IsManaged(g) && MarkerSpan(g, existing) == Some(span)
    ensures OccursAt(existing[span.start..span.end], g.begin, 0)
    ensures OccursAt(existing[span.start..span.end], g.end, span.end - |g.end| - span.start)
  {
    var e := SpanMarkers(g, existing, span);
    MarkedBlock(existing, span.start, e, g.begin, g.end);
  }

  lemma SpanMarkers(g: Managed, s: string, span: Span) returns (e: nat)
    requires IsManaged(g) && MarkerSpan(g, s) == Some(span)
    ensures span.end == e + |g.end| && OccursAt(s, g.begin, span.start) && OccursAt(s, g.end, e)
    ensures span.start + |g.begin| <= e
  {
    SpanIs(g, s, span);
    e := span.end - |g.end|;
    BeginBeforeEnd(g, s, span.start, e);
  }

  /** An appending write keeps the whole text; one blank line follows it, unless it already ended in more. */
  lemma AppendPreserves(existing: string, g: Managed)
    requires FindFrom(existing, g.begin, 0).None?
    ensures var pre := existing + Separator(existing);
      && Merge(Some(existing), g) == Written(pre + g.section + "\n")
      && (existing != "" ==> |pre| >= 2 && pre[|pre| - 2..] == "\n\n")
      && (EndsInThreeNewlines(pre) <==> EndsInThreeNewlines(existing))
  {
    SeparatorIsBlankLine(existing);
  }

  /** Two blank lines or more at the end. */
  predicate EndsInThreeNewlines(s: string) {
    |s| >= 3 && s[|s| - 1] == '\n' && s[|s| - 2] == '\n' && s[|s| - 3] == '\n'
  }

  lemma SliceOccurs(s: string, a: nat, b: nat, m: string, j: nat)
    requires a <= j && j + |m| <= b <= |s| && OccursAt(s, m, j)
    ensures OccursAt(s[a..b], m, j - a)
  {
    var x, y := s[a..b][j - a..j - a + |m|], s[j..j + |m|];
    forall k | 0 <= k < |m| ensures x[k] == y[k] {
    }
    assert x == y;
  }

  lemma MarkedBlock(s: string, start: nat, e: nat, begin: string, end: string)
    requires OccursAt(s, begin, start) && OccursAt(s, end, e) && start + |begin| <= e
    ensures OccursAt(s[start..e + |end|], begin, 0)
    ensures OccursAt(s[start..e + |end|], end, e - start)
  {
    SliceOccurs(s, start, e + |end|, begin, start);
    SliceOccurs(s, start, e + |end|, end, e);
  }

  /** An end marker found from a begin marker on starts after it. */
  lemma BeginBeforeEnd(g: Managed, s: string, start: nat, e: nat)
    requires IsManaged(g) && start <= e && OccursAt(s, g.begin, start) && OccursAt(s, g.end, e)
    ensures start + |g.begin| <= e
  {
    OccursChar(s, g.end, e, 0);
    var k :| 0 <= k < |g.begin| && k < |g.end| && g.begin[k] != g.end[k];
    OccursChar(s, g.end, e, k);
    if e == start {
      OccursChar(s, g.begin, e, k);
    } else if e < start + |g.begin| {
      OccursChar(s, g.begin, start, e - start);
    }
  }
}
