/** What compaction keeps: every non-blank line can be had back, and lines keep their relative depth. */
module IndentRoundTrip {
  import opened Prelude
  import opened IndentCompaction

  function Repeat(c: char, n: nat): string {
    if n == 0 then "" else [c] + Repeat(c, n - 1)
  }

  lemma {:induction false} RepeatIs(c: char, n: nat)
    ensures |Repeat(c, n)| == n && AllAre(Repeat(c, n), c)
  {
    if n > 0 {
      RepeatIs(c, n - 1);
    }
  }

  // ---- tabs for spaces ----

  function Tabbed(line: string, width: nat): string
    requires width > 0
  {
    if width <= |line| && AllAre(line[..width], ' ') then ['\t'] + Tabbed(line[width..], width) else line
  }

  method ConvertLeadingSpacesToTabs(line: string, width: nat) returns (out: string)
    requires width > 0
    ensures out == Tabbed(line, width)
  {
    var tabs, i := 0, 0;
    while i + width <= |line| && AllAre(line[i..i + width], ' ')
      invariant i <= |line| && (tabs == 0 ==> i == 0)
      invariant Tabbed(line, width) == Repeat('\t', tabs) + Tabbed(line[i..], width)
      decreases |line| - i
    {
      OneUnit(line, i, width, tabs);
      tabs := tabs + 1;
      i := i + width;
    }
    NoUnit(line, i, width);
    if tabs == 0 {
      assert line[0..] == line;
      return line;
    }
    out := PushTabs(tabs);
    out := out + line[i..];
  }

  /** A unit of spaces at `i` is one more tab. */
  lemma OneUnit(line: string, i: nat, width: nat, tabs: nat)
    requires width > 0 && i + width <= |line| && AllAre(line[i..i + width], ' ')
    ensures Repeat('\t', tabs) + Tabbed(line[i..], width) == Repeat('\t', tabs + 1) + Tabbed(line[i + width..], width)
  {
    assert line[i..][..width] == line[i..i + width];
    assert line[i..][width..] == line[i + width..];
    RepeatSnoc('\t', tabs);
  }

  lemma NoUnit(line: string, i: nat, width: nat)
    requires width > 0 && i <= |line| && (i + width <= |line| ==> !AllAre(line[i..i + width], ' '))
    ensures Tabbed(line[i..], width) == line[i..]
  {
    assert i + width <= |line| ==> line[i..][..width] == line[i..i + width];
  }

  method PushTabs(tabs: nat) returns (out: string)
    ensures out == Repeat('\t', tabs)
  {
    out := "";
    for k := 0 to tabs
      invariant out == Repeat('\t', k)
    {
      RepeatSnoc('\t', k);
      out := out + ['\t'];
    }
  }

  lemma {:induction false} RepeatSnoc(c: char, n: nat)
    ensures Repeat(c, n) + [c] == Repeat(c, n + 1)
  {
    if n > 0 {
      RepeatSnoc(c, n - 1);
    }
  }

  /** Undo: each leading tab stands for `width` spaces. */
  function Expanded(line: string, width: nat): string {
    if line != "" && line[0] == '\t' then Repeat(' ', width) + Expanded(line[1..], width) else line
  }

  /** A line indented by whole units of spaces. */
  ghost predicate ByUnits(line: string, width: nat)
    requires width > 0
  {
    AllAre(LeadingWs(line), ' ') && IndentEnd(line) % width == 0
  }

  lemma SpacesAre(s: string)
    requires AllAre(s, ' ')
    ensures s == Repeat(' ', |s|)
  {
    RepeatIs(' ', |s|);
  }

  /** Dropping one unit. */
  lemma DropUnit(line: string, width: nat)
    requires width > 0 && ByUnits(line, width) && IndentEnd(line) > 0
    ensures width <= IndentEnd(line) && AllAre(line[..width], ' ')
    ensures ByUnits(line[width..], width) && IndentEnd(line[width..]) == IndentEnd(line) - width
  {
    IndentEndIs(line);
    UnitFits(IndentEnd(line), width);
    var lw := LeadingWs(line);
    forall k | 0 <= k < IndentEnd(line) ensures line[k] == ' ' { assert lw[k] == line[k]; }
    IndentEndUnique(line[width..], IndentEnd(line) - width);
  }

  lemma UnitFits(n: nat, width: nat)
    requires width > 0 && n > 0 && n % width == 0
    ensures n >= width && (n - width) % width == 0 && (n - width) / width == n / width - 1
  {
    if n < width {
      DivUnique(n, width, 0, n);
    } else {
      var q := n / width;
      assert n - width == (q - 1) * width;
      DivUnique(n - width, width, q - 1, 0);
    }
  }

  lemma DivUnique(m: nat, width: nat, q: int, r: nat)
    requires width > 0 && m == q * width + r && r < width
    ensures m / width == q && m % width == r
  {
    var x := m / width - q;
    assert x * width == r - m % width;
    MulBeyond(x, width);
  }

  lemma MulBeyond(x: int, width: nat)
    ensures x >= 1 ==> x * width >= width
    ensures x <= -1 ==> x * width + width <= 0
  {
  }

  lemma NoSpacesNoTabs(line: string, width: nat)
    requires width > 0 && IndentEnd(line) == 0
    ensures Tabbed(line, width) == line && Expanded(line, width) == line
  {
    IndentEndIs(line);
    if width <= |line| {
      assert line[..width][0] == line[0];
    }
  }

  /** The number of units becomes the number of tabs, and expanding them gives the line back. */
  lemma {:induction false} TabbedUndone(line: string, width: nat)
    requires width > 0 && ByUnits(line, width)
    ensures Expanded(Tabbed(line, width), width) == line
    ensures IndentEnd(Tabbed(line, width)) == IndentEnd(line) / width
    decreases |line|
  {
    if IndentEnd(line) == 0 {
      NoSpacesNoTabs(line, width);
    } else {
      DropUnit(line, width);
      UnitFits(IndentEnd(line), width);
      var rest := line[width..];
      TabbedUndone(rest, width);
      assert (['\t'] + Tabbed(rest, width))[1..] == Tabbed(rest, width);
      SpacesAre(line[..width]);
      assert line == line[..width] + rest;
    }
  }

  // ---- whole bodies ----

  datatype CompactedBody = CompactedBody(body: string, dedentedPrefixLen: nat, indentUnit: string)

  const MAX_U32: nat := 0xFFFF_FFFF

  function JoinLines(lines: seq<string>): string {
    if lines == [] then "" else if |lines| == 1 then lines[0] else lines[0] + "\n" + JoinLines(lines[1..])
  }

  lemma {:induction false} SplitOneLine(line: string)
    requires '\n' !in line
    ensures SplitOn(line, '\n') == [line]
  {
    if line != "" {
      SplitOneLine(line[1..]);
      assert [line[0]] + line[1..] == line;
    }
  }

  lemma {:induction false} SplitFirstLine(line: string, rest: string)
    requires '\n' !in line
    ensures SplitOn(line + "\n" + rest, '\n') == [line] + SplitOn(rest, '\n')
  {
    if line == "" {
      assert (line + "\n" + rest)[1..] == rest;
    } else {
      assert (line + "\n" + rest)[1..] == line[1..] + "\n" + rest;
      SplitFirstLine(line[1..], rest);
      assert [line[0]] + line[1..] == line;
    }
  }

  /** The lines can be read back from the body. */
  lemma {:induction false} SplitJoin(lines: seq<string>)
    requires lines != [] && forall k :: 0 <= k < |lines| ==> '\n' !in lines[k]
    ensures SplitOn(JoinLines(lines), '\n') == lines
  {
    if |lines| == 1 {
      SplitOneLine(lines[0]);
    } else {
      SplitJoin(lines[1..]);
      SplitFirstLine(lines[0], JoinLines(lines[1..]));
    }
  }

  function Stripped(line: string, common: string): string {
    if common <= line then line[|common|..] else ""
  }

  lemma StrippedLine(line: string, common: string)
    requires common <= LeadingWs(line) && !Blank(line)
    ensures common + Stripped(line, common) == line && !Blank(Stripped(line, common))
    ensures IndentEnd(Stripped(line, common)) == IndentEnd(line) - |common|
  {
    var n := |common|;
    IndentEndIs(line);
    assert common == LeadingWs(line)[..n] == line[..n];
    TailIndent(line, n);
    TailNotBlank(line, n);
  }

  lemma TailIndent(line: string, n: nat)
    requires n <= IndentEnd(line)
    ensures IndentEnd(line[n..]) == IndentEnd(line) - n
  {
    var rest := line[n..];
    IndentEndIs(line);
    forall k | 0 <= k < IndentEnd(line) - n ensures IsIndent(rest[k]) { assert rest[k] == line[n + k]; }
    IndentEndUnique(rest, IndentEnd(line) - n);
  }

  lemma TailNotBlank(line: string, n: nat)
    requires n <= IndentEnd(line) && !Blank(line)
    ensures !Blank(line[n..])
  {
    IndentEndIs(line);
    forall k | 0 <= k < n ensures IsSpace(line[k]) { assert IsIndent(line[k]); }
    var k :| 0 <= k < |line| && !IsSpace(line[k]);
    assert line[n..][k - n] == line[k];
  }

  /** What came out for one line: tabs if a width was found, the stripped line otherwise. */
  function Shown(line: string, common: string, width: nat): string {
    if width > 0 then Tabbed(Stripped(line, common), width) else Stripped(line, common)
  }

  function Restored(shown: string, common: string, width: nat): string {
    common + (if width > 0 then Expanded(shown, width) else shown)
  }

  ghost predicate Fits(lines: seq<string>, common: string, width: nat) {
    && CommonIndent(lines, common)
    && (width > 0 ==> forall k :: 0 <= k < |lines| && !Blank(lines[k]) ==> ByUnits(Stripped(lines[k], common), width))
  }

  /** Nothing is lost on a non-blank line. */
  lemma LineRestored(lines: seq<string>, common: string, width: nat, k: nat)
    requires Fits(lines, common, width) && k < |lines| && !Blank(lines[k])
    ensures Restored(Shown(lines[k], common, width), common, width) == lines[k]
    ensures IndentEnd(Shown(lines[k], common, width)) ==
      (if width > 0 then (IndentEnd(lines[k]) - |common|) / width else IndentEnd(lines[k]) - |common|)
    ensures IndentEnd(lines[k]) >= |common| && (width > 0 ==> (IndentEnd(lines[k]) - |common|) % width == 0)
  {
    StrippedLine(lines[k], common);
    if width > 0 {
      TabbedUndone(Stripped(lines[k], common), width);
    }
  }

  lemma ExactOrder(a: nat, b: nat, width: nat)
    requires width > 0 && a % width == 0 && b % width == 0
    ensures a / width <= b / width <==> a <= b
  {
    assert a == a / width * width && b == b / width * width;
    if a / width <= b / width {
      assert a / width * width <= b / width * width;
    } else {
      assert (b / width + 1) * width <= a / width * width;
    }
  }

  /** Lines keep their relative depth. */
  lemma DepthOrderKept(lines: seq<string>, common: string, width: nat, j: nat, k: nat)
    requires Fits(lines, common, width) && j < |lines| && k < |lines| && !Blank(lines[j]) && !Blank(lines[k])
    ensures IndentEnd(Shown(lines[j], common, width)) <= IndentEnd(Shown(lines[k], common, width))
      <==> IndentEnd(lines[j]) <= IndentEnd(lines[k])
  {
    LineRestored(lines, common, width, j);
    LineRestored(lines, common, width, k);
    if width > 0 {
      ExactOrder(IndentEnd(lines[j]) - |common|, IndentEnd(lines[k]) - |common|, width);
    }
  }

  lemma UnitFitsLines(lines: seq<string>, stripped: seq<string>, common: string, width: nat)
    requires |stripped| == |lines| && forall k :: 0 <= k < |lines| ==> stripped[k] == Stripped(lines[k], common)
    requires CommonIndent(lines, common) && (width > 0 ==> AllSpacesBy(stripped, width))
    ensures Fits(lines, common, width)
  {
    if width > 0 {
      forall k | 0 <= k < |lines| && !Blank(lines[k]) ensures ByUnits(Stripped(lines[k], common), width) {
        StrippedLine(lines[k], common);
        assert stripped[k] == Stripped(lines[k], common);
        if LeadingWs(stripped[k]) != "" {
          assert Indented(stripped[k]);
        }
      }
    }
  }

  lemma NoNewLines(line: string, common: string, width: nat)
    requires '\n' !in line
    ensures '\n' !in Shown(line, common, width)
  {
    if width > 0 {
      TabbedMembers(Stripped(line, common), width);
    }
  }

  lemma {:induction false} TabbedMembers(line: string, width: nat)
    requires '\n' !in line && width > 0
    ensures '\n' !in Tabbed(line, width)
    decreases |line|
  {
    if width <= |line| && AllAre(line[..width], ' ') {
      TabbedMembers(line[width..], width);
    }
  }

  /** The lines a reader gets from the body. */
  function LinesOf(r: CompactedBody, lines: seq<string>): seq<string> {
    if lines == [] then [] else SplitOn(r.body, '\n')
  }

  ghost function StrippedLines(lines: seq<string>, common: string): seq<string> {
    seq(|lines|, k requires 0 <= k < |lines| => Stripped(lines[k], common))
  }

  /** The spaces a tab stands for: none when lines are left as they are. */
  function WidthOf(unit: Option<nat>): nat { if unit.Some? then unit.value else 0 }

  /**
   What the result stands for, given the prefix that was removed and the unit of what
   is left: tabs are announced exactly when the unit is tabs or whole spaces, every
   non-blank line can be had back from the body, and relative depth is kept.
   */
  ghost predicate Compacts(lines: seq<string>, r: CompactedBody, common: string, unit: Option<nat>) {
    var shown, width := LinesOf(r, lines), WidthOf(unit);
    && LongestCommonIndent(lines, common) && IsUnit(StrippedLines(lines, common), unit)
    && r.dedentedPrefixLen == (if |common| <= MAX_U32 then |common| else MAX_U32)
    && r.indentUnit == (if unit == Some(0) then "" else "\t")
    && (lines == [] ==> r.body == "")
    && |shown| == |lines|
    && (forall k :: 0 <= k < |lines| ==> shown[k] == Shown(lines[k], common, width))
    && (forall k :: 0 <= k < |lines| && !Blank(lines[k]) ==> Restored(shown[k], common, width) == lines[k])
    && (forall k :: 0 <= k < |lines| && Blank(lines[k]) && !(common <= lines[k]) ==> shown[k] == "")
    && (forall k :: 0 <= k < |lines| && Blank(lines[k]) && common <= lines[k] && width == 0 ==>
          common + shown[k] == lines[k])
    && (forall j, k :: 0 <= j < |lines| && 0 <= k < |lines| && !Blank(lines[j]) && !Blank(lines[k]) ==>
          (IndentEnd(shown[j]) <= IndentEnd(shown[k]) <==> IndentEnd(lines[j]) <= IndentEnd(lines[k])))
  }

  /** The whole pass: the longest common prefix is removed, and uniform spaces become tabs. */
  method CompactBodyIndent(lines: seq<string>) returns (r: CompactedBody)
    requires forall k :: 0 <= k < |lines| ==> '\n' !in lines[k]
    ensures exists common, unit :: Compacts(lines, r, common, unit)
  {
    if lines == [] {
      r := CompactedBody("", 0, "");
      assert Compacts(lines, r, "", Some(0));
      return;
    }
    var common := LongestCommonLeadingWs(lines);
    var stripped := seq(|lines|, k requires 0 <= k < |lines| => Stripped(lines[k], common));
    assert stripped == StrippedLines(lines, common);
    var unit := DetectIndentUnit(stripped);
    var shown, indentUnit := stripped, "";
    if unit.None? {
      indentUnit := "\t";
    } else if unit.value > 0 {
      shown := ConvertLines(stripped, unit.value);
      indentUnit := "\t";
    }
    UnitFitsLines(lines, stripped, common, WidthOf(unit));
    assert forall k :: 0 <= k < |lines| ==> shown[k] == Shown(lines[k], common, WidthOf(unit));
    var len := |common|;
    r := CompactedBody(JoinLines(shown), if len <= MAX_U32 then len else MAX_U32, indentUnit);
    ItCompacts(lines, r, common, unit, shown);
  }

  lemma {:induction false} ItCompacts(
    lines: seq<string>, r: CompactedBody, common: string, unit: Option<nat>, shown: seq<string>)
    requires lines != [] && (forall k :: 0 <= k < |lines| ==> '\n' !in lines[k])
    requires LongestCommonIndent(lines, common) && IsUnit(StrippedLines(lines, common), unit)
    requires Fits(lines, common, WidthOf(unit)) && |shown| == |lines|
    requires forall k :: 0 <= k < |lines| ==> shown[k] == Shown(lines[k], common, WidthOf(unit))
    requires r.body == JoinLines(shown) && r.indentUnit == (if unit == Some(0) then "" else "\t")
    requires r.dedentedPrefixLen == if |common| <= MAX_U32 then |common| else MAX_U32
    ensures Compacts(lines, r, common, unit)
  {
    BodyProperties(lines, common, WidthOf(unit), shown);
    assert LinesOf(r, lines) == shown;
    BlankLinesShown(lines, common, WidthOf(unit), shown);
  }

  lemma {:induction false} BlankLinesShown(lines: seq<string>, common: string, width: nat, shown: seq<string>)
    requires |shown| == |lines| && forall k :: 0 <= k < |lines| ==> shown[k] == Shown(lines[k], common, width)
    ensures forall k :: 0 <= k < |lines| && !(common <= lines[k]) ==> shown[k] == ""
    ensures forall k :: 0 <= k < |lines| && common <= lines[k] && width == 0 ==> common + shown[k] == lines[k]
  {
    forall k | 0 <= k < |lines| && !(common <= lines[k]) ensures shown[k] == "" {
      NothingShown(common, lines[k], width);
    }
  }

  /** A blank line too short for the prefix is left empty. */
  lemma NothingShown(common: string, line: string, width: nat)
    requires !(common <= line)
    ensures Shown(line, common, width) == ""
  {
  }

  method ConvertLines(lines: seq<string>, width: nat) returns (out: seq<string>)
    requires width > 0
    ensures |out| == |lines| && forall k :: 0 <= k < |lines| ==> out[k] == Tabbed(lines[k], width)
  {
    out := [];
    for i := 0 to |lines|
      invariant |out| == i && forall k :: 0 <= k < i ==> out[k] == Tabbed(lines[k], width)
    {
      var converted := ConvertLeadingSpacesToTabs(lines[i], width);
      out := out + [converted];
    }
  }

  lemma BodyProperties(lines: seq<string>, common: string, width: nat, shown: seq<string>)
    requires lines != [] && (forall k :: 0 <= k < |lines| ==> '\n' !in lines[k]) && Fits(lines, common, width)
    requires |shown| == |lines| && forall k :: 0 <= k < |lines| ==> shown[k] == Shown(lines[k], common, width)
    ensures SplitOn(JoinLines(shown), '\n') == shown
    ensures forall k :: 0 <= k < |lines| && !Blank(lines[k]) ==> Restored(shown[k], common, width) == lines[k]
    ensures forall j, k :: 0 <= j < |lines| && 0 <= k < |lines| && !Blank(lines[j]) && !Blank(lines[k]) ==>
      (IndentEnd(shown[j]) <= IndentEnd(shown[k]) <==> IndentEnd(lines[j]) <= IndentEnd(lines[k]))
  {
    forall k | 0 <= k < |lines| ensures '\n' !in shown[k] { NoNewLines(lines[k], common, width); }
    SplitJoin(shown);
    forall k | 0 <= k < |lines| && !Blank(lines[k]) ensures Restored(shown[k], common, width) == lines[k] {
      LineRestored(lines, common, width, k);
    }
    forall j, k | 0 <= j < |lines| && 0 <= k < |lines| && !Blank(lines[j]) && !Blank(lines[k])
      ensures IndentEnd(shown[j]) <= IndentEnd(shown[k]) <==> IndentEnd(lines[j]) <= IndentEnd(lines[k])
    {
      DepthOrderKept(lines, common, width, j, k);
    }
  }
}
