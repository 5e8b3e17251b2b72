/**
 Where a component's text defeats the scanners above the blocks: a `<` inside an
 opening tag, and a setup script in front of a plain one.
 */
module SfcExamples {
  import opened Prelude
  import opened SfcScanner
  import opened SfcBlocks
  import opened SfcPayload
  import opened SfcTemplate

  /** The outer range starts at the opening tag if and only if no other `<` lies inside that tag. */
  lemma OuterStartIff(b: string, p: Placed)
    requires InBounds(b, p)
    ensures HasContent(b, p.block)
    ensures OuterRange(b, p.block).start == p.lt <==> forall k :: p.lt < k < p.block.contentStart ==> b[k] != '<'
  {
    OuterRangeOf(b, p);
    LastLtIsLast(b, p.block.contentStart - 1, p.lt);
  }

  // ---- reading one tag of a literal source ----

  lemma RunStops(b: string, i: nat, end: nat, p: char -> bool)
    requires i <= end < |b| && (forall k :: i <= k < end ==> p(b[k])) && !p(b[end])
    ensures RunEnd(b, i, p) == end
  {
  }

  lemma CloseIs(b: string, from: nat, end: nat, needle: string)
    requires from <= end <= |b| && ClosesTag(b, end, needle) && forall k :: from <= k < end ==> !ClosesTag(b, k, needle)
    ensures FirstClose(b, from, needle) == Some(end)
  {
  }

  lemma PastIs(b: string, from: nat, k: nat, target: char)
    requires from <= k < |b| && b[k] == target && forall j :: from <= j < k ==> b[j] != target
    ensures PastByte(b, from, target) == k + 1
  {
    PastByteIsFirst(b, from, k, target);
  }

  lemma LowercaseOf(s: string)
    requires forall k :: 0 <= k < |s| ==> !('A' <= s[k] <= 'Z')
    ensures Lowercase(s) == s
  {
  }

  const OPEN := "<script"
  const CLOSE := "</script>"

  /** `<script` + tag + content + `</script>` somewhere in a source: where its parts are. */
  ghost predicate ScriptAt(b: string, i: nat, gt: nat, lt: nat) {
    && i + 7 <= gt < lt && lt + 9 <= |b|
    && b[i..i + 7] == OPEN && b[lt..lt + 9] == CLOSE
    && !IsNameByte(b[i + 7]) && b[gt] == '>'
    && (forall k :: gt < k < lt ==> b[k] != '<')
  }

  lemma ScriptName(b: string, i: nat, gt: nat, lt: nat)
    requires ScriptAt(b, i, gt, lt)
    ensures b[i] == '<' && b[i + 1] == 's' && IsAlphabetic(b[i + 1])
    ensures RunEnd(b, i + 1, IsNameByte) == i + 7 && Lowercase(b[i + 1..i + 7]) == "script"
  {
    var open := b[i..i + 7];
    assert forall k :: 0 <= k < 7 ==> open[k] == b[i + k];
    assert b[i + 1..i + 7] == open[1..] == "script";
    LowercaseOf("script");
    forall k | i + 1 <= k < i + 7 ensures IsNameByte(b[k]) { assert b[k] == open[k - i]; }
    RunStops(b, i + 1, i + 7, IsNameByte);
  }

  lemma NoTagHere(b: string, k: nat, needle: string)
    requires k < |b| && b[k] != '<' && needle != "" && needle[0] == '<'
    ensures !ClosesTag(b, k, needle)
  {
    if k + |needle| <= |b| {
      assert Lowercase(b[k..k + |needle|])[0] == ToLower(b[k]);
      assert Lowercase(needle)[0] == '<';
    }
  }

  lemma ClosesHere(b: string, lt: nat)
    requires lt + 9 <= |b| && b[lt..lt + 9] == CLOSE
    ensures ClosesTag(b, lt, "</script") && b[lt + 8] == '>'
    ensures forall k :: lt <= k < lt + 8 ==> b[k] != '>'
  {
    var close := b[lt..lt + 9];
    assert forall k :: lt <= k < lt + 9 ==> b[k] == close[k - lt];
    assert b[lt..lt + 8] == close[..8] == "</script";
  }

  lemma {:induction false} ScriptClose(b: string, i: nat, gt: nat, lt: nat)
    requires ScriptAt(b, i, gt, lt)
    ensures FirstClose(b, gt + 1, "</script") == Some(lt) && PastByte(b, lt, '>') == lt + 9
  {
    var needle := "</script";
    ClosesHere(b, lt);
    forall k | gt + 1 <= k < lt ensures !ClosesTag(b, k, needle) {
      NoTagHere(b, k, needle);
    }
    CloseIs(b, gt + 1, lt, needle);
    PastIs(b, lt, lt + 8, '>');
  }

  lemma {:induction false} TakeOf(
    b: string, tag: string, nameEnd: nat, gt: nat, lt: nat, after: nat, attributes: seq<Attribute>)
    requires nameEnd <= |b| && TagFrom(b, nameEnd, []) == TagRest(attributes, gt, false)
    requires FirstClose(b, gt + 1, "</" + tag) == Some(lt) && lt <= |b| && PastByte(b, lt, '>') == after
    ensures TakeAt(b, tag, nameEnd) == Take(SfcBlock(tag, ValueOf(attributes, "lang"), gt + 1, lt, attributes), after)
  {
  }

  lemma MoveOf(b: string, i: nat, tag: string, nameEnd: nat)
    requires i + 1 < |b| && b[i] == '<' && IsAlphabetic(b[i + 1]) && RunEnd(b, i + 1, IsNameByte) == nameEnd
    requires Lowercase(b[i + 1..nameEnd]) == tag && IsBlockTag(tag)
    ensures MoveAt(b, i) == TakeAt(b, tag, nameEnd)
  {
    NotAComment(b, i);
  }

  lemma NotAComment(b: string, i: nat)
    requires i + 1 < |b| && b[i + 1] != '!'
    ensures !StartsAt(b, i, "<!--")
  {
    assert i + 4 <= |b| ==> b[i..i + 4][1] == b[i + 1];
  }

  /** The block such a script is read as, once the rest of its tag is known. */
  lemma {:induction false} ScriptIsTaken(b: string, i: nat, gt: nat, lt: nat, attributes: seq<Attribute>)
    requires ScriptAt(b, i, gt, lt) && TagFrom(b, i + 7, []) == TagRest(attributes, gt, false)
    ensures MoveAt(b, i) == Take(SfcBlock("script", ValueOf(attributes, "lang"), gt + 1, lt, attributes), lt + 9)
  {
    var tag := "script";
    ScriptName(b, i, gt, lt);
    ScriptClose(b, i, gt, lt);
    assert "</" + tag == "</script";
    MoveOf(b, i, tag, i + 7);
    TakeOf(b, tag, i + 7, gt, lt, lt + 9, attributes);
  }

  // ---- the rest of a tag, step by step ----

  lemma TagSpace(b: string, i: nat, soFar: seq<Attribute>)
    requires i < |b| && IsWhitespace(b[i])
    ensures TagFrom(b, i, soFar) == TagFrom(b, i + 1, soFar)
  {
  }

  lemma TagEnds(b: string, i: nat, soFar: seq<Attribute>)
    requires i < |b| && b[i] == '>'
    ensures TagFrom(b, i, soFar) == TagRest(soFar, i, false)
  {
  }

  lemma TagName(b: string, i: nat, end: nat, value: Option<string>, after: nat)
    requires i < end <= |b| && IsAlphabetic(b[i]) && RunEnd(b, i, IsAttributeByte) == end
    requires ValueAt(b, end) == (value, after) && after <= |b|
    ensures TagFrom(b, i, []) == TagFrom(b, after, [(b[i..end], value)])
  {
    assert [] + [(b[i..end], value)] == [(b[i..end], value)];
    assert i + 2 <= |b| ==> b[i..i + 2][0] == b[i];
  }

  lemma NoValue(b: string, i: nat)
    requires i < |b| && b[i] == '>'
    ensures ValueAt(b, i) == (None, i)
  {
    RunStops(b, i, i, IsWhitespace);
  }

  lemma WalkTakes(b: string, i: nat, block: SfcBlock, to: nat)
    requires i < |b| && MoveAt(b, i) == Take(block, to)
    ensures Walk(b, i) == [Placed(i, block)] + Walk(b, to)
  {
  }

  // ---- a `<` in an attribute ----

  /** `<script a="<">`, some content without `<`, and the closing tag. */
  ghost predicate AngleSource(b: string, lt: nat) {
    && ScriptAt(b, 0, 13, lt)
    && b[7] == ' ' && b[8] == 'a' && b[9] == '=' && b[10] == '"' && b[11] == '<' && b[12] == '"'
  }

  lemma AngleTag(b: string, lt: nat)
    requires AngleSource(b, lt)
    ensures TagFrom(b, 7, []) == TagRest([(b[8..9], Some(b[11..12]))], 13, false)
  {
    TagSpace(b, 7, []);
    RunStops(b, 8, 9, IsAttributeByte);
    AngleValue(b, lt);
    TagName(b, 8, 9, Some(b[11..12]), 13);
    TagEnds(b, 13, [(b[8..9], Some(b[11..12]))]);
  }

  lemma AngleValue(b: string, lt: nat)
    requires AngleSource(b, lt)
    ensures ValueAt(b, 9) == (Some(b[11..12]), 13)
  {
    RunStops(b, 9, 9, IsWhitespace);
    RunStops(b, 10, 10, IsWhitespace);
    assert QuoteEnd(b, 11, '"') == 12;
  }

  /** The blocked range starts inside the tag, so the front of the tag is left as template. */
  lemma AngleInTag(b: string, lt: nat)
    requires AngleSource(b, lt)
    ensures MoveAt(b, 0).Take? && HasContent(b, MoveAt(b, 0).block) && OuterRange(b, MoveAt(b, 0).block).start == 11
  {
    AngleTag(b, lt);
    ScriptIsTaken(b, 0, 13, lt, [(b[8..9], Some(b[11..12]))]);
    LastLtIsLast(b, 13, 11);
  }

  // ---- a setup script before a plain one ----

  /** `<script setup>`, content, `</script><script>`, content, `</script>`; no content has a `<`. */
  ghost predicate SetupThenPlain(b: string, lt: nat, end: nat) {
    && ScriptAt(b, 0, 13, lt) && b[7] == ' ' && b[8..13] == "setup"
    && ScriptAt(b, lt + 9, lt + 16, end) && |b| == end + 9
  }

  lemma SetupTag(b: string, lt: nat, end: nat)
    requires SetupThenPlain(b, lt, end)
    ensures TagFrom(b, 7, []) == TagRest([(b[8..13], None)], 13, false)
  {
    TagSpace(b, 7, []);
    var name := b[8..13];
    forall k | 8 <= k < 13 ensures IsAlphabetic(b[k]) { assert b[k] == name[k - 8]; }
    RunStops(b, 8, 13, IsAttributeByte);
    NoValue(b, 13);
    TagName(b, 8, 13, None, 13);
    TagEnds(b, 13, [(name, None)]);
  }

  function SetupBlock(lt: nat): SfcBlock { SfcBlock("script", None, 14, lt, [("setup", None)]) }

  function PlainBlock(lt: nat, end: nat): SfcBlock { SfcBlock("script", None, lt + 17, end, []) }

  lemma {:induction false} SetupWalk(b: string, lt: nat, end: nat)
    requires SetupThenPlain(b, lt, end)
    ensures Walk(b, 0) == [Placed(0, SetupBlock(lt)), Placed(lt + 9, PlainBlock(lt, end))]
  {
    SetupTaken(b, lt, end);
    WalkTakes(b, 0, SetupBlock(lt), lt + 9);
    PlainWalk(b, lt, end);
  }

  lemma SetupTaken(b: string, lt: nat, end: nat)
    requires SetupThenPlain(b, lt, end)
    ensures MoveAt(b, 0) == Take(SetupBlock(lt), lt + 9)
  {
    var attributes: seq<Attribute> := [("setup", None)];
    SetupTag(b, lt, end);
    ScriptIsTaken(b, 0, 13, lt, attributes);
    assert attributes[1..] == [] && ValueOf(attributes[1..], "lang") == None;
  }

  lemma PlainWalk(b: string, lt: nat, end: nat)
    requires SetupThenPlain(b, lt, end)
    ensures Walk(b, lt + 9) == [Placed(lt + 9, PlainBlock(lt, end))]
  {
    TagEnds(b, lt + 16, []);
    ScriptIsTaken(b, lt + 9, lt + 16, end, []);
    WalkTakes(b, lt + 9, PlainBlock(lt, end), |b|);
    assert Walk(b, |b|) == [];
  }

  lemma TwoScripts(a: Placed, c: Placed)
    requires a.block.tag == "script" && c.block.tag == "script"
    ensures Collect([a, c]).scripts == [a.block, c.block]
  {
    var ps := [a, c];
    assert ps[..1] == [a] && [a][..0] == [];
    assert OfTag([a], "script") == [] + [a.block];
  }

  lemma SetupScripts(b: string, lt: nat, end: nat)
    requires SetupThenPlain(b, lt, end)
    ensures Collect(Walk(b, 0)).scripts == [SetupBlock(lt), PlainBlock(lt, end)]
  {
    SetupWalk(b, lt, end);
    TwoScripts(Placed(0, SetupBlock(lt)), Placed(lt + 9, PlainBlock(lt, end)));
  }

  lemma SetupFacts(b: string, lt: nat, end: nat)
    requires SetupThenPlain(b, lt, end)
    ensures IsSetup(SetupBlock(lt)) && !IsSetup(PlainBlock(lt, end))
    ensures InOrder(b, [SetupBlock(lt), PlainBlock(lt, end)])
  {
    assert SetupBlock(lt).attributes[0].0 == "setup";
  }

  lemma TwoMisaligned(b: string, setup: SfcBlock, plain: SfcBlock)
    requires IsSetup(setup) && !IsSetup(plain) && InOrder(b, [setup, plain]) && HasInk(b, setup)
    ensures var scripts := [setup, plain];
      Fits(b, SortBySetup(scripts)) && !IsMask(b, scripts, AppendAll(b, SortBySetup(scripts)))
  {
    var scripts := [setup, plain];
    SortedFits(b, scripts);
    var x :| setup.contentStart <= x < setup.contentEnd && x < |b| && b[x] != ' ' && b[x] != '\n';
    MisalignedSetup(b, scripts, 0, 1, x);
  }

  /** Every such component whose setup script has a visible byte gets a payload that is not its mask. */
  lemma SetupFirstIsMisaligned(b: string, lt: nat, end: nat, scripts: seq<SfcBlock>)
    requires SetupThenPlain(b, lt, end) && HasInk(b, SetupBlock(lt)) && scripts == Collect(Walk(b, 0)).scripts
    ensures Fits(b, SortBySetup(scripts)) && !IsMask(b, scripts, AppendAll(b, SortBySetup(scripts)))
  {
    SetupScripts(b, lt, end);
    SetupFacts(b, lt, end);
    TwoMisaligned(b, SetupBlock(lt), PlainBlock(lt, end));
  }

  // ---- when the last script is a plain one ----

  /** The contents of scripts, one after the other. */
  function Contents(source: string, scripts: seq<SfcBlock>): string
    requires Fits(source, scripts)
  {
    if scripts == [] then "" else
    var last := scripts[|scripts| - 1];
    Contents(source, scripts[..|scripts| - 1]) + source[last.contentStart..last.contentEnd]
  }

  /** Scripts whose place has already been passed are appended without padding. */
  /** No padding where the payload is already past the script's place. */
  lemma AppendPast(source: string, out: string, script: SfcBlock)
    requires script.contentStart <= script.contentEnd <= |source| && script.contentStart <= |out|
    ensures Append(source, out, script) == out + source[script.contentStart..script.contentEnd]
  {
  }

  lemma {:induction false} AppendedBehind(source: string, a: seq<SfcBlock>, b: seq<SfcBlock>)
    requires Fits(source, a) && Fits(source, b) && Fits(source, a + b)
    requires forall k :: 0 <= k < |b| ==> b[k].contentStart <= |AppendAll(source, a)|
    ensures AppendAll(source, a + b) == AppendAll(source, a) + Contents(source, b)
  {
    if b == [] {
      assert a + b == a;
    } else {
      var rest, last := b[..|b| - 1], b[|b| - 1];
      assert (a + b)[..|a + b| - 1] == a + rest;
      AppendedBehind(source, a, rest);
      AppendPast(source, AppendAll(source, a + rest), last);
      var x, y, z := AppendAll(source, a), Contents(source, rest), source[last.contentStart..last.contentEnd];
      Associates(x, y, z);
    }
  }

  ghost predicate AllEmpty(scripts: seq<SfcBlock>) {
    forall k :: 0 <= k < |scripts| ==> scripts[k].contentStart == scripts[k].contentEnd
  }

  lemma {:induction false} EmptyIff(source: string, scripts: seq<SfcBlock>)
    requires Fits(source, scripts)
    ensures Contents(source, scripts) == "" <==> AllEmpty(scripts)
  {
    if scripts != [] {
      var rest, last := scripts[..|scripts| - 1], scripts[|scripts| - 1];
      EmptyIff(source, rest);
      assert |Contents(source, scripts)| == |Contents(source, rest)| + (last.contentEnd - last.contentStart);
      if AllEmpty(rest) && last.contentStart == last.contentEnd {
        forall k | 0 <= k < |scripts| ensures scripts[k].contentStart == scripts[k].contentEnd {
          assert k < |rest| ==> scripts[k] == rest[k];
        }
      }
    }
  }

  lemma EndsWithPlain(scripts: seq<SfcBlock>)
    requires scripts != [] && !IsSetup(scripts[|scripts| - 1])
    ensures EndOf(Those(scripts, false)) == EndOf(scripts)
  {
  }

  /** A script that is empty holds no byte. */
  lemma InsidePlain(scripts: seq<SfcBlock>, k: nat)
    requires AllEmpty(Those(scripts, true))
    ensures Inside(scripts, k) <==> Inside(Those(scripts, false), k)
  {
    var plain, setup := Those(scripts, false), Those(scripts, true);
    if Inside(plain, k) {
      var j :| 0 <= j < |plain| && plain[j].contentStart <= k < plain[j].contentEnd;
      assert plain[j] in plain;
      ThoseMembers(scripts, false, plain[j]);
      var i :| 0 <= i < |scripts| && scripts[i] == plain[j];
    }
    if Inside(scripts, k) {
      var i :| 0 <= i < |scripts| && scripts[i].contentStart <= k < scripts[i].contentEnd;
      ThoseMembers(scripts, false, scripts[i]);
      ThoseMembers(scripts, true, scripts[i]);
      assert scripts[i] !in setup;
      var j :| 0 <= j < |plain| && plain[j] == scripts[i];
    }
  }

  lemma SetupsStartEarly(source: string, scripts: seq<SfcBlock>)
    requires InOrder(source, scripts) && scripts != []
    ensures forall k :: 0 <= k < |Those(scripts, true)| ==> Those(scripts, true)[k].contentStart <= EndOf(scripts)
  {
    var setup := Those(scripts, true);
    forall k | 0 <= k < |setup| ensures setup[k].contentStart <= EndOf(scripts) {
      assert setup[k] in setup;
      ThoseMembers(scripts, true, setup[k]);
      var i :| 0 <= i < |scripts| && scripts[i] == setup[k];
      assert i < |scripts| - 1 ==> scripts[i].contentEnd <= scripts[|scripts| - 1].contentStart;
    }
  }

  /** The payload of such scripts: the mask of the plain ones, then the setup contents. */
  lemma PlainThenSetup(source: string, scripts: seq<SfcBlock>)
    requires InOrder(source, scripts) && scripts != [] && !IsSetup(scripts[|scripts| - 1])
    ensures var plain, setup := Those(scripts, false), Those(scripts, true);
      && Fits(source, SortBySetup(scripts)) && Fits(source, plain) && Fits(source, setup)
      && IsMask(source, plain, AppendAll(source, plain)) && EndOf(plain) == EndOf(scripts)
      && AppendAll(source, SortBySetup(scripts)) == AppendAll(source, plain) + Contents(source, setup)
  {
    var plain, setup := Those(scripts, false), Those(scripts, true);
    SortedFits(source, scripts);
    ThoseInOrder(source, scripts, false);
    ThoseInOrder(source, scripts, true);
    AppendIsMask(source, plain);
    EndsWithPlain(scripts);
    SetupsStartEarly(source, scripts);
    AppendedBehind(source, plain, setup);
  }

  /**
   If the last script is a plain one, the payload is the mask exactly when every setup
   script is empty: a blank one is enough to make it longer.
   */
  lemma PlainLastIff(source: string, scripts: seq<SfcBlock>)
    requires InOrder(source, scripts) && scripts != [] && !IsSetup(scripts[|scripts| - 1])
    ensures Fits(source, SortBySetup(scripts))
    ensures IsMask(source, scripts, AppendAll(source, SortBySetup(scripts))) <==> AllEmpty(Those(scripts, true))
  {
    var plain, setup := Those(scripts, false), Those(scripts, true);
    PlainThenSetup(source, scripts);
    EmptyIff(source, setup);
    var first := AppendAll(source, plain);
    if AllEmpty(setup) {
      assert first + "" == first;
      forall k | 0 <= k < |first| ensures first[k] == if Inside(scripts, k) then source[k] else Blank(source[k]) {
        InsidePlain(scripts, k);
      }
    }
  }

  // ---- the texts themselves ----

  function SetupFirst(a: string, c: string): string {
    OPEN + (" setup>" + (a + (CLOSE + (OPEN + (">" + (c + CLOSE))))))
  }

  lemma Front(y: string, z: string, s: string)
    requires s == y + z
    ensures |s| == |y| + |z| && s[..|y|] == y && s[|y|..] == z
  {
  }

  /** A script stays one behind any text. */
  lemma ScriptShifts(head: string, t: string, b: string, gt: nat, lt: nat)
    requires ScriptAt(t, 0, gt, lt) && b == head + t
    ensures ScriptAt(b, |head|, |head| + gt, |head| + lt)
  {
    var n := |head|;
    assert b[n..n + 7] == t[0..7] && b[n + lt..n + lt + 9] == t[lt..lt + 9];
    forall k | n + gt < k < n + lt ensures b[k] != '<' { assert b[k] == t[k - n]; }
  }

  /** `<script` + the rest of a tag + content + `</script>` + anything. */
  lemma ScriptText(tag: string, c: string, rest: string, r: string, t: string)
    requires tag != "" && !IsNameByte(tag[0]) && tag[|tag| - 1] == '>' && '<' !in c
    requires r == tag + (c + (CLOSE + rest)) && t == OPEN + r
    ensures ScriptAt(t, 0, 6 + |tag|, 7 + |tag| + |c|) && t[7..7 + |tag|] == tag
  {
    var q, p := c + (CLOSE + rest), CLOSE + rest;
    Front(OPEN, r, t);
    Front(tag, q, r);
    Front(c, p, q);
    Front(CLOSE, rest, p);
    var n := 7 + |tag|;
    assert t[n..] == q && t[n + |c|..] == p;
    assert t[n + |c|..n + |c| + 9] == p[..9] == CLOSE;
    assert t[7..n] == r[..|tag|] == tag;
    assert t[7] == tag[0] && t[n - 1] == tag[|tag| - 1];
    forall k | n - 1 < k < n + |c| ensures t[k] != '<' { assert t[k] == c[k - n]; }
  }

  /** Any contents without `<` give such a component. */
  lemma {:induction false} SetupFirstText(a: string, c: string)
    requires '<' !in a && '<' !in c
    ensures SetupThenPlain(SetupFirst(a, c), 14 + |a|, 31 + |a| + |c|)
  {
    var b, tag := SetupFirst(a, c), " setup>";
    var second := OPEN + (">" + (c + (CLOSE + "")));
    assert CLOSE + "" == CLOSE;
    ScriptText(tag, a, second, tag + (a + (CLOSE + second)), b);
    SetupName(b, tag);
    ScriptText(">", c, "", ">" + (c + (CLOSE + "")), second);
    FourParts(OPEN, tag, a, CLOSE, second);
    ScriptShifts(OPEN + (tag + (a + CLOSE)), second, b, 7, 8 + |c|);
  }

  lemma FourParts(x: string, y: string, z: string, u: string, rest: string)
    ensures x + (y + (z + (u + rest))) == x + (y + (z + u)) + rest
    ensures |x + (y + (z + u))| == |x| + |y| + |z| + |u|
  {
    Associates(z, u, rest);
    Associates(y, z + u, rest);
    Associates(x, y + (z + u), rest);
  }

  lemma SetupName(b: string, tag: string)
    requires |b| >= 14 && tag == " setup>" && b[7..14] == tag
    ensures b[7] == ' ' && b[8..13] == "setup"
  {
    assert b[8..13] == b[7..14][1..6];
  }

  function AngleFirst(c: string): string { OPEN + (" a=\"<\">" + (c + (CLOSE + ""))) }

  /** Any content without `<` behind such a tag. */
  lemma AngleText(c: string)
    requires '<' !in c
    ensures AngleSource(AngleFirst(c), 14 + |c|)
  {
    var b, tag := AngleFirst(c), " a=\"<\">";
    ScriptText(tag, c, "", tag + (c + (CLOSE + "")), b);
    assert forall k :: 0 <= k < 7 ==> b[7..14][k] == tag[k];
    assert forall k :: 7 <= k < 14 ==> b[k] == b[7..14][k - 7];
  }
}
