/**
 The script payload handed to the script parser: the scripts of a component at
 their own byte offsets, everything else blanked out.
 */
module SfcPayload {
  import opened SfcBlocks

  predicate IsSetup(block: SfcBlock) {
    block.tag == "script" && exists k :: 0 <= k < |block.attributes| && block.attributes[k].0 == "setup"
  }

  // ---- the payload as built ----

  function Blank(c: char): char { if c == '\n' then '\n' else ' ' }

  function Blanked(s: string): (r: string)
    ensures |r| == |s| && forall k :: 0 <= k < |s| ==> r[k] == Blank(s[k])
  {
    seq(|s|, k requires 0 <= k < |s| => Blank(s[k]))
  }

  function Padded(source: string, out: string, target: nat): (r: string)
    requires target <= |source|
    ensures |r| == if |out| < target then target else |out|
  {
    if |out| >= target then out else out + Blanked(source[|out|..target])
  }

  function Append(source: string, out: string, script: SfcBlock): string
    requires script.contentStart <= script.contentEnd <= |source|
  {
    Padded(source, out, script.contentStart) + source[script.contentStart..script.contentEnd]
  }

  predicate Fits(source: string, scripts: seq<SfcBlock>) {
    forall k :: 0 <= k < |scripts| ==> scripts[k].contentStart <= scripts[k].contentEnd <= |source|
  }

  function AppendAll(source: string, scripts: seq<SfcBlock>): string
    requires Fits(source, scripts)
  {
    if scripts == [] then "" else
    Append(source, AppendAll(source, scripts[..|scripts| - 1]), scripts[|scripts| - 1])
  }

  function Those(scripts: seq<SfcBlock>, setup: bool): seq<SfcBlock> {
    if scripts == [] then [] else
    var last := scripts[|scripts| - 1];
    Those(scripts[..|scripts| - 1], setup) + (if IsSetup(last) == setup then [last] else [])
  }

  /** A stable sort by the setup flag: plain scripts first, each group in source order. */
  function SortBySetup(scripts: seq<SfcBlock>): seq<SfcBlock> {
    Those(scripts, false) + Those(scripts, true)
  }

  lemma {:induction false} ThoseMembers(scripts: seq<SfcBlock>, setup: bool, b: SfcBlock)
    ensures b in Those(scripts, setup) <==> b in scripts && IsSetup(b) == setup
  {
    if scripts != [] {
      var rest, last := scripts[..|scripts| - 1], scripts[|scripts| - 1];
      assert scripts == rest + [last];
      ThoseMembers(rest, setup, b);
    }
  }

  lemma SortedFits(source: string, scripts: seq<SfcBlock>)
    requires Fits(source, scripts)
    ensures Fits(source, SortBySetup(scripts))
  {
    var sorted := SortBySetup(scripts);
    forall k | 0 <= k < |sorted| ensures sorted[k] in scripts {
      assert sorted[k] in sorted;
      ThoseMembers(scripts, false, sorted[k]);
      ThoseMembers(scripts, true, sorted[k]);
    }
  }

  function FirstLang(scripts: seq<SfcBlock>, default: string): string {
    if scripts == [] then default
    else if scripts[0].lang.Some? then scripts[0].lang.value
    else FirstLang(scripts[1..], default)
  }

  /** The language of the first script that names one, or the default. */
  ghost predicate IsFirstLang(scripts: seq<SfcBlock>, default: string, lang: string) {
    || (lang == default && forall k :: 0 <= k < |scripts| ==> scripts[k].lang.None?)
    || exists k :: NamesFirst(scripts, k, lang)
  }

  ghost predicate NamesFirst(scripts: seq<SfcBlock>, k: int, lang: string) {
    && 0 <= k < |scripts| && scripts[k].lang.Some? && scripts[k].lang.value == lang
    && forall j :: 0 <= j < k ==> scripts[j].lang.None?
  }

  lemma {:induction false} FirstLangIs(scripts: seq<SfcBlock>, default: string)
    ensures IsFirstLang(scripts, default, FirstLang(scripts, default))
  {
    if scripts != [] && scripts[0].lang.Some? {
      assert NamesFirst(scripts, 0, FirstLang(scripts, default));
    } else if scripts != [] {
      var rest := scripts[1..];
      FirstLangIs(rest, default);
      assert forall k :: 0 < k < |scripts| ==> scripts[k] == rest[k - 1];
      if k :| NamesFirst(rest, k, FirstLang(rest, default)) {
        assert NamesFirst(scripts, k + 1, FirstLang(scripts, default));
      }
    }
  }

  method PadUntilByteOffset(out: string, target: nat, source: string) returns (r: string)
    requires target <= |source|
    ensures r == Padded(source, out, target)
    ensures forall k :: |out| <= k < target ==> r[k] == if source[k] == '\n' then '\n' else ' '
  {
    r := out;
    if |out| >= target {
      return;
    }
    for k := |out| to target
      invariant |r| == k && r[..|out|] == out
      invariant forall j :: |out| <= j < k ==> r[j] == Blank(source[j])
    {
      if source[k] == '\n' {
        r := r + ['\n'];
      } else {
        r := r + [' '];
      }
    }
    assert r == r[..|out|] + r[|out|..];
    assert r[|out|..] == Blanked(source[|out|..target]);
  }

  method AppendScripts(content: string, sorted: seq<SfcBlock>) returns (payload: string)
    requires Fits(content, sorted)
    ensures payload == AppendAll(content, sorted)
  {
    payload := "";
    for k := 0 to |sorted|
      invariant payload == AppendAll(content, sorted[..k])
    {
      assert sorted[..k + 1][..k] == sorted[..k];
      payload := PadUntilByteOffset(payload, sorted[k].contentStart, content);
      payload := payload + content[sorted[k].contentStart..sorted[k].contentEnd];
    }
    assert sorted[..|sorted|] == sorted;
  }

  method BuildScriptPayload(content: string, scripts: seq<SfcBlock>, defaultLang: string)
    returns (payload: string, lang: string)
    requires Fits(content, scripts)
    ensures Fits(content, SortBySetup(scripts)) && payload == AppendAll(content, SortBySetup(scripts))
    ensures IsFirstLang(SortBySetup(scripts), defaultLang, lang)
  {
    var sorted := SortBySetup(scripts);
    SortedFits(content, scripts);
    payload := AppendScripts(content, sorted);
    lang := FirstLang(sorted, defaultLang);
    FirstLangIs(sorted, defaultLang);
  }

  // ---- the reference: the source, masked ----

  ghost predicate Inside(scripts: seq<SfcBlock>, k: nat) {
    exists j :: 0 <= j < |scripts| && scripts[j].contentStart <= k < scripts[j].contentEnd
  }

  function EndOf(scripts: seq<SfcBlock>): nat {
    if scripts == [] then 0 else scripts[|scripts| - 1].contentEnd
  }

  /** Byte k is the source byte inside a script; elsewhere a newline where the source has one, or a space. */
  ghost predicate IsMask(source: string, scripts: seq<SfcBlock>, payload: string) {
    && |payload| == EndOf(scripts) <= |source|
    && forall k :: 0 <= k < |payload| ==> payload[k] == if Inside(scripts, k) then source[k] else Blank(source[k])
  }

  /** In a masked payload every line starts where it does in the source, and what is not script is blank. */
  lemma MaskKeepsLines(source: string, scripts: seq<SfcBlock>, payload: string, k: nat)
    requires IsMask(source, scripts, payload) && k < |payload|
    ensures payload[k] == '\n' <==> source[k] == '\n'
    ensures Inside(scripts, k) ==> payload[k] == source[k]
    ensures !Inside(scripts, k) && source[k] != '\n' ==> payload[k] == ' '
  {
  }

  ghost predicate InOrder(source: string, scripts: seq<SfcBlock>) {
    && Fits(source, scripts)
    && forall j, k :: 0 <= j < k < |scripts| ==> scripts[j].contentEnd <= scripts[k].contentStart
  }

  ghost predicate NoSetupBeforePlain(scripts: seq<SfcBlock>) {
    forall j, k :: 0 <= j < k < |scripts| && IsSetup(scripts[j]) ==> IsSetup(scripts[k])
  }

  /** Scripts appended in source order land at their own offsets. */
  lemma {:induction false} AppendIsMask(source: string, scripts: seq<SfcBlock>)
    requires InOrder(source, scripts)
    ensures IsMask(source, scripts, AppendAll(source, scripts))
  {
    if scripts != [] {
      var rest, last := scripts[..|scripts| - 1], scripts[|scripts| - 1];
      AppendIsMask(source, rest);
      assert rest != [] ==> rest[|rest| - 1] == scripts[|rest| - 1];
      AppendOne(source, scripts, AppendAll(source, rest), Append(source, AppendAll(source, rest), last));
    }
  }

  lemma AppendOne(source: string, scripts: seq<SfcBlock>, before: string, after: string)
    requires InOrder(source, scripts) && scripts != []
    requires EndOf(scripts[..|scripts| - 1]) <= scripts[|scripts| - 1].contentStart
    requires IsMask(source, scripts[..|scripts| - 1], before) && after == Append(source, before, scripts[|scripts| - 1])
    ensures IsMask(source, scripts, after)
  {
    var last := scripts[|scripts| - 1];
    forall k | 0 <= k < |after| ensures after[k] == if Inside(scripts, k) then source[k] else Blank(source[k]) {
      InsideSnoc(scripts, k);
      if k < |before| {
        assert after[k] == before[k];
      } else if k < last.contentStart {
        NotInside(source, scripts, k);
      }
    }
  }

  lemma InsideSnoc(scripts: seq<SfcBlock>, k: nat)
    requires scripts != []
    ensures var rest, last := scripts[..|scripts| - 1], scripts[|scripts| - 1];
      Inside(scripts, k) <==> Inside(rest, k) || last.contentStart <= k < last.contentEnd
  {
    var rest, last := scripts[..|scripts| - 1], scripts[|scripts| - 1];
    if Inside(rest, k) {
      var j :| 0 <= j < |rest| && rest[j].contentStart <= k < rest[j].contentEnd;
      assert scripts[j] == rest[j];
    }
    if Inside(scripts, k) {
      var j :| 0 <= j < |scripts| && scripts[j].contentStart <= k < scripts[j].contentEnd;
      assert j < |rest| ==> rest[j] == scripts[j];
    }
  }

  /** Nothing lies between the scripts before the last one and the last one. */
  lemma NotInside(source: string, scripts: seq<SfcBlock>, k: nat)
    requires InOrder(source, scripts) && scripts != []
    requires EndOf(scripts[..|scripts| - 1]) <= k
    ensures !Inside(scripts[..|scripts| - 1], k)
  {
    var rest := scripts[..|scripts| - 1];
    forall j | 0 <= j < |rest| ensures rest[j].contentEnd <= k {
      assert rest[j] == scripts[j] && rest[|rest| - 1] == scripts[|rest| - 1];
    }
  }

  // ---- the order the sort leaves ----

  lemma {:induction false} NoneOfThem(scripts: seq<SfcBlock>)
    requires forall j :: 0 <= j < |scripts| ==> !IsSetup(scripts[j])
    ensures Those(scripts, true) == []
  {
    if scripts != [] {
      NoneOfThem(scripts[..|scripts| - 1]);
    }
  }

  lemma {:induction false} SortKeepsOrder(scripts: seq<SfcBlock>)
    requires NoSetupBeforePlain(scripts)
    ensures SortBySetup(scripts) == scripts
  {
    if scripts != [] {
      var rest, last := scripts[..|scripts| - 1], scripts[|scripts| - 1];
      SortKeepsOrder(rest);
      assert scripts == rest + [last];
      if !IsSetup(last) {
        forall j | 0 <= j < |rest| ensures !IsSetup(rest[j]) { assert rest[j] == scripts[j]; }
        NoneOfThem(rest);
      }
    }
  }

  lemma InOrderSnoc(source: string, scripts: seq<SfcBlock>, last: SfcBlock)
    requires InOrder(source, scripts) && last.contentStart <= last.contentEnd <= |source|
    requires forall k :: 0 <= k < |scripts| ==> scripts[k].contentEnd <= last.contentStart
    ensures InOrder(source, scripts + [last])
  {
  }

  lemma {:induction false} ThoseInOrder(source: string, scripts: seq<SfcBlock>, setup: bool)
    requires InOrder(source, scripts)
    ensures InOrder(source, Those(scripts, setup))
  {
    if scripts != [] {
      var rest, last := scripts[..|scripts| - 1], scripts[|scripts| - 1];
      ThoseInOrder(source, rest, setup);
      var those := Those(rest, setup);
      forall n | 0 <= n < |those| ensures those[n].contentEnd <= last.contentStart {
        assert those[n] in those;
        ThoseMembers(rest, setup, those[n]);
        var j :| 0 <= j < |rest| && rest[j] == those[n];
        assert scripts[j] == those[n];
      }
      InOrderSnoc(source, those, last);
    }
  }

  lemma {:induction false} AppendGrows(source: string, a: seq<SfcBlock>, b: seq<SfcBlock>)
    requires Fits(source, a) && Fits(source, b) && Fits(source, a + b)
    ensures AppendAll(source, a) <= AppendAll(source, a + b)
  {
    if b == [] {
      assert a + b == a;
    } else {
      var rest := b[..|b| - 1];
      assert (a + b)[..|a + b| - 1] == a + rest;
      AppendGrows(source, a, rest);
    }
  }

  /**
   For every in-order list of scripts the payload is the masked source when no
   setup script comes before a plain one.
   */
  lemma AlignedWhenSetupLast(source: string, scripts: seq<SfcBlock>)
    requires InOrder(source, scripts) && NoSetupBeforePlain(scripts)
    ensures SortBySetup(scripts) == scripts
    ensures IsMask(source, scripts, AppendAll(source, scripts))
  {
    SortKeepsOrder(scripts);
    AppendIsMask(source, scripts);
  }

  lemma {:induction false} PlainMissesSetup(source: string, scripts: seq<SfcBlock>, j: nat, k: nat, x: nat)
    requires InOrder(source, scripts) && j < k < |scripts| && IsSetup(scripts[j]) && !IsSetup(scripts[k])
    requires scripts[j].contentStart <= x < scripts[j].contentEnd
    ensures !Inside(Those(scripts, false), x) && x < EndOf(Those(scripts, false))
  {
    var plain := Those(scripts, false);
    forall m | 0 <= m < |plain| ensures !(plain[m].contentStart <= x < plain[m].contentEnd) {
      assert plain[m] in plain;
      ThoseMembers(scripts, false, plain[m]);
      var i :| 0 <= i < |scripts| && scripts[i] == plain[m];
      Apart(source, scripts, i, j, x);
    }
    ThoseInOrder(source, scripts, false);
    ThoseMembers(scripts, false, scripts[k]);
    var n :| 0 <= n < |plain| && plain[n] == scripts[k];
  }

  lemma Apart(source: string, scripts: seq<SfcBlock>, i: nat, j: nat, x: nat)
    requires InOrder(source, scripts) && i < |scripts| && j < |scripts| && i != j
    requires scripts[j].contentStart <= x < scripts[j].contentEnd
    ensures !(scripts[i].contentStart <= x < scripts[i].contentEnd)
  {
  }

  /** A setup script moved behind a plain one leaves blanks where its text was. */
  lemma MisalignedSetup(source: string, scripts: seq<SfcBlock>, j: nat, k: nat, x: nat)
    requires InOrder(source, scripts) && j < k < |scripts| && IsSetup(scripts[j]) && !IsSetup(scripts[k])
    requires scripts[j].contentStart <= x < scripts[j].contentEnd && source[x] != ' ' && source[x] != '\n'
    requires Fits(source, SortBySetup(scripts))
    ensures !IsMask(source, scripts, AppendAll(source, SortBySetup(scripts)))
  {
    var plain, setup := Those(scripts, false), Those(scripts, true);
    PlainMissesSetup(source, scripts, j, k, x);
    ThoseInOrder(source, scripts, false);
    ThoseInOrder(source, scripts, true);
    AppendIsMask(source, plain);
    var first, all := AppendAll(source, plain), AppendAll(source, plain + setup);
    AppendGrows(source, plain, setup);
    assert all[x] == first[x] == Blank(source[x]);
    assert Inside(scripts, x);
  }

  ghost predicate HasInk(source: string, script: SfcBlock) {
    exists x :: script.contentStart <= x < script.contentEnd && x < |source| && source[x] != ' ' && source[x] != '\n'
  }

  /** When every setup script has a visible byte, order is the exact condition. */
  lemma AlignedIff(source: string, scripts: seq<SfcBlock>)
    requires InOrder(source, scripts)
    requires forall k :: 0 <= k < |scripts| && IsSetup(scripts[k]) ==> HasInk(source, scripts[k])
    ensures Fits(source, SortBySetup(scripts))
    ensures IsMask(source, scripts, AppendAll(source, SortBySetup(scripts))) <==> NoSetupBeforePlain(scripts)
  {
    SortedFits(source, scripts);
    if NoSetupBeforePlain(scripts) {
      AlignedWhenSetupLast(source, scripts);
    } else {
      var j, k :| 0 <= j < k < |scripts| && IsSetup(scripts[j]) && !IsSetup(scripts[k]);
      var x :| scripts[j].contentStart <= x < scripts[j].contentEnd && x < |source| && source[x] != ' '
        && source[x] != '\n';
      MisalignedSetup(source, scripts, j, k, x);
    }
  }

  // ---- for every source ----

  lemma {:induction false} OfTagMembers(ps: seq<Placed>, tag: string)
    ensures forall block :: block in OfTag(ps, tag) <==>
      block.tag == tag && exists k :: 0 <= k < |ps| && ps[k].block == block
  {
    if ps != [] {
      var rest, last := ps[..|ps| - 1], ps[|ps| - 1];
      OfTagMembers(rest, tag);
      forall block: SfcBlock | block.tag == tag && exists k :: 0 <= k < |ps| && ps[k].block == block
        ensures block in OfTag(ps, tag)
      {
        var k :| 0 <= k < |ps| && ps[k].block == block;
        assert k < |rest| ==> rest[k] == ps[k];
      }
      forall block | block in OfTag(ps, tag) ensures exists k :: 0 <= k < |ps| && ps[k].block == block {
        if block in OfTag(rest, tag) {
          var k :| 0 <= k < |rest| && rest[k].block == block;
          assert ps[k].block == block;
        } else {
          assert ps[|ps| - 1].block == block;
        }
      }
    }
  }

  lemma {:induction false} TagInOrder(b: string, ps: seq<Placed>, tag: string)
    requires Ordered(b, ps)
    ensures InOrder(b, OfTag(ps, tag))
  {
    if ps != [] {
      var rest, last := ps[..|ps| - 1], ps[|ps| - 1];
      TagInOrder(b, rest, tag);
      OfTagMembers(rest, tag);
      var found := OfTag(rest, tag);
      forall n | 0 <= n < |found| ensures found[n].contentEnd <= last.block.contentStart {
        assert found[n] in found;
        var k :| 0 <= k < |rest| && rest[k].block == found[n];
        assert rest[k] == ps[k] && OuterEnd(b, ps[k].block) <= last.lt;
      }
      InOrderSnoc(b, found, last.block);
    }
  }

  /**
   The payload of any component whose setup scripts come last is its source masked
   up to the end of the last script.
   */
  method ComponentPayload(source: string, defaultLang: string) returns (payload: string, lang: string)
    ensures var scripts := Collect(Walk(source, 0)).scripts;
      && InOrder(source, scripts)
      && (NoSetupBeforePlain(scripts) ==> IsMask(source, scripts, payload) && IsFirstLang(scripts, defaultLang, lang))
      && ((forall k :: 0 <= k < |scripts| && IsSetup(scripts[k]) ==> HasInk(source, scripts[k])) ==>
            (IsMask(source, scripts, payload) <==> NoSetupBeforePlain(scripts)))
  {
    var doc := ExtractBlocks(source);
    WalkOrdered(source, 0);
    TagInOrder(source, Walk(source, 0), "script");
    payload, lang := BuildScriptPayload(source, doc.scripts, defaultLang);
    if NoSetupBeforePlain(doc.scripts) {
      AlignedWhenSetupLast(source, doc.scripts);
    }
    if forall k :: 0 <= k < |doc.scripts| && IsSetup(doc.scripts[k]) ==> HasInk(source, doc.scripts[k]) {
      AlignedIff(source, doc.scripts);
    }
  }
}
