/**
 Setup scripts on both sides of the last plain one: the early ones are appended behind
 it, and the late one is padded to its own place if they have left room.
 */
module SfcLateSetup {
  import opened SfcBlocks
  import opened SfcPayload
  import opened SfcExamples

  /** All scripts but the last, which is a setup script right after the last plain one. */
  ghost predicate OneLate(source: string, scripts: seq<SfcBlock>) {
    && InOrder(source, scripts) && |scripts| >= 2
    && IsSetup(scripts[|scripts| - 1]) && !IsSetup(scripts[|scripts| - 2])
  }

  function Early(scripts: seq<SfcBlock>): seq<SfcBlock>
    requires scripts != []
  {
    scripts[..|scripts| - 1]
  }

  lemma EarlyInOrder(source: string, scripts: seq<SfcBlock>)
    requires OneLate(source, scripts)
    ensures InOrder(source, Early(scripts)) && EndOf(Early(scripts)) <= scripts[|scripts| - 1].contentStart
    ensures Early(scripts) != [] && !IsSetup(Early(scripts)[|Early(scripts)| - 1])
  {
  }

  /** The sort leaves the late script last. */
  lemma LateSortsLast(scripts: seq<SfcBlock>)
    requires scripts != [] && IsSetup(scripts[|scripts| - 1])
    ensures SortBySetup(scripts) == SortBySetup(Early(scripts)) + [scripts[|scripts| - 1]]
  {
    var p, m, last := Those(Early(scripts), false), Those(Early(scripts), true), scripts[|scripts| - 1];
    assert p + [] == p;
    assert p + (m + [last]) == p + m + [last];
  }

  // ---- what the payload is ----

  /** The payload in its parts: the mask of the plain scripts, the early contents, and the late script. */
  ghost predicate PayloadIs(source: string, scripts: seq<SfcBlock>, first: string, early: string, payload: string)
    requires OneLate(source, scripts)
  {
    var plain, last := Those(Early(scripts), false), scripts[|scripts| - 1];
    && |first| == EndOf(Early(scripts)) <= last.contentStart && IsMask(source, plain, first)
    && payload == Append(source, first + early, last)
  }

  lemma LatePayload(source: string, scripts: seq<SfcBlock>) returns (first: string, early: string)
    requires OneLate(source, scripts)
    ensures Fits(source, SortBySetup(scripts)) && Fits(source, Those(Early(scripts), true))
    ensures early == Contents(source, Those(Early(scripts), true))
    ensures PayloadIs(source, scripts, first, early, AppendAll(source, SortBySetup(scripts)))
  {
    var e, last := Early(scripts), scripts[|scripts| - 1];
    EarlyInOrder(source, scripts);
    SortedFits(source, scripts);
    PlainThenSetup(source, e);
    LateSortsLast(scripts);
    first, early := AppendAll(source, Those(e, false)), Contents(source, Those(e, true));
    var sorted := SortBySetup(scripts);
    assert sorted[..|sorted| - 1] == SortBySetup(e);
  }

  // ---- which bytes lie in a script ----

  lemma InsideLate(scripts: seq<SfcBlock>, k: nat)
    requires scripts != []
    ensures var last := scripts[|scripts| - 1];
      Inside(scripts, k) <==> Inside(Early(scripts), k) || last.contentStart <= k < last.contentEnd
  {
    InsideSnoc(scripts, k);
  }

  /** A byte of a script is in a plain one, or in a setup one. */
  lemma InsideEither(scripts: seq<SfcBlock>, k: nat)
    ensures Inside(scripts, k) <==> Inside(Those(scripts, false), k) || Inside(Those(scripts, true), k)
  {
    if Inside(Those(scripts, false), k) {
      InsideThose(scripts, false, k);
    }
    if Inside(Those(scripts, true), k) {
      InsideThose(scripts, true, k);
    }
    if Inside(scripts, k) {
      var j :| 0 <= j < |scripts| && scripts[j].contentStart <= k < scripts[j].contentEnd;
      var those := Those(scripts, IsSetup(scripts[j]));
      ThoseMembers(scripts, IsSetup(scripts[j]), scripts[j]);
      var i :| 0 <= i < |those| && those[i] == scripts[j];
    }
  }

  lemma InsideThose(scripts: seq<SfcBlock>, setup: bool, k: nat)
    requires Inside(Those(scripts, setup), k)
    ensures Inside(scripts, k)
  {
    var those := Those(scripts, setup);
    var j :| 0 <= j < |those| && those[j].contentStart <= k < those[j].contentEnd;
    assert those[j] in those;
    ThoseMembers(scripts, setup, those[j]);
    var i :| 0 <= i < |scripts| && scripts[i] == those[j];
  }

  /** A byte of a script is among the contents. */
  lemma {:induction false} InContents(source: string, scripts: seq<SfcBlock>, k: nat)
    requires Fits(source, scripts) && Inside(scripts, k)
    ensures k < |source| && source[k] in Contents(source, scripts)
  {
    var rest, last := scripts[..|scripts| - 1], scripts[|scripts| - 1];
    InsideSnoc(scripts, k);
    if Inside(rest, k) {
      InContents(source, rest, k);
    } else {
      assert source[last.contentStart..last.contentEnd][k - last.contentStart] == source[k];
    }
  }

  lemma NothingAfter(source: string, scripts: seq<SfcBlock>, k: nat)
    requires InOrder(source, scripts) && EndOf(scripts) <= k
    ensures !Inside(scripts, k)
  {
    forall j | 0 <= j < |scripts| ensures scripts[j].contentEnd <= k {
      assert j < |scripts| - 1 ==> scripts[j].contentEnd <= scripts[|scripts| - 1].contentStart;
    }
  }

  // ---- the condition ----

  /** The early contents end before the late script starts, and repeat the blanked source they lie on. */
  predicate Repeats(source: string, from: nat, early: string, to: nat)
    requires to <= |source|
  {
    from + |early| <= to && early == Blanked(source[from..from + |early|])
  }

  /** With the early contents out of the way the late script is at its place. */
  lemma LateParts(source: string, before: string, last: SfcBlock, payload: string)
    requires last.contentStart <= last.contentEnd <= |source| && |before| <= last.contentStart
    requires payload == Append(source, before, last)
    ensures |payload| == last.contentEnd && payload[..|before|] == before
    ensures forall k :: |before| <= k < last.contentStart ==> payload[k] == Blank(source[k])
    ensures forall k :: last.contentStart <= k < last.contentEnd ==> payload[k] == source[k]
  {
  }

  lemma MaskRepeats(source: string, scripts: seq<SfcBlock>, first: string, early: string, payload: string)
    requires OneLate(source, scripts) && PayloadIs(source, scripts, first, early, payload)
    requires IsMask(source, scripts, payload)
    ensures Repeats(source, |first|, early, scripts[|scripts| - 1].contentStart)
  {
    var last := scripts[|scripts| - 1];
    var before := first + early;
    assert |before| <= last.contentStart;
    LateParts(source, before, last, payload);
    EarlyInOrder(source, scripts);
    var under := source[|first|..|first| + |early|];
    forall j | 0 <= j < |early| ensures early[j] == Blank(under[j]) {
      var k := |first| + j;
      assert payload[k] == before[k] == early[j];
      NothingAfter(source, Early(scripts), k);
      InsideLate(scripts, k);
      assert !Inside(scripts, k);
      assert under[j] == source[k];
    }
    assert early == Blanked(under);
  }

  lemma BlankText(source: string, from: nat, early: string, to: nat, c: char)
    requires to <= |source| && Repeats(source, from, early, to) && c in early
    ensures Blank(c) == c
  {
    var k :| 0 <= k < |early| && early[k] == c;
  }

  /** Before the last plain script ends: a setup byte is a blank, and a blank is what the mask holds too. */
  lemma FrontAgrees(source: string, scripts: seq<SfcBlock>, first: string, early: string, k: nat)
    requires OneLate(source, scripts) && k < |first| == EndOf(Early(scripts))
    requires IsMask(source, Those(Early(scripts), false), first)
    requires Fits(source, Those(Early(scripts), true)) && early == Contents(source, Those(Early(scripts), true))
    requires Repeats(source, |first|, early, scripts[|scripts| - 1].contentStart)
    ensures first[k] == if Inside(scripts, k) then source[k] else Blank(source[k])
  {
    var e := Early(scripts);
    EarlyInOrder(source, scripts);
    InsideLate(scripts, k);
    InsideEither(e, k);
    if Inside(e, k) && !Inside(Those(e, false), k) {
      InContents(source, Those(e, true), k);
      BlankText(source, |first|, early, scripts[|scripts| - 1].contentStart, source[k]);
    }
  }

  /** Between the last plain script and the late one: the early contents are what the mask holds. */
  lemma MiddleAgrees(source: string, scripts: seq<SfcBlock>, from: nat, early: string, k: nat)
    requires OneLate(source, scripts) && from == EndOf(Early(scripts)) <= k < from + |early|
    requires Repeats(source, from, early, scripts[|scripts| - 1].contentStart)
    ensures !Inside(scripts, k) && early[k - from] == Blank(source[k])
  {
    EarlyInOrder(source, scripts);
    NothingAfter(source, Early(scripts), k);
    InsideLate(scripts, k);
    assert source[from..from + |early|][k - from] == source[k];
  }

  /** Behind that: blanks, and then the late script. */
  lemma EndAgrees(source: string, scripts: seq<SfcBlock>, k: nat)
    requires OneLate(source, scripts) && EndOf(Early(scripts)) <= k
    ensures var last := scripts[|scripts| - 1]; Inside(scripts, k) <==> last.contentStart <= k < last.contentEnd
  {
    EarlyInOrder(source, scripts);
    NothingAfter(source, Early(scripts), k);
    InsideLate(scripts, k);
  }

  lemma RepeatsMask(source: string, scripts: seq<SfcBlock>, first: string, early: string, payload: string)
    requires OneLate(source, scripts) && PayloadIs(source, scripts, first, early, payload)
    requires Fits(source, Those(Early(scripts), true)) && early == Contents(source, Those(Early(scripts), true))
    requires Repeats(source, |first|, early, scripts[|scripts| - 1].contentStart)
    ensures IsMask(source, scripts, payload)
  {
    var last := scripts[|scripts| - 1];
    var before := first + early;
    LateParts(source, before, last, payload);
    forall k | 0 <= k < |payload| ensures payload[k] == if Inside(scripts, k) then source[k] else Blank(source[k]) {
      assert k < |before| ==> payload[k] == payload[..|before|][k] == before[k];
      if k < |first| {
        FrontAgrees(source, scripts, first, early, k);
      } else if k < |before| {
        MiddleAgrees(source, scripts, |first|, early, k);
      } else {
        EndAgrees(source, scripts, k);
      }
    }
  }

  /**
   With one setup script behind the last plain one, the payload is the mask exactly when
   the early setup contents, if any, are the blanked source right behind the last plain
   script and end before the late one starts.
   */
  lemma LateSetupIff(source: string, scripts: seq<SfcBlock>)
    requires OneLate(source, scripts)
    ensures Fits(source, SortBySetup(scripts)) && Fits(source, Those(Early(scripts), true))
    ensures IsMask(source, scripts, AppendAll(source, SortBySetup(scripts))) <==>
      Repeats(source, EndOf(Early(scripts)), Contents(source, Those(Early(scripts), true)),
        scripts[|scripts| - 1].contentStart)
  {
    var first, early := LatePayload(source, scripts);
    var payload := AppendAll(source, SortBySetup(scripts));
    if IsMask(source, scripts, payload) {
      MaskRepeats(source, scripts, first, early, payload);
    }
    if Repeats(source, |first|, early, scripts[|scripts| - 1].contentStart) {
      RepeatsMask(source, scripts, first, early, payload);
    }
  }
}
