/**
 Re-spacing of a type rendered from a token stream: which spaces survive between
 tokens, although a second pass sees the tokens that the first one merged.
 */
module Signature {
  import opened Prelude

  // ---- words ----

  /** `split_whitespace` */
  function Words(s: string): (r: seq<string>)
    ensures s != "" && !IsSpace(s[0]) ==> r != []
  {
    if s == "" then []
    else if IsSpace(s[0]) then Words(s[1..])
    else if |s| > 1 && !IsSpace(s[1]) then
      var rest := Words(s[1..]);
      [[s[0]] + rest[0]] + rest[1..]
    else [[s[0]]] + Words(s[1..])
  }

  predicate IsWord(w: string) {
    w != "" && forall k :: 0 <= k < |w| ==> !IsSpace(w[k])
  }

  ghost predicate AllWords(ws: seq<string>) {
    forall k :: 0 <= k < |ws| ==> IsWord(ws[k])
  }

  function JoinSpaced(ws: seq<string>): string {
    if ws == [] then ""
    else if |ws| == 1 then ws[0]
    else JoinSpaced(ws[..|ws| - 1]) + " " + ws[|ws| - 1]
  }

  lemma {:induction false} WordsAreWords(s: string)
    ensures AllWords(Words(s))
  {
    if s != "" {
      WordsAreWords(s[1..]);
    }
  }

  lemma {:induction false} WordsOfWord(w: string)
    requires IsWord(w)
    ensures Words(w) == [w]
  {
    if |w| > 1 {
      WordsOfWord(w[1..]);
      assert [w[0]] + w[1..] == w;
    } else {
      assert w[1..] == "";
      assert w == [w[0]];
    }
  }

  /** Every whitespace character separates: the words before it, then the words behind it. */
  lemma {:induction false} WordsCut(s: string, i: nat)
    requires i < |s| && IsSpace(s[i])
    ensures Words(s) == Words(s[..i]) + Words(s[i + 1..])
  {
    var a, b := s[..i], s[i + 1..];
    if i > 0 {
      WordsCut(s[1..], i - 1);
      assert s[1..][..i - 1] == a[1..] && s[1..][i..] == b;
      if !IsSpace(s[0]) {
        CutsAlike(s[0], i == 1 || IsSpace(s[1]), Words(a[1..]), Words(b), Words(s[1..]), a);
      }
    } else {
      assert [] + Words(b) == Words(b);
    }
  }

  lemma CutsAlike(c: char, alone: bool, before: seq<string>, after: seq<string>, rest: seq<string>, a: string)
    requires rest == before + after && a != "" && a[0] == c && !IsSpace(c) && before == Words(a[1..])
    requires alone <==> |a| == 1 || IsSpace(a[1])
    ensures alone ==> [[c]] + rest == Words(a) + after
    ensures !alone ==> before != [] && rest != [] && [[c] + rest[0]] + rest[1..] == Words(a) + after
  {
    if alone {
      Associates([[c]], before, after);
    } else {
      assert rest[0] == before[0] && rest[1..] == before[1..] + after;
      Associates([[c] + before[0]], before[1..], after);
    }
  }

  lemma WordsSnoc(a: string, w: string)
    requires IsWord(w)
    ensures Words(a + " " + w) == Words(a) + [w]
  {
    var s := a + " " + w;
    assert s[..|a|] == a && s[|a| + 1..] == w;
    WordsCut(s, |a|);
    WordsOfWord(w);
  }

  lemma {:induction false} WordsOfJoin(ws: seq<string>)
    requires AllWords(ws)
    ensures Words(JoinSpaced(ws)) == ws
  {
    if |ws| == 1 {
      WordsOfWord(ws[0]);
    } else if |ws| > 1 {
      var init, last := ws[..|ws| - 1], ws[|ws| - 1];
      WordsOfJoin(init);
      WordsSnoc(JoinSpaced(init), last);
    }
  }

  function NormalizeDisplay(s: string): string { JoinSpaced(Words(s)) }

  // ---- the re-spacer ----

  predicate NeedsSpace(prev: string, curr: string) {
    && curr !in {">", ")", "]", ",", ";", ":"}
    && curr !in {"<", "(", "["}
    && prev !in {"<", "(", "[", "&", "'"}
    && prev != "::" && curr != "::"
  }

  function Spaced(tokens: seq<string>): string {
    if tokens == [] then "" else
    var n := |tokens| - 1;
    if n == 0 then tokens[0] else
    Spaced(tokens[..n]) + (if NeedsSpace(tokens[n - 1], tokens[n]) then " " else "") + tokens[n]
  }

  function Compact(s: string): string { Spaced(Words(s)) }

  method CompactRustTokens(s: string) returns (out: string)
    ensures out == Compact(s)
    ensures NonSpace(out) == NonSpace(s)
  {
    var tokens := Words(s);
    out := "";
    for i := 0 to |tokens|
      invariant out == Spaced(tokens[..i])
    {
      assert tokens[..i + 1][..i] == tokens[..i];
      if i > 0 {
        var prev := tokens[i - 1];
        if NeedsSpace(prev, tokens[i]) {
          out := out + " ";
        }
      }
      out := out + tokens[i];
    }
    assert tokens[..|tokens|] == tokens;
    CompactKeepsCharacters(s);
  }

  // ---- no character is lost ----

  function NonSpace(s: string): string {
    if s == "" then "" else (if IsSpace(s[0]) then "" else [s[0]]) + NonSpace(s[1..])
  }

  function Concat(ws: seq<string>): string {
    if ws == [] then "" else ws[0] + Concat(ws[1..])
  }

  lemma {:induction false} NonSpaceIsWords(s: string)
    ensures NonSpace(s) == Concat(Words(s))
  {
    if s != "" {
      NonSpaceIsWords(s[1..]);
      if !IsSpace(s[0]) {
        if |s| > 1 && !IsSpace(s[1]) {
          var rest := Words(s[1..]);
          assert ([[s[0]] + rest[0]] + rest[1..])[1..] == rest[1..];
          Associates([s[0]], rest[0], Concat(rest[1..]));
        } else {
          assert ([[s[0]]] + Words(s[1..]))[1..] == Words(s[1..]);
        }
      }
    }
  }

  lemma {:induction false} NonSpaceAppend(a: string, b: string)
    ensures NonSpace(a + b) == NonSpace(a) + NonSpace(b)
  {
    if a == "" {
      assert a + b == b;
    } else {
      assert (a + b)[1..] == a[1..] + b;
      NonSpaceAppend(a[1..], b);
    }
  }

  lemma {:induction false} NonSpaceOfWord(w: string)
    requires forall k :: 0 <= k < |w| ==> !IsSpace(w[k])
    ensures NonSpace(w) == w
  {
    if w != "" {
      NonSpaceOfWord(w[1..]);
      assert [w[0]] + w[1..] == w;
    }
  }

  lemma {:induction false} ConcatSnoc(ws: seq<string>, w: string)
    ensures Concat(ws + [w]) == Concat(ws) + w
  {
    if ws == [] {
      assert [w][1..] == [];
    } else {
      assert (ws + [w])[1..] == ws[1..] + [w];
      ConcatSnoc(ws[1..], w);
    }
  }

  lemma AppendKeeps(head: string, sep: string, w: string)
    requires NonSpace(sep) == "" && NonSpace(w) == w
    ensures NonSpace(head + sep + w) == NonSpace(head) + w
  {
    NonSpaceAppend(head + sep, w);
    NonSpaceAppend(head, sep);
    assert NonSpace(head) + "" == NonSpace(head);
  }

  lemma {:induction false} OnlySpace(sep: string)
    requires forall k :: 0 <= k < |sep| ==> IsSpace(sep[k])
    ensures NonSpace(sep) == ""
  {
    if sep != "" {
      OnlySpace(sep[1..]);
    }
  }

  lemma {:induction false} SpacedKeepsCharacters(tokens: seq<string>)
    requires AllWords(tokens)
    ensures NonSpace(Spaced(tokens)) == Concat(tokens)
  {
    if |tokens| == 1 {
      assert IsWord(tokens[0]);
      NonSpaceOfWord(tokens[0]);
      assert tokens[1..] == [];
    } else if tokens != [] {
      var n := |tokens| - 1;
      SpacedKeepsCharacters(tokens[..n]);
      assert IsWord(tokens[n]);
      NonSpaceOfWord(tokens[n]);
      var sep := if NeedsSpace(tokens[n - 1], tokens[n]) then " " else "";
      OnlySpace(sep);
      AppendKeeps(Spaced(tokens[..n]), sep, tokens[n]);
      assert tokens == tokens[..n] + [tokens[n]];
      ConcatSnoc(tokens[..n], tokens[n]);
    }
  }

  lemma CompactKeepsCharacters(s: string)
    ensures NonSpace(Compact(s)) == NonSpace(s)
  {
    WordsAreWords(s);
    SpacedKeepsCharacters(Words(s));
    NonSpaceIsWords(s);
  }

  // ---- what a second pass sees ----

  /** The tokens of the output: runs of tokens with no space between them. */
  function Groups(tokens: seq<string>): (gs: seq<string>)
    ensures tokens != [] ==> gs != []
  {
    if tokens == [] then [] else
    var n := |tokens| - 1;
    if n == 0 then tokens else
    var before := Groups(tokens[..n]);
    if NeedsSpace(tokens[n - 1], tokens[n]) then before + [tokens[n]]
    else before[..|before| - 1] + [before[|before| - 1] + tokens[n]]
  }

  lemma {:induction false} JoinSnoc(gs: seq<string>, t: string)
    requires gs != []
    ensures JoinSpaced(gs + [t]) == JoinSpaced(gs) + " " + t
  {
    assert (gs + [t])[..|gs|] == gs;
  }

  lemma {:induction false} JoinExtend(gs: seq<string>, t: string)
    requires gs != []
    ensures JoinSpaced(gs[..|gs| - 1] + [gs[|gs| - 1] + t]) == JoinSpaced(gs) + t
  {
    var m := |gs| - 1;
    var longer := gs[..m] + [gs[m] + t];
    assert longer[..m] == gs[..m];
    if m > 0 {
      assert JoinSpaced(gs[..m]) + " " + (gs[m] + t) == JoinSpaced(gs[..m]) + " " + gs[m] + t;
    }
  }

  lemma {:induction false} SpacedIsGroups(tokens: seq<string>)
    requires AllWords(tokens)
    ensures Spaced(tokens) == JoinSpaced(Groups(tokens)) && AllWords(Groups(tokens))
  {
    if |tokens| > 1 {
      var n := |tokens| - 1;
      var before, t := Groups(tokens[..n]), tokens[n];
      SpacedIsGroups(tokens[..n]);
      assert IsWord(t);
      if NeedsSpace(tokens[n - 1], t) {
        JoinSnoc(before, t);
      } else {
        JoinExtend(before, t);
        assert IsWord(before[|before| - 1]);
      }
    }
  }

  lemma WordsOfCompact(s: string)
    ensures Words(Compact(s)) == Groups(Words(s))
  {
    WordsAreWords(s);
    SpacedIsGroups(Words(s));
    WordsOfJoin(Groups(Words(s)));
  }

  /** Every boundary between tokens needs its space. */
  ghost predicate Stable(ts: seq<string>) {
    forall k :: 0 < k < |ts| ==> NeedsSpace(ts[k - 1], ts[k])
  }

  /** Spaces can only be lost; the output keeps all of them exactly when each is needed. */
  lemma {:induction false} SpacedIsJoined(ts: seq<string>)
    ensures |Spaced(ts)| <= |JoinSpaced(ts)|
    ensures Spaced(ts) == JoinSpaced(ts) <==> Stable(ts)
  {
    if |ts| > 1 {
      var n := |ts| - 1;
      var init := ts[..n];
      SpacedIsJoined(init);
      if Stable(init) && NeedsSpace(ts[n - 1], ts[n]) {
        forall k | 0 < k < |ts| ensures NeedsSpace(ts[k - 1], ts[k]) {
          if k < n { assert init[k] == ts[k] && init[k - 1] == ts[k - 1]; }
        }
      } else if Stable(ts) {
        forall k | 0 < k < n ensures NeedsSpace(init[k - 1], init[k]) {
          assert init[k] == ts[k] && init[k - 1] == ts[k - 1];
        }
      } else if !Stable(init) {
        if Spaced(ts) == JoinSpaced(ts) {
          PrefixOfEqual(Spaced(init), " ", ts[n], JoinSpaced(init));
        }
      }
    }
  }

  lemma PrefixOfEqual(a: string, sep: string, w: string, b: string)
    requires |a| <= |b| && (a + sep + w == b + " " + w || a + w == b + " " + w) && |sep| == 1
    ensures a == b
  {
    assert |a| == |b|;
    assert (a + sep + w)[..|a|] == a && (b + " " + w)[..|b|] == b;
  }

  lemma IdempotentIffStable(s: string)
    ensures Compact(Compact(s)) == Compact(s) <==> Stable(Groups(Words(s)))
  {
    WordsOfCompact(s);
    WordsAreWords(s);
    SpacedIsGroups(Words(s));
    SpacedIsJoined(Groups(Words(s)));
  }

  // ---- which groups need their spaces ----

  /** The first two tokens are lone colons, and a third token keeps its distance. */
  predicate SplitPathSep(ts: seq<string>) {
    |ts| >= 3 && ts[0] == ":" && ts[1] == ":" && NeedsSpace(":", ts[2])
  }

  /** A token that never starts a group but the first. */
  predicate Clings(w: string) {
    w in {">", ")", "]", ",", ";", ":", "<", "(", "[", "::"}
  }

  /** A token that never ends a group but the last. */
  predicate Grabs(w: string) {
    w in {"<", "(", "[", "&", "'", "::"}
  }

  lemma NeedsSpaceIs(prev: string, curr: string)
    ensures NeedsSpace(prev, curr) <==> !Grabs(prev) && !Clings(curr)
  {
  }

  /** The last group is the last token, or longer than it; and only two first colons make a `::`. */
  ghost predicate LastGroup(ts: seq<string>, gs: seq<string>)
    requires ts != [] && gs != []
  {
    var g, t := gs[|gs| - 1], ts[|ts| - 1];
    || (g == t && (|gs| == 1 ==> |ts| == 1))
    || (|g| >= 2 && (g == "::" ==> ts == [":", ":"] && |gs| == 1))
  }

  ghost predicate Cling(ts: seq<string>, gs: seq<string>)
    requires ts != [] && gs != []
  {
    LastGroup(ts, gs) && forall k :: 0 < k < |gs| ==> !Clings(gs[k])
  }

  lemma {:induction false} GroupsCling(ts: seq<string>)
    requires AllWords(ts) && ts != []
    ensures Cling(ts, Groups(ts))
  {
    if |ts| > 1 {
      var n := |ts| - 1;
      var before, t, p := Groups(ts[..n]), ts[n], ts[n - 1];
      GroupsCling(ts[..n]);
      SpacedIsGroups(ts[..n]);
      NeedsSpaceIs(p, t);
      assert IsWord(t) && IsWord(p);
      if !NeedsSpace(p, t) {
        ExtendGroup(ts, before, t);
      }
    }
  }

  lemma ExtendGroup(ts: seq<string>, before: seq<string>, t: string)
    requires |ts| > 1 && t == ts[|ts| - 1] && AllWords(ts) && before != [] && Cling(ts[..|ts| - 1], before)
    requires AllWords(before)
    ensures Cling(ts, before[..|before| - 1] + [before[|before| - 1] + t])
  {
    var m := |before| - 1;
    var g := before[m] + t;
    assert IsWord(before[m]) && IsWord(t);
    if g == "::" {
      assert g[0] == ':' && g[1] == ':';
      assert before[m] == ":" && t == ":";
      assert ts[..|ts| - 1] == [":"];
      assert ts == ts[..|ts| - 1] + [t];
    }
    if Clings(g) {
      assert g == "::";
    }
  }

  /** A last group that is not its last token grabs only as a split `::`. */
  lemma LastGroupGrabs(ts: seq<string>, gs: seq<string>)
    requires ts != [] && gs != [] && LastGroup(ts, gs) && Grabs(gs[|gs| - 1]) && !Grabs(ts[|ts| - 1])
    ensures ts == [":", ":"] && |gs| == 1
  {
  }

  lemma SplitThird(ts: seq<string>)
    requires |ts| >= 1 && ts[..|ts| - 1] == [":", ":"] && NeedsSpace(ts[|ts| - 2], ts[|ts| - 1])
    ensures SplitPathSep(ts)
  {
    assert ts[0] == ts[..|ts| - 1][0] && ts[1] == ts[..|ts| - 1][1];
  }

  /** Within the groups before the last, none grabs what follows it, but for the split `::`. */
  lemma {:induction false} GroupsDoNotGrab(ts: seq<string>, k: nat)
    requires AllWords(ts) && ts != [] && k + 1 < |Groups(ts)| && Grabs(Groups(ts)[k])
    ensures k == 0 && SplitPathSep(ts)
  {
    var n := |ts| - 1;
    if n > 0 {
      var init, before := ts[..n], Groups(ts[..n]);
      assert before[k] == Groups(ts)[k];
      if k + 1 < |before| {
        GroupsDoNotGrab(init, k);
        assert ts[0] == init[0] && ts[1] == init[1] && ts[2] == init[2];
      } else {
        NeedsSpaceIs(ts[n - 1], ts[n]);
        GroupsCling(init);
        assert init[n - 1] == ts[n - 1];
        LastGroupGrabs(init, before);
        SplitThird(ts);
      }
    }
  }

  lemma {:induction false} SplitPathSepGroups(ts: seq<string>)
    requires SplitPathSep(ts)
    ensures |Groups(ts)| >= 2 && Groups(ts)[0] == "::"
  {
    var n := |ts| - 1;
    if n == 2 {
      assert ts[..2] == [":", ":"];
      assert [":", ":"][..1] == [":"];
      assert !NeedsSpace(":", ":");
      assert Groups([":", ":"]) == [":" + ":"];
    } else {
      SplitPathSepGroups(ts[..n]);
    }
  }

  lemma StableIff(ts: seq<string>)
    requires AllWords(ts)
    ensures Stable(Groups(ts)) <==> !SplitPathSep(ts)
  {
    var gs := Groups(ts);
    if SplitPathSep(ts) {
      SplitPathSepGroups(ts);
      assert !NeedsSpace(gs[0], gs[1]);
    } else if ts != [] {
      GroupsCling(ts);
      forall k | 0 < k < |gs| ensures NeedsSpace(gs[k - 1], gs[k]) {
        NeedsSpaceIs(gs[k - 1], gs[k]);
        if Grabs(gs[k - 1]) { GroupsDoNotGrab(ts, k - 1); }
      }
    }
  }

  /** A second pass changes nothing exactly when the first did not form a `::` out of its first two tokens. */
  lemma CompactTwiceIff(s: string)
    ensures Compact(Compact(s)) == Compact(s) <==> !SplitPathSep(Words(s))
  {
    WordsAreWords(s);
    IdempotentIffStable(s);
    StableIff(Words(s));
  }

  /** On compact input, and so from the second pass on, it is idempotent. */
  lemma CompactIsStableFromTheSecondPass(s: string)
    ensures Compact(Compact(Compact(s))) == Compact(Compact(s))
  {
    CompactTwiceIff(Compact(s));
    WordsOfCompact(s);
    WordsAreWords(s);
    if Words(s) != [] {
      GroupsCling(Words(s));
    }
  }

  /** Two colons and any word after them: the first pass keeps a space that the second removes. */
  lemma SplitColonsExample(colon: string, x: string)
    requires colon == ":" && IsWord(x) && NeedsSpace(colon, x)
    ensures var s := colon + " " + colon + " " + x; Compact(Compact(s)) != Compact(s)
  {
    var two := colon + " " + colon;
    WordsOfWord(colon);
    WordsSnoc(colon, colon);
    WordsSnoc(two, x);
    CompactTwiceIff(two + " " + x);
  }

  // ---- beside the generic normaliser ----

  /** Normalising is idempotent, does not change what compacting gives, and leaves compact text alone. */
  lemma NormalizeAndCompact(s: string)
    ensures NormalizeDisplay(NormalizeDisplay(s)) == NormalizeDisplay(s)
    ensures Compact(NormalizeDisplay(s)) == Compact(s)
    ensures NormalizeDisplay(Compact(s)) == Compact(s)
  {
    WordsAreWords(s);
    WordsOfJoin(Words(s));
    WordsOfCompact(s);
    SpacedIsGroups(Words(s));
  }
}
