/**
 A second reading of a component, by grammar instead of by scanner: a source is a run of
 plain bytes, comments, empty tags, tags that nothing closes and blocks, each said by
 where it starts and ends. The extracted blocks are exactly the ones written, and every
 source reads this way.
 */
module SfcGrammar {
  import opened Prelude
  import opened SfcScanner
  import opened SfcBlocks
  import opened SfcPayload

  /** The bytes the grammar tells apart. */
  lemma ByteClasses(c: char)
    ensures IsAlphabetic(c) <==> IsLetterCode(c as int)
    ensures IsNameByte(c) <==> IsLetterCode(c as int) || 48 <= c as int <= 57 || c in {'-', '_'}
    ensures IsAttributeByte(c) <==> IsNameByte(c) || c in {':', '@'}
    ensures IsWhitespace(c) <==> c as int in {9, 10, 12, 13, 32}
  {
  }

  /** The codes of the letters, upper case and lower case. */
  predicate IsLetterCode(n: int) { 65 <= n <= 90 || 97 <= n <= 122 }

  // ---- opening tags ----

  /** What stands between a tag's name and its end; `eq` is where the blanks behind a name end, `start` its value. */
  datatype Item = Blank | Stray | Attr(name: string, eq: nat, start: nat, value: Option<string>)

  ghost predicate AllBlank(b: string, from: int, to: int) {
    0 <= from <= to <= |b| && (forall k :: from <= k < to ==> IsWhitespace(b[k])) &&
    (to < |b| ==> !IsWhitespace(b[to]))
  }

  /** What follows a name: nothing, an `=` at the very end, a quoted value or a bare one. */
  ghost predicate ValueIs(b: string, e: nat, eq: nat, start: nat, value: Option<string>, j: nat) {
    AllBlank(b, e, eq) &&
    if eq == |b| || b[eq] != '=' then value == None && j == e
    else AllBlank(b, eq + 1, start) && AssignedIs(b, start, value, j)
  }

  ghost predicate AssignedIs(b: string, start: nat, value: Option<string>, j: nat)
    requires start <= |b|
  {
    if start == |b| then value == None && j == start
    else if value.None? then false
    else if b[start] == '"' || b[start] == '\'' then QuotedIs(b, start, value.value, j)
    else BareIs(b, start, value.value, j)
  }

  ghost predicate QuotedIs(b: string, start: nat, v: string, j: nat)
    requires start < |b|
  {
    var end := start + 1 + |v|;
    && end <= |b| && b[start + 1..end] == v && (forall k :: start < k < end ==> b[k] != b[start])
    && (if end < |b| then b[end] == b[start] && j == end + 1 else j == end)
  }

  ghost predicate BareIs(b: string, start: nat, v: string, j: nat) {
    && start <= j == start + |v| <= |b| && b[start..j] == v
    && (forall k :: start <= k < j ==> !IsWhitespace(b[k]) && b[k] != '>' && b[k] != '/')
    && (j < |b| ==> IsWhitespace(b[j]) || b[j] == '>' || b[j] == '/')
  }

  ghost predicate IsSlashGt(b: string, i: nat) { i + 1 < |b| && b[i] == '/' && b[i + 1] == '>' }

  ghost predicate ItemAt(b: string, i: nat, item: Item, j: nat) {
    i < |b| &&
    match item
    case Blank => IsWhitespace(b[i]) && j == i + 1
    case Stray =>
      !IsWhitespace(b[i]) && !IsAttributeByte(b[i]) && b[i] != '>' && !IsSlashGt(b, i) && j == i + 1
    case Attr(name, eq, start, value) =>
      var e := i + |name|;
      && name != "" && e <= |b| && b[i..e] == name && (forall k :: i <= k < e ==> IsAttributeByte(b[k]))
      && (e < |b| ==> !IsAttributeByte(b[e])) && ValueIs(b, e, eq, start, value, j) && e <= j <= |b|
  }

  ghost predicate ItemsAt(b: string, i: nat, items: seq<Item>, j: nat)
    decreases |items|
  {
    if items == [] then i == j && j <= |b|
    else exists k :: i < k <= |b| && ItemAt(b, i, items[0], k) && ItemsAt(b, k, items[1..], j)
  }

  /** What an item adds to the attributes. */
  function AttributeOf(item: Item): seq<Attribute> {
    if item.Attr? then [(item.name, item.value)] else []
  }

  function AttributesOf(items: seq<Item>): seq<Attribute> {
    if items == [] then [] else
    AttributeOf(items[0]) + AttributesOf(items[1..])
  }

  /** The tag ends here: with `>`, with `/>`, or with the source. */
  ghost predicate EndsAt(b: string, close: nat, selfClosing: bool) {
    if selfClosing then IsSlashGt(b, close) else close == |b| || (close < |b| && b[close] == '>')
  }

  // ---- the scanner reads it so ----

  lemma {:induction false} RunIs(b: string, i: nat, end: nat, p: char -> bool)
    requires i <= end <= |b| && (forall k :: i <= k < end ==> p(b[k])) && (end < |b| ==> !p(b[end]))
    ensures RunEnd(b, i, p) == end
    decreases end - i
  {
    if i < end {
      RunIs(b, i + 1, end, p);
    }
  }

  lemma {:induction false} QuoteIs(b: string, i: nat, end: nat, quote: char)
    requires i <= end <= |b| && (forall k :: i <= k < end ==> b[k] != quote) && (end < |b| ==> b[end] == quote)
    ensures QuoteEnd(b, i, quote) == end
    decreases end - i
  {
    if i < end {
      QuoteIs(b, i + 1, end, quote);
    }
  }

  lemma {:induction false} AssignedReads(b: string, eq: nat, start: nat, value: Option<string>, j: nat)
    requires eq < |b| && AllBlank(b, eq + 1, start) && AssignedIs(b, start, value, j)
    ensures AssignedAt(b, eq + 1) == (value, j)
  {
    RunIs(b, eq + 1, start, IsWhitespace);
    if start < |b| {
      var v := value.value;
      if b[start] == '"' || b[start] == '\'' {
        QuoteIs(b, start + 1, start + 1 + |v|, b[start]);
      } else {
        RunIs(b, start, j, IsBareByte);
      }
    }
  }

  ghost function AssignedAt(b: string, from: nat): (Option<string>, nat)
    requires from <= |b|
  {
    var start := RunEnd(b, from, IsWhitespace);
    if start == |b| then (None, start)
    else if b[start] == '"' || b[start] == '\'' then
      var end := QuoteEnd(b, start + 1, b[start]);
      (Some(b[start + 1..end]), if end < |b| then end + 1 else end)
    else
      var end := RunEnd(b, start, IsBareByte);
      (Some(b[start..end]), end)
  }

  lemma {:induction false} ValueSplits(b: string, e: nat, eq: nat)
    requires e <= |b| && RunEnd(b, e, IsWhitespace) == eq
    ensures ValueAt(b, e) == if eq == |b| || b[eq] != '=' then (None, e) else AssignedAt(b, eq + 1)
  {
  }

  /** The value of an attribute is the one the grammar gives it. */
  lemma {:induction false} ValueReads(b: string, e: nat, eq: nat, start: nat, value: Option<string>, j: nat)
    requires ValueIs(b, e, eq, start, value, j)
    ensures e <= |b| && ValueAt(b, e) == (value, j)
  {
    RunIs(b, e, eq, IsWhitespace);
    ValueSplits(b, e, eq);
    if eq < |b| && b[eq] == '=' {
      AssignedReads(b, eq, start, value, j);
    }
  }

  /** Every name is followed by one of these. */
  lemma {:induction false} ValueParses(b: string, e: nat) returns (eq: nat, start: nat, value: Option<string>, j: nat)
    requires e <= |b|
    ensures ValueIs(b, e, eq, start, value, j) && e <= j <= |b|
  {
    eq := RunEnd(b, e, IsWhitespace);
    if eq == |b| || b[eq] != '=' {
      return eq, eq, None, e;
    }
    start := RunEnd(b, eq + 1, IsWhitespace);
    value, j := AssignedParses(b, start);
  }

  lemma {:induction false} AssignedParses(b: string, start: nat) returns (value: Option<string>, j: nat)
    requires start <= |b|
    ensures AssignedIs(b, start, value, j) && start <= j <= |b|
  {
    if start == |b| {
      return None, start;
    }
    if b[start] == '"' || b[start] == '\'' {
      var end := QuoteEnd(b, start + 1, b[start]);
      value, j := Some(b[start + 1..end]), if end < |b| then end + 1 else end;
    } else {
      j := RunEnd(b, start, IsBareByte);
      value := Some(b[start..j]);
    }
  }

  lemma SlashGtIs(b: string, i: nat)
    ensures IsSlashGt(b, i) <==> StartsAt(b, i, "/>")
  {
    if i + 2 <= |b| {
      assert b[i..i + 2] == [b[i], b[i + 1]];
    }
  }

  lemma {:induction false} AttrReads(
    b: string, i: nat, e: nat, value: Option<string>, k: nat, soFar: seq<Attribute>)
    requires i < e <= |b| && (forall k :: i <= k < e ==> IsAttributeByte(b[k])) && (e < |b| ==> !IsAttributeByte(b[e]))
    requires ValueAt(b, e) == (value, k)
    ensures TagFrom(b, i, soFar) == TagFrom(b, k, soFar + [(b[i..e], value)])
  {
    RunIs(b, i, e, IsAttributeByte);
    AttributeTurn(b, i, e, soFar);
  }

  lemma {:induction false} OtherReads(b: string, i: nat, item: Item, k: nat, soFar: seq<Attribute>)
    requires ItemAt(b, i, item, k) && !item.Attr?
    ensures i < k && TagFrom(b, i, soFar) == TagFrom(b, k, soFar)
  {
    if item.Stray? {
      SlashGtIs(b, i);
      RunIs(b, i, i, IsAttributeByte);
    }
  }

  lemma {:induction false} AttrItemReads(b: string, i: nat, item: Item, k: nat, soFar: seq<Attribute>)
    requires item.Attr? && ItemAt(b, i, item, k)
    ensures TagFrom(b, i, soFar) == TagFrom(b, k, soFar + [(item.name, item.value)])
  {
    var e := i + |item.name|;
    ValueReads(b, e, item.eq, item.start, item.value, k);
    AttrReads(b, i, e, item.value, k, soFar);
  }

  lemma {:induction false} ItemReads(b: string, i: nat, item: Item, k: nat, soFar: seq<Attribute>)
    requires i < k <= |b| && ItemAt(b, i, item, k)
    ensures TagFrom(b, i, soFar) == TagFrom(b, k, soFar + AttributeOf(item))
  {
    if item.Attr? {
      AttrItemReads(b, i, item, k, soFar);
    } else {
      OtherReads(b, i, item, k, soFar);
      assert soFar + [] == soFar;
    }
  }

  lemma FirstItem(b: string, i: nat, items: seq<Item>, close: nat) returns (k: nat)
    requires items != [] && ItemsAt(b, i, items, close)
    ensures i < k <= |b| && ItemAt(b, i, items[0], k) && ItemsAt(b, k, items[1..], close)
  {
    k :| i < k <= |b| && ItemAt(b, i, items[0], k) && ItemsAt(b, k, items[1..], close);
  }

  lemma {:induction false} TagEndReads(b: string, i: nat, selfClosing: bool, soFar: seq<Attribute>)
    requires i <= |b| && EndsAt(b, i, selfClosing)
    ensures TagFrom(b, i, soFar) == TagRest(soFar, i, selfClosing)
  {
    SlashGtIs(b, i);
  }

  /** The rest of a tag is read as its items, up to where it ends. */
  lemma {:induction false} TagReads(
    b: string, i: nat, items: seq<Item>, close: nat, selfClosing: bool, soFar: seq<Attribute>)
    requires ItemsAt(b, i, items, close) && EndsAt(b, close, selfClosing)
    ensures i <= |b| && TagFrom(b, i, soFar) == TagRest(soFar + AttributesOf(items), close, selfClosing)
    decreases |items|
  {
    if items == [] {
      TagEndReads(b, i, selfClosing, soFar);
      assert soFar + [] == soFar;
    } else {
      var k := FirstItem(b, i, items, close);
      ItemReads(b, i, items[0], k, soFar);
      TagReads(b, k, items[1..], close, selfClosing, soFar + AttributeOf(items[0]));
      Associates(soFar, AttributeOf(items[0]), AttributesOf(items[1..]));
    }
  }

  /** Every tag reads this way. */
  lemma {:induction false} TagParses(b: string, i: nat) returns (items: seq<Item>, close: nat, selfClosing: bool)
    requires i <= |b|
    ensures ItemsAt(b, i, items, close) && EndsAt(b, close, selfClosing)
    decreases |b| - i
  {
    if i == |b| || b[i] == '>' {
      return [], i, false;
    }
    if IsSlashGt(b, i) {
      return [], i, true;
    }
    var item, k := ItemParses(b, i);
    var rest;
    rest, close, selfClosing := TagParses(b, k);
    items := [item] + rest;
    assert items[1..] == rest;
  }

  lemma {:induction false} ItemParses(b: string, i: nat) returns (item: Item, k: nat)
    requires i < |b| && b[i] != '>' && !IsSlashGt(b, i)
    ensures ItemAt(b, i, item, k) && i < k <= |b|
  {
    if IsWhitespace(b[i]) {
      return Blank, i + 1;
    }
    if !IsAttributeByte(b[i]) {
      return Stray, i + 1;
    }
    var e := RunEnd(b, i, IsAttributeByte);
    var eq, start, value, j := ValueParses(b, e);
    item, k := Attr(b[i..e], eq, start, value), j;
  }

  // ---- pieces ----

  datatype Piece =
    | Plain
    | Comment
    | Empty(tag: string, items: seq<Item>)
    | Unclosed(tag: string, items: seq<Item>)
    | Block(lt: nat, tag: string, items: seq<Item>, start: nat, end: nat)

  ghost predicate CommentOpens(b: string, i: nat) {
    i + 4 <= |b| && b[i] == '<' && b[i + 1] == '!' && b[i + 2] == '-' && b[i + 3] == '-'
  }

  ghost predicate CommentCloses(b: string, k: int) {
    0 <= k && k + 3 <= |b| && b[k] == '-' && b[k + 1] == '-' && b[k + 2] == '>'
  }

  /** `<`, and a name that is a block's in any case, up to `e`. */
  ghost predicate TagOpens(b: string, i: nat, tag: string, e: nat) {
    && i + 1 < e <= |b| && b[i] == '<' && IsAlphabetic(b[i + 1])
    && (forall k :: i < k < e ==> IsNameByte(b[k])) && (e < |b| ==> !IsNameByte(b[e]))
    && Lowercase(b[i + 1..e]) == tag && (tag == "script" || tag == "template" || tag == "style")
  }

  /** `</` and the name in any case, not followed by more of a name. */
  ghost predicate TagCloses(b: string, k: int, tag: string) {
    var e := k + 2 + |tag|;
    && 0 <= k && e <= |b| && b[k] == '<' && b[k + 1] == '/' && Lowercase(b[k + 2..e]) == tag
    && (e < |b| ==> !IsNameByte(b[e]))
  }

  /** Just behind the first `>` at or after `from`, or the end. */
  ghost predicate BehindGt(b: string, from: nat, j: nat) {
    from <= j <= |b| && if j > from && b[j - 1] == '>' then forall k :: from <= k < j - 1 ==> b[k] != '>'
    else j == |b| && forall k :: from <= k < |b| ==> b[k] != '>'
  }

  /** From inside a comment: behind the first `-->`, or the end when there is none. */
  ghost predicate CommentSpan(b: string, from: nat, j: nat) {
    || (from <= j - 3 && CommentCloses(b, j - 3) && forall k :: from <= k < j - 3 ==> !CommentCloses(b, k))
    || (j == |b| && forall k :: from <= k ==> !CommentCloses(b, k))
  }

  /** A block's opening tag, from its `<` to where it ends. */
  ghost predicate TagSpan(b: string, i: nat, tag: string, items: seq<Item>, close: nat, selfClosing: bool) {
    exists e :: TagOpens(b, i, tag, e) && ItemsAt(b, e, items, close) && EndsAt(b, close, selfClosing)
  }

  ghost predicate FirstCloser(b: string, from: nat, tag: string, end: nat) {
    from <= end && TagCloses(b, end, tag) && forall k :: from <= k < end ==> !TagCloses(b, k, tag)
  }

  ghost predicate NoCloser(b: string, from: nat, tag: string) {
    forall k :: from <= k ==> !TagCloses(b, k, tag)
  }

  /** The piece stands at `i` and the next one starts at `j`. */
  ghost predicate PieceAt(b: string, i: nat, p: Piece, j: nat) {
    i < |b| &&
    match p
    case Plain => !CommentOpens(b, i) && (forall tag, e :: !TagOpens(b, i, tag, e)) && j == i + 1
    case Comment => CommentOpens(b, i) && CommentSpan(b, i + 4, j)
    case Empty(tag, items) => j >= 2 && TagSpan(b, i, tag, items, j - 2, true)
    case Unclosed(tag, items) => j >= 1 && TagSpan(b, i, tag, items, j - 1, false) && NoCloser(b, j, tag)
    case Block(lt, tag, items, start, end) =>
      && lt == i && start >= 1 && TagSpan(b, i, tag, items, start - 1, false)
      && FirstCloser(b, start, tag, end) && BehindGt(b, end, j)
  }

  // ---- the walk reads it so ----

  lemma CommentOpensIs(b: string, i: nat)
    ensures CommentOpens(b, i) <==> StartsAt(b, i, "<!--")
  {
    if i + 4 <= |b| {
      assert b[i..i + 4] == [b[i], b[i + 1], b[i + 2], b[i + 3]];
    }
  }

  lemma CommentClosesIs(b: string, k: nat)
    ensures CommentCloses(b, k) <==> StartsAt(b, k, "-->")
  {
    if k + 3 <= |b| {
      assert b[k..k + 3] == [b[k], b[k + 1], b[k + 2]];
    }
  }

  /** A comment ends behind the first `-->`, or with the source. */
  lemma {:induction false} PastCommentIs(b: string, from: nat, j: nat)
    requires from <= |b| && CommentSpan(b, from, j)
    ensures PastComment(b, from) == j
    decreases |b| - from
  {
    if from + 2 < |b| {
      CommentClosesIs(b, from);
      if !CommentCloses(b, from) {
        PastCommentIs(b, from + 1, j);
      } else {
        assert from == j - 3;
      }
    }
  }

  lemma {:induction false} CommentEnds(b: string, from: nat) returns (j: nat)
    requires from <= |b|
    ensures CommentSpan(b, from, j) && j >= from
    decreases |b| - from
  {
    if |b| <= from + 2 {
      j := |b|;
    } else if CommentCloses(b, from) {
      j := from + 3;
    } else {
      j := CommentEnds(b, from + 1);
    }
  }

  /** The walk at a tag's `<`, by its name. */
  lemma TagOpensIs(b: string, i: nat, tag: string, e: nat)
    requires i < |b|
    ensures TagOpens(b, i, tag, e) <==>
      && b[i] == '<' && i + 1 < |b| && IsAlphabetic(b[i + 1])
      && e == RunEnd(b, i + 1, IsNameByte) && tag == Lowercase(b[i + 1..e]) && IsBlockTag(tag)
  {
    if TagOpens(b, i, tag, e) {
      RunIs(b, i + 1, e, IsNameByte);
    }
  }

  lemma NotBoth(b: string, i: nat)
    requires i + 1 < |b| && IsAlphabetic(b[i + 1])
    ensures !CommentOpens(b, i)
  {
  }

  lemma {:induction false} MovesToTag(b: string, i: nat, tag: string, e: nat)
    requires TagOpens(b, i, tag, e)
    ensures MoveAt(b, i) == TakeAt(b, tag, e)
  {
    TagOpensIs(b, i, tag, e);
    CommentOpensIs(b, i);
    NotBoth(b, i);
  }

  lemma {:induction false} MovesOn(b: string, i: nat)
    requires i < |b| && !CommentOpens(b, i) && forall tag, e :: !TagOpens(b, i, tag, e)
    ensures MoveAt(b, i) == Skip(i + 1)
  {
    CommentOpensIs(b, i);
    if b[i] == '<' && i + 1 < |b| && IsAlphabetic(b[i + 1]) {
      var e := RunEnd(b, i + 1, IsNameByte);
      TagOpensIs(b, i, Lowercase(b[i + 1..e]), e);
    }
  }

  lemma LowercaseParts(s: string, t: string)
    ensures Lowercase(s + t) == Lowercase(s) + Lowercase(t)
  {
  }

  lemma TagClosesIs(b: string, k: nat, tag: string)
    requires Lowercase(tag) == tag
    ensures TagCloses(b, k, tag) <==> ClosesTag(b, k, "</" + tag)
  {
    var e := k + 2 + |tag|;
    if e <= |b| {
      assert b[k..e] == [b[k], b[k + 1]] + b[k + 2..e];
      LowercaseParts([b[k], b[k + 1]], b[k + 2..e]);
      LowercaseParts("</", tag);
      assert Lowercase("</") == "</" && Lowercase([b[k], b[k + 1]]) == [ToLower(b[k]), ToLower(b[k + 1])];
      FirstTwo(ToLower(b[k]), ToLower(b[k + 1]), Lowercase(b[k + 2..e]), tag);
    }
  }

  lemma FirstTwo(x: char, y: char, s: string, t: string)
    ensures [x, y] + s == "</" + t <==> x == '<' && y == '/' && s == t
  {
    assert ([x, y] + s)[2..] == s && ("</" + t)[2..] == t;
    if [x, y] + s == "</" + t {
      assert ([x, y] + s)[0] == x && ([x, y] + s)[1] == y;
    }
  }

  lemma BlockNameIsLower(tag: string)
    requires tag == "script" || tag == "template" || tag == "style"
    ensures Lowercase(tag) == tag
  {
    assert forall k :: 0 <= k < |tag| ==> !('A' <= tag[k] <= 'Z');
  }

  lemma {:induction false} CloseFound(b: string, from: nat, tag: string, end: nat)
    requires IsBlockTag(tag) && FirstCloser(b, from, tag, end)
    ensures FirstClose(b, from, "</" + tag) == Some(end)
  {
    BlockNameIsLower(tag);
    TagClosesIs(b, end, tag);
    var r := FirstClose(b, from, "</" + tag);
    if r.Some? {
      TagClosesIs(b, r.value, tag);
    }
  }

  lemma {:induction false} CloseMissing(b: string, from: nat, tag: string)
    requires IsBlockTag(tag) && NoCloser(b, from, tag)
    ensures FirstClose(b, from, "</" + tag) == None
  {
    BlockNameIsLower(tag);
    var r := FirstClose(b, from, "</" + tag);
    if r.Some? {
      TagClosesIs(b, r.value, tag);
    }
  }

  lemma {:induction false} PastGtIs(b: string, from: nat, j: nat)
    requires from <= |b| && BehindGt(b, from, j)
    ensures PastByte(b, from, '>') == j
    decreases |b| - from
  {
    if from < |b| && b[from] != '>' {
      PastGtIs(b, from + 1, j);
    }
  }

  /** The value of the first `lang`, if there is one. */
  ghost predicate LangIs(attributes: seq<Attribute>, lang: Option<string>) {
    || (lang.None? && forall k :: 0 <= k < |attributes| ==> attributes[k].0 != "lang")
    || exists k :: FirstLang(attributes, k, lang)
  }

  ghost predicate FirstLang(attributes: seq<Attribute>, k: int, lang: Option<string>) {
    && 0 <= k < |attributes| && attributes[k] == ("lang", lang)
    && forall j :: 0 <= j < k ==> attributes[j].0 != "lang"
  }

  lemma {:induction false} LangReads(attributes: seq<Attribute>)
    ensures LangIs(attributes, ValueOf(attributes, "lang"))
  {
    if attributes != [] && attributes[0].0 != "lang" {
      var rest := attributes[1..];
      LangReads(rest);
      assert forall k :: 0 < k < |attributes| ==> attributes[k] == rest[k - 1];
      if k :| FirstLang(rest, k, ValueOf(rest, "lang")) {
        assert FirstLang(attributes, k + 1, ValueOf(rest, "lang"));
      }
    } else if attributes != [] {
      assert FirstLang(attributes, 0, ValueOf(attributes, "lang"));
    }
  }

  /** What a piece that is a block stands for. */
  ghost predicate Stands(p: Piece, block: SfcBlock)
    requires p.Block?
  {
    && block.tag == p.tag && block.contentStart == p.start && block.contentEnd == p.end
    && block.attributes == AttributesOf(p.items) && LangIs(block.attributes, block.lang)
  }

  lemma {:induction false} TakeIs(
    b: string, tag: string, nameEnd: nat, attributes: seq<Attribute>, close: nat, selfClosing: bool)
    requires nameEnd <= |b| && TagFrom(b, nameEnd, []) == TagRest(attributes, close, selfClosing)
    ensures TakeAt(b, tag, nameEnd) == AfterTag(b, tag, attributes, close, selfClosing)
  {
    var end := FirstClose(b, close + 1, "</" + tag);
    assert !selfClosing && end.None? ==> TakeAt(b, tag, nameEnd) == Skip(close + 1);
  }

  ghost function AfterTag(b: string, tag: string, attributes: seq<Attribute>, close: nat, selfClosing: bool): Move {
    if selfClosing then Skip(close + 2) else
    var end := FirstClose(b, close + 1, "</" + tag);
    if end.None? then Skip(close + 1)
    else
      Take(SfcBlock(tag, ValueOf(attributes, "lang"), close + 1, end.value, attributes), PastByte(b, end.value, '>'))
  }

  lemma {:induction false} TagMoves(
    b: string, i: nat, tag: string, items: seq<Item>, close: nat, selfClosing: bool)
    requires TagSpan(b, i, tag, items, close, selfClosing)
    ensures i < |b| && IsBlockTag(tag)
    ensures MoveAt(b, i) == AfterTag(b, tag, AttributesOf(items), close, selfClosing)
  {
    var e :| TagOpens(b, i, tag, e) && ItemsAt(b, e, items, close) && EndsAt(b, close, selfClosing);
    MovesToTag(b, i, tag, e);
    TagReads(b, e, items, close, selfClosing, []);
    assert [] + AttributesOf(items) == AttributesOf(items);
    TakeIs(b, tag, e, AttributesOf(items), close, selfClosing);
  }

  lemma {:induction false} AfterTagTakes(
    b: string, tag: string, attributes: seq<Attribute>, close: nat, end: nat, j: nat)
    requires FirstClose(b, close + 1, "</" + tag) == Some(end) && end <= |b| && PastByte(b, end, '>') == j
    ensures AfterTag(b, tag, attributes, close, false) ==
      Take(SfcBlock(tag, ValueOf(attributes, "lang"), close + 1, end, attributes), j)
  {
  }

  lemma {:induction false} BlockTakes(b: string, i: nat, tag: string, items: seq<Item>, close: nat, end: nat, j: nat)
    requires TagSpan(b, i, tag, items, close, false) && FirstCloser(b, close + 1, tag, end) && BehindGt(b, end, j)
    ensures i < |b|
    ensures MoveAt(b, i) ==
      Take(SfcBlock(tag, ValueOf(AttributesOf(items), "lang"), close + 1, end, AttributesOf(items)), j)
  {
    TagMoves(b, i, tag, items, close, false);
    TakesTo(b, tag, AttributesOf(items), close, end, j);
  }

  lemma {:induction false} TakesTo(
    b: string, tag: string, attributes: seq<Attribute>, close: nat, end: nat, j: nat)
    requires IsBlockTag(tag) && FirstCloser(b, close + 1, tag, end) && BehindGt(b, end, j)
    ensures AfterTag(b, tag, attributes, close, false) ==
      Take(SfcBlock(tag, ValueOf(attributes, "lang"), close + 1, end, attributes), j)
  {
    CloseFound(b, close + 1, tag, end);
    PastGtIs(b, end, j);
    AfterTagTakes(b, tag, attributes, close, end, j);
  }

  lemma {:induction false} BlockMoves(b: string, i: nat, p: Piece, j: nat)
    requires p.Block? && PieceAt(b, i, p, j)
    ensures var m := MoveAt(b, i); m.Take? && m.to == j && Stands(p, m.block)
  {
    BlockTakes(b, i, p.tag, p.items, p.start - 1, p.end, j);
    LangReads(AttributesOf(p.items));
  }

  lemma {:induction false} CommentMoves(b: string, i: nat, j: nat)
    requires CommentOpens(b, i) && CommentSpan(b, i + 4, j)
    ensures MoveAt(b, i) == Skip(j)
  {
    CommentOpensIs(b, i);
    PastCommentIs(b, i + 4, j);
  }

  lemma {:induction false} EmptyMoves(b: string, i: nat, tag: string, items: seq<Item>, close: nat)
    requires TagSpan(b, i, tag, items, close, true)
    ensures i < |b| && MoveAt(b, i) == Skip(close + 2)
  {
    TagMoves(b, i, tag, items, close, true);
  }

  lemma {:induction false} UnclosedMoves(b: string, i: nat, tag: string, items: seq<Item>, close: nat)
    requires TagSpan(b, i, tag, items, close, false) && NoCloser(b, close + 1, tag)
    ensures i < |b| && MoveAt(b, i) == Skip(close + 1)
  {
    TagMoves(b, i, tag, items, close, false);
    CloseMissing(b, close + 1, tag);
  }

  lemma {:induction false} PieceMoves(b: string, i: nat, p: Piece, j: nat)
    requires PieceAt(b, i, p, j) && !p.Block?
    ensures MoveAt(b, i) == Skip(j)
  {
    match p
    case Plain => MovesOn(b, i);
    case Comment => CommentMoves(b, i, j);
    case Empty(tag, items) => EmptyMoves(b, i, tag, items, j - 2);
    case Unclosed(tag, items) => UnclosedMoves(b, i, tag, items, j - 1);
  }

  // ---- whole sources ----

  /** The pieces follow one another from `i` to the end of the source. */
  ghost predicate Reads(b: string, i: nat, ps: seq<Piece>)
    decreases |ps|
  {
    if ps == [] then i >= |b| else exists j :: PieceAt(b, i, ps[0], j) && Reads(b, j, ps[1..])
  }

  function BlocksIn(ps: seq<Piece>): seq<Piece> {
    if ps == [] then [] else BlockOf(ps[0]) + BlocksIn(ps[1..])
  }

  /** The blocks found are the blocks written, one for one. */
  ghost predicate Found(written: seq<Piece>, found: seq<Placed>) {
    |written| == |found| && forall k :: 0 <= k < |written| ==>
      written[k].Block? && found[k].lt == written[k].lt && Stands(written[k], found[k].block)
  }

  lemma FoundCons(p: Piece, q: Placed, written: seq<Piece>, found: seq<Placed>)
    requires p.Block? && q.lt == p.lt && Stands(p, q.block) && Found(written, found)
    ensures Found([p] + written, [q] + found)
  {
  }

  lemma {:induction false} WalkSteps(b: string, i: nat, m: Move)
    requires i < |b| && MoveAt(b, i) == m
    ensures Walk(b, i) == if m.Take? then [Placed(i, m.block)] + Walk(b, m.to) else Walk(b, m.to)
  {
  }

  function BlockOf(p: Piece): seq<Piece> { if p.Block? then [p] else [] }

  lemma {:induction false} PieceFound(b: string, i: nat, p: Piece, j: nat, written: seq<Piece>)
    requires PieceAt(b, i, p, j) && Found(written, Walk(b, j))
    ensures Found(BlockOf(p) + written, Walk(b, i))
  {
    var m := MoveAt(b, i);
    WalkSteps(b, i, m);
    if p.Block? {
      BlockMoves(b, i, p, j);
      FoundCons(p, Placed(i, m.block), written, Walk(b, j));
    } else {
      PieceMoves(b, i, p, j);
      assert [] + written == written;
    }
  }

  /** Nothing inside a comment is a block: the walk goes on behind it, or ends with it. */
  lemma {:induction false} CommentIsSkipped(b: string, i: nat, j: nat)
    requires CommentOpens(b, i) && CommentSpan(b, i + 4, j)
    ensures Walk(b, i) == Walk(b, j)
  {
    CommentMoves(b, i, j);
    WalkSteps(b, i, Skip(j));
  }

  lemma FirstPiece(b: string, i: nat, ps: seq<Piece>) returns (j: nat)
    requires ps != [] && Reads(b, i, ps)
    ensures PieceAt(b, i, ps[0], j) && Reads(b, j, ps[1..])
  {
    j :| PieceAt(b, i, ps[0], j) && Reads(b, j, ps[1..]);
  }

  /** However a source reads, the walk finds exactly the blocks written in it. */
  lemma {:induction false} WalkReads(b: string, i: nat, ps: seq<Piece>)
    requires Reads(b, i, ps)
    ensures Found(BlocksIn(ps), Walk(b, i))
    decreases |ps|
  {
    if ps != [] {
      var j := FirstPiece(b, i, ps);
      WalkReads(b, j, ps[1..]);
      PieceFound(b, i, ps[0], j, BlocksIn(ps[1..]));
    }
  }

  lemma PieceParses(b: string, i: nat) returns (p: Piece, j: nat)
    requires i < |b|
    ensures PieceAt(b, i, p, j) && i < j
  {
    if CommentOpens(b, i) {
      j := CommentEnds(b, i + 4);
      p := Comment;
    } else if tag, e :| TagOpens(b, i, tag, e) {
      p, j := TagPieceParses(b, i, tag, e);
    } else {
      p, j := Plain, i + 1;
    }
  }

  lemma {:induction false} TagPieceParses(b: string, i: nat, tag: string, e: nat) returns (p: Piece, j: nat)
    requires TagOpens(b, i, tag, e)
    ensures PieceAt(b, i, p, j) && i < j
  {
    var items, close, selfClosing := TagParses(b, e);
    ItemsGoOn(b, e, items, close);
    assert TagSpan(b, i, tag, items, close, selfClosing);
    if selfClosing {
      return Empty(tag, items), close + 2;
    }
    p, j := OpenParses(b, i, tag, items, close);
  }

  lemma {:induction false} OpenParses(b: string, i: nat, tag: string, items: seq<Item>, close: nat)
    returns (p: Piece, j: nat)
    requires i <= close && i < |b| && TagSpan(b, i, tag, items, close, false)
    ensures PieceAt(b, i, p, j) && i < j
  {
    var end := CloserOrNone(b, close + 1, tag);
    if end.Some? {
      j := GtEnds(b, end.value);
      p := BlockPiece(b, i, tag, items, close, end.value, j);
    } else {
      j := close + 1;
      p := UnclosedPiece(b, i, tag, items, close);
    }
  }

  lemma BlockPiece(b: string, i: nat, tag: string, items: seq<Item>, close: nat, end: nat, j: nat) returns (p: Piece)
    requires i < |b| && TagSpan(b, i, tag, items, close, false)
    requires FirstCloser(b, close + 1, tag, end) && BehindGt(b, end, j)
    ensures PieceAt(b, i, p, j)
  {
    p := Block(i, tag, items, close + 1, end);
  }

  lemma UnclosedPiece(b: string, i: nat, tag: string, items: seq<Item>, close: nat) returns (p: Piece)
    requires i < |b| && TagSpan(b, i, tag, items, close, false) && NoCloser(b, close + 1, tag)
    ensures PieceAt(b, i, p, close + 1)
  {
    p := Unclosed(tag, items);
  }

  /** There is a first closing tag, or there is none. */
  lemma {:induction false} CloserOrNone(b: string, from: nat, tag: string) returns (end: Option<nat>)
    ensures end.Some? ==> FirstCloser(b, from, tag, end.value) && end.value < |b|
    ensures end.None? ==> NoCloser(b, from, tag)
    decreases |b| - from
  {
    if from >= |b| {
      end := None;
    } else if TagCloses(b, from, tag) {
      end := Some(from);
    } else {
      end := CloserOrNone(b, from + 1, tag);
    }
  }

  lemma {:induction false} ItemsGoOn(b: string, i: nat, items: seq<Item>, j: nat)
    requires ItemsAt(b, i, items, j)
    ensures i <= j
    decreases |items|
  {
    if items != [] {
      var k :| i < k <= |b| && ItemAt(b, i, items[0], k) && ItemsAt(b, k, items[1..], j);
      ItemsGoOn(b, k, items[1..], j);
    }
  }

  lemma {:induction false} GtEnds(b: string, from: nat) returns (j: nat)
    requires from <= |b|
    ensures BehindGt(b, from, j)
    ensures from < |b| ==> from < j
    decreases |b| - from
  {
    if from == |b| {
      j := from;
    } else if b[from] == '>' {
      j := from + 1;
    } else {
      j := GtEnds(b, from + 1);
    }
  }

  /** The grammar leaves no source out. */
  lemma {:induction false} EverySourceReads(b: string, i: nat) returns (ps: seq<Piece>)
    ensures Reads(b, i, ps)
    decreases |b| - i
  {
    if i >= |b| {
      ps := [];
    } else {
      var p, j := PieceParses(b, i);
      var rest := EverySourceReads(b, j);
      ps := [p] + rest;
      assert ps[1..] == rest;
    }
  }

  // ---- the document ----

  /** How many of the first `n` blocks have that tag. */
  ghost function Earlier(ps: seq<Placed>, tag: string, n: nat): nat
    requires n <= |ps|
  {
    |set k | 0 <= k < n && ps[k].block.tag == tag|
  }

  lemma EarlierNext(ps: seq<Placed>, tag: string, n: nat)
    requires n < |ps|
    ensures Earlier(ps, tag, n + 1) == Earlier(ps, tag, n) + if ps[n].block.tag == tag then 1 else 0
  {
    var before := set k | 0 <= k < n && ps[k].block.tag == tag;
    var upTo := set k | 0 <= k < n + 1 && ps[k].block.tag == tag;
    assert upTo == if ps[n].block.tag == tag then before + {n} else before;
  }

  lemma SameEarlier(ps: seq<Placed>, qs: seq<Placed>, tag: string, n: nat)
    requires n <= |ps| && n <= |qs| && ps[..n] == qs[..n]
    ensures Earlier(ps, tag, n) == Earlier(qs, tag, n)
  {
    assert forall k :: 0 <= k < n ==> ps[k] == ps[..n][k] == qs[..n][k] == qs[k];
    assert (set k | 0 <= k < n && ps[k].block.tag == tag) == (set k | 0 <= k < n && qs[k].block.tag == tag);
  }

  /** The blocks of a tag are all of them, each in its place. */
  lemma {:induction false} OfTagIs(ps: seq<Placed>, tag: string)
    ensures |OfTag(ps, tag)| == Earlier(ps, tag, |ps|)
    ensures forall n :: 0 <= n < |ps| && ps[n].block.tag == tag ==>
      Earlier(ps, tag, n) < |OfTag(ps, tag)| && OfTag(ps, tag)[Earlier(ps, tag, n)] == ps[n].block
  {
    if ps != [] {
      var m := |ps| - 1;
      var rest := ps[..m];
      OfTagIs(rest, tag);
      EarlierNext(ps, tag, m);
      SameEarlier(ps, rest, tag, m);
      forall n | 0 <= n < |ps| && ps[n].block.tag == tag
        ensures Earlier(ps, tag, n) < |OfTag(ps, tag)| && OfTag(ps, tag)[Earlier(ps, tag, n)] == ps[n].block
      {
        SameEarlier(ps, rest, tag, n);
        if n < m {
          assert rest[n] == ps[n];
        }
      }
    }
  }

  /** A list of the document holds the blocks of one tag, in order. */
  ghost predicate Lists(found: seq<Placed>, tag: string, blocks: seq<SfcBlock>) {
    && |blocks| == Earlier(found, tag, |found|)
    && forall n :: 0 <= n < |found| && found[n].block.tag == tag ==>
         Earlier(found, tag, n) < |blocks| && blocks[Earlier(found, tag, n)] == found[n].block
  }

  ghost predicate FirstTemplate(found: seq<Placed>, template: Option<SfcBlock>) {
    if template.None? then forall n :: 0 <= n < |found| ==> found[n].block.tag != "template"
    else exists n :: IsFirstTemplate(found, n, template.value)
  }

  ghost predicate IsFirstTemplate(found: seq<Placed>, n: int, block: SfcBlock) {
    && 0 <= n < |found| && found[n].block == block && block.tag == "template"
    && forall k :: 0 <= k < n ==> found[k].block.tag != "template"
  }

  lemma NoneEarlier(found: seq<Placed>, tag: string, n: nat)
    requires n <= |found|
    ensures Earlier(found, tag, n) == 0 <==> forall k :: 0 <= k < n ==> found[k].block.tag != tag
  {
    var before := set k | 0 <= k < n && found[k].block.tag == tag;
    if k :| 0 <= k < n && found[k].block.tag == tag {
      assert k in before;
    } else {
      assert before == {};
    }
  }

  lemma {:induction false} FirstOfTag(found: seq<Placed>, tag: string, m: nat) returns (n: nat)
    requires m < |found| && found[m].block.tag == tag
    ensures n <= m && found[n].block.tag == tag && forall k :: 0 <= k < n ==> found[k].block.tag != tag
  {
    if k :| 0 <= k < m && found[k].block.tag == tag {
      n := FirstOfTag(found, tag, k);
    } else {
      n := m;
    }
  }

  /** However a source reads, the document lists the blocks written: scripts and styles in order, the first template. */
  lemma DocumentMeans(b: string, ps: seq<Piece>, doc: SfcDocument)
    requires Reads(b, 0, ps) && doc == Collect(Walk(b, 0))
    ensures var found := Walk(b, 0);
      && Found(BlocksIn(ps), found)
      && Lists(found, "script", doc.scripts) && Lists(found, "style", doc.styles) && FirstTemplate(found, doc.template)
  {
    var found := Walk(b, 0);
    WalkReads(b, 0, ps);
    OfTagIs(found, "script");
    OfTagIs(found, "style");
    OfTagIs(found, "template");
    if m :| 0 <= m < |found| && found[m].block.tag == "template" {
      var n := FirstOfTag(found, "template", m);
      NoneEarlier(found, "template", n);
      NoneEarlier(found, "template", |found|);
      assert IsFirstTemplate(found, n, found[n].block);
    } else {
      NoneEarlier(found, "template", |found|);
    }
  }

  /** A script is a setup script when `setup` is among its attributes, with or without a value. */
  lemma SetupIff(p: Piece, block: SfcBlock)
    requires p.Block? && Stands(p, block)
    ensures IsSetup(block) <==>
      p.tag == "script" && exists k :: 0 <= k < |p.items| && p.items[k].Attr? && p.items[k].name == "setup"
  {
    forall v ensures ("setup", v) in block.attributes <==> NamesItem(p.items, "setup", v) {
      NamedItem(p.items, "setup", v);
    }
    if k :| 0 <= k < |block.attributes| && block.attributes[k].0 == "setup" {
      assert block.attributes[k] == ("setup", block.attributes[k].1);
    }
    if k :| 0 <= k < |p.items| && p.items[k].Attr? && p.items[k].name == "setup" {
      assert NamesItem(p.items, "setup", p.items[k].value);
    }
  }

  ghost predicate NamesItem(items: seq<Item>, name: string, v: Option<string>) {
    exists k :: 0 <= k < |items| && items[k].Attr? && items[k].name == name && items[k].value == v
  }

  lemma {:induction false} NamedItem(items: seq<Item>, name: string, v: Option<string>)
    ensures (name, v) in AttributesOf(items) <==> NamesItem(items, name, v)
  {
    if items != [] {
      var rest := items[1..];
      NamedItem(rest, name, v);
      if NamesItem(rest, name, v) {
        var k :| 0 <= k < |rest| && rest[k].Attr? && rest[k].name == name && rest[k].value == v;
        assert items[k + 1] == rest[k];
      }
      if NamesItem(items, name, v) {
        var k :| 0 <= k < |items| && items[k].Attr? && items[k].name == name && items[k].value == v;
        assert k > 0 ==> rest[k - 1] == items[k];
      }
    }
  }
}
