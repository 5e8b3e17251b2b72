/**
 The byte scanners under the single-file-component parser. A source is a sequence
 of characters that stand for its bytes; only ASCII bytes steer the scanners.
 */
module SfcScanner {
  import opened Prelude

  // ---- byte classes ----

  predicate IsAlphabetic(c: char) { 'a' <= c <= 'z' || 'A' <= c <= 'Z' }

  predicate IsAlphanumeric(c: char) { IsAlphabetic(c) || '0' <= c <= '9' }

  predicate IsWhitespace(c: char) { c == ' ' || c == '\t' || c == '\n' || c == '\r' || c == '\U{0C}' }

  predicate IsNameByte(c: char) { IsAlphanumeric(c) || c == '-' || c == '_' }

  predicate IsAttributeByte(c: char) { IsNameByte(c) || c == ':' || c == '@' }

  /** An unquoted value runs up to whitespace, `>` or `/`. */
  predicate IsBareByte(c: char) { !IsWhitespace(c) && c != '>' && c != '/' }

  function ToLower(c: char): char {
    if 'A' <= c <= 'Z' then c - 'A' + 'a' else c
  }

  function Lowercase(s: string): (r: string)
    ensures |r| == |s|
  {
    seq(|s|, k requires 0 <= k < |s| => ToLower(s[k]))
  }

  // ---- the reference scanners ----

  /** The end of the run of bytes satisfying `p` that starts at `i`. */
  function RunEnd(b: string, i: nat, p: char -> bool): (r: nat)
    requires i <= |b|
    ensures i <= r <= |b|
    ensures forall k :: i <= k < r ==> p(b[k])
    ensures r < |b| ==> !p(b[r])
    decreases |b| - i
  {
    if i < |b| && p(b[i]) then RunEnd(b, i + 1, p) else i
  }

  /** The closing quote at or after `i`, or the end. */
  function QuoteEnd(b: string, i: nat, quote: char): (r: nat)
    requires i <= |b|
    ensures i <= r <= |b|
    ensures forall k :: i <= k < r ==> b[k] != quote
    ensures r < |b| ==> b[r] == quote
    decreases |b| - i
  {
    if i < |b| && b[i] != quote then QuoteEnd(b, i + 1, quote) else i
  }

  predicate StartsAt(b: string, i: nat, needle: string) {
    i + |needle| <= |b| && b[i..i + |needle|] == needle
  }

  /** The tag text `needle` at `i`, case ignored, and not the start of a longer name. */
  predicate ClosesTag(b: string, i: nat, needle: string) {
    && i + |needle| <= |b|
    && Lowercase(b[i..i + |needle|]) == Lowercase(needle)
    && (i + |needle| < |b| ==> !IsNameByte(b[i + |needle|]))
  }

  /** The first place at or after `from` where the tag is closed. */
  function FirstClose(b: string, from: nat, needle: string): (r: Option<nat>)
    ensures r.Some? ==> from <= r.value && ClosesTag(b, r.value, needle)
    ensures r.Some? ==> forall k :: from <= k < r.value ==> !ClosesTag(b, k, needle)
    ensures r.None? ==> forall k :: from <= k ==> !ClosesTag(b, k, needle)
    decreases |b| - from
  {
    if |b| < from + |needle| then None
    else if ClosesTag(b, from, needle) then Some(from)
    else if from < |b| then FirstClose(b, from + 1, needle)
    else None
  }

  /** Past the first `target` at or after `from`, or the end. */
  function PastByte(b: string, from: nat, target: char): (r: nat)
    requires from <= |b|
    ensures from <= r <= |b|
    decreases |b| - from
  {
    if from == |b| then |b| else if b[from] == target then from + 1 else PastByte(b, from + 1, target)
  }

  lemma {:induction false} PastByteIsFirst(b: string, from: nat, k: nat, target: char)
    requires from <= k < |b| && b[k] == target
    ensures var r := PastByte(b, from, target);
      && from < r <= k + 1 && b[r - 1] == target
      && forall j :: from <= j < r - 1 ==> b[j] != target
    decreases k - from
  {
    if b[from] != target {
      PastByteIsFirst(b, from + 1, k, target);
    }
  }

  /** Past the first `-->` at or after `from`, or the end. */
  function PastComment(b: string, from: nat): (r: nat)
    requires from <= |b|
    ensures from <= r <= |b|
    decreases |b| - from
  {
    if |b| <= from + 2 then |b|
    else if StartsAt(b, from, "-->") then from + 3
    else PastComment(b, from + 1)
  }

  // ---- attributes ----

  type Attribute = (string, Option<string>)

  /** An attribute's value, and where it ends; `i` itself when there is no `=`. */
  function ValueAt(b: string, i: nat): (r: (Option<string>, nat))
    requires i <= |b|
    ensures i <= r.1 <= |b|
  {
    var eq := RunEnd(b, i, IsWhitespace);
    if eq == |b| || b[eq] != '=' then (None, i) else
    var start := RunEnd(b, eq + 1, IsWhitespace);
    if start == |b| then (None, start)
    else if b[start] == '"' || b[start] == '\'' then
      var end := QuoteEnd(b, start + 1, b[start]);
      (Some(b[start + 1..end]), if end < |b| then end + 1 else end)
    else
      var end := RunEnd(b, start, IsBareByte);
      (Some(b[start..end]), end)
  }

  datatype TagRest = TagRest(attributes: seq<Attribute>, closePos: nat, selfClosing: bool)

  /** The rest of an opening tag: its attributes, and the `>` (or the `/` of `/>`) that ends it. */
  function TagFrom(b: string, i: nat, soFar: seq<Attribute>): (r: TagRest)
    requires i <= |b|
    ensures i <= r.closePos <= |b|
    ensures r.selfClosing ==> r.closePos + 1 < |b|
    ensures !r.selfClosing && r.closePos < |b| ==> b[r.closePos] == '>'
    decreases |b| - i
  {
    if i == |b| then TagRest(soFar, |b|, false)
    else if IsWhitespace(b[i]) then TagFrom(b, i + 1, soFar)
    else if b[i] == '>' then TagRest(soFar, i, false)
    else if StartsAt(b, i, "/>") then TagRest(soFar, i, true)
    else
      var end := RunEnd(b, i, IsAttributeByte);
      if end == i then TagFrom(b, i + 1, soFar)
      else
        var (value, after) := ValueAt(b, end);
        TagFrom(b, after, soFar + [(b[i..end], value)])
  }

  // ---- the scanners as written ----

  method SkipComment(b: string, from: nat) returns (r: nat)
    requires from <= |b|
    ensures r == PastComment(b, from)
  {
    var i := from;
    while i + 2 < |b|
      invariant from <= i <= |b| && PastComment(b, from) == PastComment(b, i)
    {
      if b[i] == '-' && b[i + 1] == '-' && b[i + 2] == '>' {
        assert b[i..i + 3] == "-->";
        return i + 3;
      }
      assert b[i..i + 3] == [b[i], b[i + 1], b[i + 2]];
      i := i + 1;
    }
    r := |b|;
  }

  method ReadTagName(b: string, from: nat) returns (r: nat)
    requires from <= |b|
    ensures r == RunEnd(b, from, IsNameByte)
  {
    r := from;
    while r < |b| && IsNameByte(b[r])
      invariant from <= r <= |b| && RunEnd(b, from, IsNameByte) == RunEnd(b, r, IsNameByte)
    {
      r := r + 1;
    }
  }

  method SkipWhitespace(b: string, from: nat) returns (r: nat)
    requires from <= |b|
    ensures r == RunEnd(b, from, IsWhitespace)
  {
    r := from;
    while r < |b| && IsWhitespace(b[r])
      invariant from <= r <= |b| && RunEnd(b, from, IsWhitespace) == RunEnd(b, r, IsWhitespace)
    {
      r := r + 1;
    }
  }

  method FindQuote(b: string, from: nat, quote: char) returns (r: nat)
    requires from <= |b|
    ensures r == QuoteEnd(b, from, quote)
  {
    r := from;
    while r < |b| && b[r] != quote
      invariant from <= r <= |b| && QuoteEnd(b, from, quote) == QuoteEnd(b, r, quote)
    {
      r := r + 1;
    }
  }

  method ReadBare(b: string, from: nat) returns (r: nat)
    requires from <= |b|
    ensures r == RunEnd(b, from, IsBareByte)
  {
    r := from;
    while r < |b| && IsBareByte(b[r])
      invariant from <= r <= |b| && RunEnd(b, from, IsBareByte) == RunEnd(b, r, IsBareByte)
    {
      r := r + 1;
    }
  }

  method ReadAttributeValue(b: string, from: nat) returns (value: Option<string>, i: nat)
    requires from <= |b|
    ensures (value, i) == ValueAt(b, from)
  {
    i := SkipWhitespace(b, from);
    if i >= |b| || b[i] != '=' {
      return None, from;
    }
    i := SkipWhitespace(b, i + 1);
    if i >= |b| {
      return None, i;
    }
    var quote := b[i];
    if quote == '"' || quote == '\'' {
      var start := i + 1;
      i := FindQuote(b, start, quote);
      value := Some(b[start..i]);
      if i < |b| {
        i := i + 1;
      }
    } else {
      var start := i;
      i := ReadBare(b, start);
      value := Some(b[start..i]);
    }
  }

  method ReadAttributeName(b: string, start: nat) returns (i: nat)
    requires start <= |b|
    ensures start <= i <= |b| && RunEnd(b, start, IsAttributeByte) == i
  {
    i := start;
    while i < |b| && IsAttributeByte(b[i])
      invariant start <= i <= |b| && RunEnd(b, start, IsAttributeByte) == RunEnd(b, i, IsAttributeByte)
    {
      i := i + 1;
    }
  }

  /** One attribute, or one byte that is none. */
  lemma AttributeTurn(b: string, i: nat, end: nat, soFar: seq<Attribute>)
    requires i < |b| && !IsWhitespace(b[i]) && b[i] != '>' && !(b[i] == '/' && i + 1 < |b| && b[i + 1] == '>')
    requires RunEnd(b, i, IsAttributeByte) == end
    ensures end == i ==> TagFrom(b, i, soFar) == TagFrom(b, i + 1, soFar)
    ensures end != i ==>
      TagFrom(b, i, soFar) == TagFrom(b, ValueAt(b, end).1, soFar + [(b[i..end], ValueAt(b, end).0)])
  {
    assert i + 2 <= |b| ==> b[i..i + 2] == [b[i], b[i + 1]];
  }

  method ParseAttributes(b: string, from: nat) returns (r: TagRest)
    requires from <= |b|
    ensures r == TagFrom(b, from, [])
  {
    var attrs: seq<Attribute> := [];
    var i := from;
    while i < |b|
      invariant from <= i <= |b| && TagFrom(b, from, []) == TagFrom(b, i, attrs)
      decreases |b| - i
    {
      if IsWhitespace(b[i]) {
        i := i + 1;
      } else if b[i] == '>' {
        return TagRest(attrs, i, false);
      } else if b[i] == '/' && i + 1 < |b| && b[i + 1] == '>' {
        assert b[i..i + 2] == "/>";
        return TagRest(attrs, i, true);
      } else {
        var start := i;
        i := ReadAttributeName(b, start);
        AttributeTurn(b, start, i, attrs);
        if i == start {
          i := i + 1;
        } else {
          var name := b[start..i];
          var value, after := ReadAttributeValue(b, i);
          attrs, i := attrs + [(name, value)], after;
        }
      }
    }
    r := TagRest(attrs, |b|, false);
  }

  method FindCloseTag(b: string, from: nat, needle: string) returns (r: Option<nat>)
    ensures r == FirstClose(b, from, needle)
  {
    var i := from;
    while i + |needle| <= |b|
      invariant from <= i
      invariant FirstClose(b, from, needle) == FirstClose(b, i, needle)
      decreases |b| - i
    {
      if ClosesTag(b, i, needle) {
        return Some(i);
      }
      i := i + 1;
    }
    r := None;
  }

  method FindAfter(b: string, from: nat, target: char) returns (r: nat)
    requires from <= |b|
    ensures r == PastByte(b, from, target)
  {
    var i := from;
    while i < |b|
      invariant from <= i <= |b| && PastByte(b, from, target) == PastByte(b, i, target)
    {
      if b[i] == target {
        return i + 1;
      }
      i := i + 1;
    }
    r := |b|;
  }
}
