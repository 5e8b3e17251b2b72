/**
 A second reading of the same language, by grammar instead of by scanner: a body is
 a list of pieces, each of which says what should be left of it. A piece may stand
 only where it is read as itself: what follows it decides whether an `r` opens a raw
 literal, a `/` a comment, or a `*` closes one. The last piece may be left open.
 */
module CommentGrammar {
  import opened Prelude
  import opened CommentStripper

  /** The inside of a block comment: text and nested comments; the last may be left open. */
  datatype Remark = End | Text(c: char, rest: Remark) | Nested(inner: Remark, closed: bool, rest: Remark)

  /** The inside of a quoted literal. */
  datatype Quoted = Nil | Plain(c: char, rest: Quoted) | Escaped(c: char, rest: Quoted)

  datatype Piece =
    | Byte(c: char)
    | LineRemark(text: string, closed: bool)
    | BlockRemark(remark: Remark, closed: bool)
    | Literal(quote: char, quoted: Quoted, closed: bool)
    | RawLiteral(hashes: nat, text: string, closed: bool)

  // ---- what the pieces say ----

  function RemarkText(r: Remark): string {
    match r
    case End => ""
    case Text(c, rest) => [c] + RemarkText(rest)
    case Nested(inner, closed, rest) => "/*" + (RemarkText(inner) + ((if closed then "*/" else "") + RemarkText(rest)))
  }

  function QuotedText(q: Quoted): string {
    match q
    case Nil => ""
    case Plain(c, rest) => [c] + QuotedText(rest)
    case Escaped(c, rest) => ['\\', c] + QuotedText(rest)
  }

  function Hashes(n: nat): (s: string)
    ensures |s| == n && forall k :: 0 <= k < n ==> s[k] == '#'
  {
    seq(n, _ => '#')
  }

  function RawOpen(hashes: nat): string { "r" + Hashes(hashes) + "\"" }

  function RawClose(hashes: nat): string { "\"" + Hashes(hashes) }

  function Opening(p: Piece): string {
    match p
    case Byte(c) => [c]
    case LineRemark(_, _) => "//"
    case BlockRemark(_, _) => "/*"
    case Literal(quote, _, _) => [quote]
    case RawLiteral(hashes, _, _) => RawOpen(hashes)
  }

  function Inside(p: Piece): string {
    match p
    case Byte(_) => ""
    case LineRemark(text, _) => text
    case BlockRemark(remark, _) => RemarkText(remark)
    case Literal(_, quoted, _) => QuotedText(quoted)
    case RawLiteral(_, text, _) => text
  }

  function Closing(p: Piece): string {
    match p
    case Byte(_) => ""
    case LineRemark(_, closed) => if closed then "\n" else ""
    case BlockRemark(_, closed) => if closed then "*/" else ""
    case Literal(quote, _, closed) => if closed then [quote] else ""
    case RawLiteral(hashes, _, closed) => if closed then RawClose(hashes) else ""
  }

  function Source(p: Piece): string { Opening(p) + (Inside(p) + Closing(p)) }

  /** What a piece leaves behind: a comment its newlines, anything else itself. */
  function Left(p: Piece): string {
    match p
    case LineRemark(_, closed) => if closed then "\n" else ""
    case BlockRemark(remark, _) => Newlines(RemarkText(remark))
    case _ => Source(p)
  }

  function SourceOf(ps: seq<Piece>): string {
    if ps == [] then "" else Source(ps[0]) + SourceOf(ps[1..])
  }

  function LeftOf(ps: seq<Piece>): string {
    if ps == [] then "" else Left(ps[0]) + LeftOf(ps[1..])
  }

  // ---- where a piece may stand ----

  /** Text of a comment: no comment opens or closes at its first byte. */
  predicate IsText(t: string) { !StartsWith(t, "/*") && !StartsWith(t, "*/") }

  predicate RemarkOk(r: Remark, back: string)
    decreases r
  {
    match r
    case End => true
    case Text(c, rest) => IsText([c] + (RemarkText(rest) + back)) && RemarkOk(rest, back)
    case Nested(inner, true, rest) => RemarkOk(inner, "*/" + (RemarkText(rest) + back)) && RemarkOk(rest, back)
    case Nested(inner, false, rest) => RemarkOk(inner, "") && rest.End? && back == ""
  }

  /** A backslash takes the next byte with it; it stands alone only as the last byte of all. */
  predicate QuotedOk(q: Quoted, quote: char, back: string) {
    match q
    case Nil => true
    case Plain(c, rest) => c != quote && (c == '\\' ==> rest.Nil? && back == "") && QuotedOk(rest, quote, back)
    case Escaped(_, rest) => QuotedOk(rest, quote, back)
  }

  /** No quote inside the text is followed by enough hashes to close the literal. */
  predicate RawOk(text: string, hashes: nat, back: string) {
    forall k :: 0 <= k < |text| ==> !ClosesRaw(text[k..] + back, hashes)
  }

  /** Code: no literal and no comment opens at its first byte. */
  predicate IsCode(t: string)
    requires t != ""
  {
    !OpensRaw(t) && !StartsWith(t, "//") && !StartsWith(t, "/*") && t[0] != '"' && t[0] != '`'
  }

  predicate IsOpen(p: Piece) { !p.Byte? && !p.closed }

  predicate PieceOk(p: Piece, back: string) {
    && (IsOpen(p) ==> back == "")
    && match p
       case Byte(c) => IsCode([c] + back)
       case LineRemark(text, _) => '\n' !in text
       case BlockRemark(remark, _) => RemarkOk(remark, Closing(p) + back)
       case Literal(quote, quoted, _) => (quote == '"' || quote == '`') && QuotedOk(quoted, quote, Closing(p) + back)
       case RawLiteral(hashes, text, _) => RawOk(text, hashes, Closing(p) + back)
  }

  predicate PiecesOk(ps: seq<Piece>) {
    ps == [] || (PieceOk(ps[0], SourceOf(ps[1..])) && PiecesOk(ps[1..]))
  }

  /** The last piece is a comment that is not closed. */
  predicate EndsInComment(ps: seq<Piece>) {
    ps != [] && var p := ps[|ps| - 1]; (p.LineRemark? || p.BlockRemark?) && !p.closed
  }

  // ---- the scanner, read piece by piece ----

  /** From `t`, in `mode`, the scan leaves `kept` and goes on with `back` in `next`. */
  ghost predicate Scans(t: string, back: string, mode: Mode, kept: string, next: Mode) {
    && Kept(t, mode) == kept + Kept(back, next)
    && EndMode(t, mode) == EndMode(back, next)
  }

  lemma OneStep(t: string, back: string, mode: Mode, next: Mode)
    requires t != "" && |back| < |t| && Advance(t, mode) == Step(|t| - |back|, next) && t[|t| - |back|..] == back
    ensures Scans(t, back, mode, Emit(t[..|t| - |back|], mode, next), next)
  {
    Unroll(t, mode);
  }

  lemma Chain(t: string, u: string, back: string, m0: Mode, ka: string, m1: Mode, kb: string, m2: Mode)
    requires Scans(t, u, m0, ka, m1) && Scans(u, back, m1, kb, m2)
    ensures Scans(t, back, m0, ka + kb, m2)
  {
    Associates(ka, kb, Kept(back, m2));
  }

  lemma Nothing(t: string, mode: Mode)
    ensures Scans(t, t, mode, "", mode)
  {
    assert "" + Kept(t, mode) == Kept(t, mode);
  }

  // ---- block comments ----

  /** The depth after a remark: its own, unless comments were left open. */
  function DepthAfter(r: Remark, depth: nat): (d: nat)
    ensures d >= depth
  {
    match r
    case End => depth
    case Text(_, rest) => DepthAfter(rest, depth)
    case Nested(inner, closed, rest) => if closed then DepthAfter(rest, depth) else DepthAfter(inner, depth + 1)
  }

  lemma {:induction false} ClosedDepth(r: Remark, depth: nat, back: string)
    requires RemarkOk(r, back) && back != ""
    ensures DepthAfter(r, depth) == depth
  {
    if !r.End? {
      ClosedDepth(r.rest, depth, back);
    }
  }

  lemma BlockStep(t: string, depth: nat, opens: bool)
    requires depth >= 1 && StartsWith(t, if opens then "/*" else "*/")
    ensures Scans(t, t[2..], BlockComment(depth), "", StepInBlock(t, depth).next)
    ensures opens ==> StepInBlock(t, depth).next == BlockComment(depth + 1)
    ensures !opens ==> StepInBlock(t, depth).next == (if depth == 1 then Code else BlockComment(depth - 1))
  {
    assert t[0] == (if opens then '/' else '*') by { assert t[..2][0] == t[0]; }
    OneStep(t, t[2..], BlockComment(depth), StepInBlock(t, depth).next);
    MarkHasNoNewline(t[..2]);
  }

  lemma MarkHasNoNewline(mark: string)
    requires |mark| == 2 && mark[0] != '\n' && mark[1] != '\n'
    ensures Newlines(mark) == ""
  {
    assert mark[1..] == [mark[1]];
    OneNewline(mark[1]);
  }

  lemma TextStep(t: string, depth: nat)
    requires depth >= 1 && t != "" && IsText(t)
    ensures Scans(t, t[1..], BlockComment(depth), Newlines([t[0]]), BlockComment(depth))
  {
    OneStep(t, t[1..], BlockComment(depth), BlockComment(depth));
    assert t[..1] == [t[0]];
  }

  lemma NestScans(t: string, u: string, v: string, w: string, back: string, depth: nat, ku: string, kw: string,
    next: Mode)
    requires depth >= 1 && StartsWith(t, "/*") && t[2..] == u && StartsWith(v, "*/") && v[2..] == w
    requires Scans(u, v, BlockComment(depth + 1), ku, BlockComment(depth + 1))
    requires Scans(w, back, BlockComment(depth), kw, next)
    ensures Scans(t, back, BlockComment(depth), ku + kw, next)
  {
    BlockStep(t, depth, true);
    BlockStep(v, depth + 1, false);
    Chain(t, u, v, BlockComment(depth), "", BlockComment(depth + 1), ku, BlockComment(depth + 1));
    Chain(v, w, back, BlockComment(depth + 1), "", BlockComment(depth), kw, next);
    Chain(t, v, back, BlockComment(depth), "" + ku, BlockComment(depth + 1), "" + kw, next);
    assert "" + ku == ku && "" + kw == kw;
  }

  lemma RemarkNewlines(inner: string, close: string, rest: string)
    requires close == "*/" || close == ""
    ensures Newlines("/*" + (inner + (close + rest))) == Newlines(inner) + Newlines(rest)
  {
    var open := "/*";
    MarkHasNoNewline(open);
    if close != "" {
      MarkHasNoNewline(close);
    }
    NewlinesOfSum(close, rest);
    NewlinesOfSum(inner, close + rest);
    NewlinesOfSum(open, inner + (close + rest));
    assert "" + Newlines(rest) == Newlines(rest);
    assert "" + (Newlines(inner) + Newlines(rest)) == Newlines(inner) + Newlines(rest);
  }

  ghost predicate RemarkGoes(r: Remark, depth: nat, t: string, back: string) {
    Scans(t, back, BlockComment(depth), Newlines(RemarkText(r)), BlockComment(DepthAfter(r, depth)))
  }

  lemma TextGoes(r: Remark, depth: nat, t: string, u: string, back: string)
    requires r.Text? && depth >= 1 && t != "" && t[0] == r.c && t[1..] == u && IsText(t)
    requires RemarkGoes(r.rest, depth, u, back)
    ensures RemarkGoes(r, depth, t, back)
  {
    TextStep(t, depth);
    Chain(t, u, back, BlockComment(depth), Newlines([r.c]), BlockComment(depth), Newlines(RemarkText(r.rest)),
      BlockComment(DepthAfter(r.rest, depth)));
    NewlinesOfSum([r.c], RemarkText(r.rest));
  }

  lemma NestedGoes(r: Remark, depth: nat, t: string, u: string, v: string, w: string, back: string)
    requires r.Nested? && r.closed && depth >= 1 && DepthAfter(r.inner, depth + 1) == depth + 1
    requires StartsWith(t, "/*") && t[2..] == u && StartsWith(v, "*/") && v[2..] == w
    requires RemarkGoes(r.inner, depth + 1, u, v) && RemarkGoes(r.rest, depth, w, back)
    ensures RemarkGoes(r, depth, t, back)
  {
    NestScans(t, u, v, w, back, depth, Newlines(RemarkText(r.inner)), Newlines(RemarkText(r.rest)),
      BlockComment(DepthAfter(r.rest, depth)));
    RemarkNewlines(RemarkText(r.inner), "*/", RemarkText(r.rest));
  }

  lemma UnclosedGoes(r: Remark, depth: nat, t: string, u: string, back: string)
    requires r.Nested? && !r.closed && r.rest.End? && depth >= 1 && StartsWith(t, "/*") && t[2..] == u
    requires RemarkGoes(r.inner, depth + 1, u, back)
    ensures RemarkGoes(r, depth, t, back)
  {
    var inner := Newlines(RemarkText(r.inner));
    BlockStep(t, depth, true);
    Chain(t, u, back, BlockComment(depth), "", BlockComment(depth + 1), inner,
      BlockComment(DepthAfter(r.inner, depth + 1)));
    RemarkNewlines(RemarkText(r.inner), "", "");
    assert "" + inner == inner + Newlines("");
  }

  lemma {:induction false} RemarkScans(r: Remark, depth: nat, t: string, back: string)
    requires RemarkOk(r, back) && depth >= 1 && t == RemarkText(r) + back
    ensures RemarkGoes(r, depth, t, back)
    decreases r, 2
  {
    match r
    case End =>
      assert t == back;
      Nothing(t, BlockComment(depth));
    case Text(_, _) => TextScans(r, depth, t, back);
    case Nested(_, true, _) => NestedScans(r, depth, t, back);
    case Nested(_, false, _) => UnclosedScans(r, depth, t, back);
  }

  lemma {:induction false} TextScans(r: Remark, depth: nat, t: string, back: string)
    requires r.Text? && RemarkOk(r, back) && depth >= 1 && t == RemarkText(r) + back
    ensures RemarkGoes(r, depth, t, back)
    decreases r, 0
  {
    var u := RemarkText(r.rest) + back;
    assert t == [r.c] + u && t[1..] == u;
    RemarkScans(r.rest, depth, u, back);
    TextGoes(r, depth, t, u, back);
  }

  lemma {:induction false} NestedScans(r: Remark, depth: nat, t: string, back: string)
    requires r.Nested? && r.closed && RemarkOk(r, back) && depth >= 1 && t == RemarkText(r) + back
    ensures RemarkGoes(r, depth, t, back)
    decreases r, 1
  {
    var w := RemarkText(r.rest) + back;
    var v := "*/" + w;
    var u := RemarkText(r.inner) + v;
    Marked("*/", v, w);
    NestedText(r, t, u, back);
    Marked("/*", t, u);
    InnerScans(r, depth, u, v);
    RestScans(r, depth, w, back);
    NestedGoes(r, depth, t, u, v, w, back);
  }

  lemma NestedText(r: Remark, t: string, u: string, back: string)
    requires r.Nested? && r.closed && t == RemarkText(r) + back
    requires u == RemarkText(r.inner) + ("*/" + (RemarkText(r.rest) + back))
    ensures t == "/*" + u
  {
  }

  lemma {:induction false} InnerScans(r: Remark, depth: nat, u: string, v: string)
    requires r.Nested? && RemarkOk(r.inner, v) && v != "" && u == RemarkText(r.inner) + v
    ensures RemarkGoes(r.inner, depth + 1, u, v) && DepthAfter(r.inner, depth + 1) == depth + 1
    decreases r, 0
  {
    RemarkScans(r.inner, depth + 1, u, v);
    ClosedDepth(r.inner, depth + 1, v);
  }

  lemma {:induction false} RestScans(r: Remark, depth: nat, w: string, back: string)
    requires r.Nested? && RemarkOk(r.rest, back) && depth >= 1 && w == RemarkText(r.rest) + back
    ensures RemarkGoes(r.rest, depth, w, back)
    decreases r, 0
  {
    RemarkScans(r.rest, depth, w, back);
  }

  lemma {:induction false} UnclosedScans(r: Remark, depth: nat, t: string, back: string)
    requires r.Nested? && !r.closed && RemarkOk(r, back) && depth >= 1 && t == RemarkText(r) + back
    ensures RemarkGoes(r, depth, t, back)
    decreases r, 0
  {
    var u := RemarkText(r.inner) + back;
    assert t == "/*" + u;
    Marked("/*", t, u);
    RemarkScans(r.inner, depth + 1, u, back);
    UnclosedGoes(r, depth, t, u, back);
  }

  lemma Marked(mark: string, t: string, u: string)
    requires t == mark + u
    ensures StartsWith(t, mark) && t[|mark|..] == u
  {
  }

  // ---- literals and line comments ----

  lemma {:induction false} QuotedScans(q: Quoted, quote: char, mode: Mode, t: string, back: string)
    requires (quote == '"' && mode == DqString) || (quote == '`' && mode == Template)
    requires QuotedOk(q, quote, back) && t == QuotedText(q) + back
    ensures Scans(t, back, mode, QuotedText(q), mode)
  {
    match q
    case Nil =>
      assert t == back;
      Nothing(t, mode);
    case Plain(c, rest) =>
      var u := QuotedText(rest) + back;
      assert t == [c] + u && t[..1] == [c] && t[1..] == u;
      QuotedScans(rest, quote, mode, u, back);
      OneStep(t, u, mode, mode);
      Chain(t, u, back, mode, [c], mode, QuotedText(rest), mode);
    case Escaped(c, rest) =>
      var u := QuotedText(rest) + back;
      assert t == ['\\', c] + u && t[..2] == ['\\', c] && t[2..] == u;
      QuotedScans(rest, quote, mode, u, back);
      OneStep(t, u, mode, mode);
      Chain(t, u, back, mode, ['\\', c], mode, QuotedText(rest), mode);
  }

  lemma {:induction false} RawScans(text: string, hashes: nat, t: string, back: string)
    requires RawOk(text, hashes, back) && t == text + back
    ensures Scans(t, back, RawString(hashes), text, RawString(hashes))
  {
    if text == "" {
      assert t == back;
      Nothing(t, RawString(hashes));
    } else {
      var u := text[1..] + back;
      assert text[0..] + back == t && t[..1] == [text[0]] && t[1..] == u;
      forall k | 0 <= k < |text[1..]| ensures !ClosesRaw(text[1..][k..] + back, hashes) {
        assert text[1..][k..] == text[k + 1..];
      }
      RawScans(text[1..], hashes, u, back);
      OneStep(t, u, RawString(hashes), RawString(hashes));
      Chain(t, u, back, RawString(hashes), [text[0]], RawString(hashes), text[1..], RawString(hashes));
      assert [text[0]] + text[1..] == text;
    }
  }

  lemma {:induction false} LineScans(text: string, t: string, back: string)
    requires '\n' !in text && t == text + back
    ensures Scans(t, back, LineComment, "", LineComment)
  {
    if text == "" {
      assert t == back;
      Nothing(t, LineComment);
    } else {
      var u := text[1..] + back;
      assert t[..1] == [text[0]] && t[1..] == u && text[0] in text;
      LineScans(text[1..], u, back);
      OneNewline(text[0]);
      OneStep(t, u, LineComment, LineComment);
      Chain(t, u, back, LineComment, "", LineComment, "", LineComment);
    }
  }

  lemma {:induction false} HashRunOf(n: nat, back: string)
    requires back != "" && back[0] != '#'
    ensures HashRun(Hashes(n) + back) == n
  {
    if n == 0 {
      assert Hashes(0) + back == back;
    } else {
      HashRunOf(n - 1, back);
      assert (Hashes(n) + back)[1..] == Hashes(n - 1) + back;
    }
  }

  // ---- opening and closing ----

  /** The mode a piece opens. */
  function ModeIn(p: Piece): Mode {
    match p
    case Byte(_) => Code
    case LineRemark(_, _) => LineComment
    case BlockRemark(_, _) => BlockComment(1)
    case Literal(quote, _, _) => if quote == '"' then DqString else Template
    case RawLiteral(hashes, _, _) => RawString(hashes)
  }

  function ModeAfter(p: Piece): Mode {
    if !IsOpen(p) then Code
    else if p.BlockRemark? then BlockComment(DepthAfter(p.remark, 1))
    else ModeIn(p)
  }

  predicate IsComment(p: Piece) { p.LineRemark? || p.BlockRemark? }

  lemma OpensLiteral(p: Piece, t: string, u: string)
    requires (p.Literal? && (p.quote == '"' || p.quote == '`')) || p.RawLiteral?
    requires t == Opening(p) + u
    ensures Scans(t, u, Code, Opening(p), ModeIn(p))
  {
    var open := Opening(p);
    assert t[..|open|] == open && t[|open|..] == u;
    if p.RawLiteral? {
      assert t[1..] == Hashes(p.hashes) + ("\"" + u);
      HashRunOf(p.hashes, "\"" + u);
      assert t[0] == 'r' && t[1 + p.hashes] == '"';
    } else {
      assert t[0] == p.quote;
    }
    OneStep(t, u, Code, ModeIn(p));
  }

  lemma OpensComment(p: Piece, t: string, u: string)
    requires IsComment(p) && t == Opening(p) + u
    ensures Scans(t, u, Code, "", ModeIn(p))
  {
    var open := Opening(p);
    assert t[..2] == open && t[2..] == u && t[0] == '/';
    MarkHasNoNewline(open);
    OneStep(t, u, Code, ModeIn(p));
  }

  lemma ClosesLiteral(p: Piece, v: string, back: string)
    requires ((p.Literal? && (p.quote == '"' || p.quote == '`')) || p.RawLiteral?) && p.closed
    requires v == Closing(p) + back
    ensures Scans(v, back, ModeIn(p), Closing(p), Code)
  {
    var close := Closing(p);
    assert v[..|close|] == close && v[|close|..] == back;
    assert forall k :: 0 <= k < |close| ==> v[k] == close[k];
    OneStep(v, back, ModeIn(p), Code);
  }

  lemma ClosesComment(p: Piece, v: string, back: string)
    requires IsComment(p) && p.closed && v == Closing(p) + back
    ensures Scans(v, back, ModeIn(p), if p.LineRemark? then "\n" else "", Code)
  {
    if p.LineRemark? {
      assert v[..1] == "\n" && v[1..] == back;
      OneNewline('\n');
      OneStep(v, back, LineComment, Code);
    } else {
      assert v[..2] == "*/" && v[2..] == back;
      BlockStep(v, 1, false);
    }
  }

  // ---- whole pieces ----

  lemma ByteScans(c: char, t: string, back: string)
    requires t == [c] + back && IsCode(t)
    ensures Scans(t, back, Code, [c], Code)
  {
    assert t[..1] == [c] && t[1..] == back;
    OneStep(t, back, Code, Code);
  }

  lemma LiteralBodyScans(p: Piece, t: string, u: string, v: string)
    requires (p.Literal? && (p.quote == '"' || p.quote == '`') && QuotedOk(p.quoted, p.quote, v))
      || (p.RawLiteral? && RawOk(p.text, p.hashes, v))
    requires t == Opening(p) + u && u == Inside(p) + v
    ensures Scans(t, v, Code, Opening(p) + Inside(p), ModeIn(p))
  {
    OpensLiteral(p, t, u);
    if p.Literal? {
      QuotedScans(p.quoted, p.quote, ModeIn(p), u, v);
    } else {
      RawScans(p.text, p.hashes, u, v);
    }
    Chain(t, u, v, Code, Opening(p), ModeIn(p), Inside(p), ModeIn(p));
  }

  lemma LiteralScans(p: Piece, t: string, back: string)
    requires (p.Literal? || p.RawLiteral?) && PieceOk(p, back) && t == Source(p) + back
    ensures Scans(t, back, Code, Source(p), ModeAfter(p))
  {
    var v := Closing(p) + back;
    calc {
      t;
      { Associates(Opening(p), Inside(p) + Closing(p), back); }
      Opening(p) + (Inside(p) + Closing(p) + back);
      { Associates(Inside(p), Closing(p), back); }
      Opening(p) + (Inside(p) + v);
    }
    LiteralBodyScans(p, t, Inside(p) + v, v);
    Associates(Opening(p), Inside(p), Closing(p));
    if p.closed {
      ClosesLiteral(p, v, back);
      Chain(t, v, back, Code, Opening(p) + Inside(p), ModeIn(p), Closing(p), Code);
    } else {
      assert v == back;
    }
  }

  lemma LineRemarkScans(p: Piece, t: string, back: string)
    requires p.LineRemark? && PieceOk(p, back) && t == Source(p) + back
    ensures Scans(t, back, Code, Left(p), ModeAfter(p))
  {
    var v := Closing(p) + back;
    var u := p.text + v;
    assert t == Opening(p) + u;
    OpensComment(p, t, u);
    LineScans(p.text, u, v);
    Chain(t, u, v, Code, "", LineComment, "", LineComment);
    if p.closed {
      ClosesComment(p, v, back);
      Chain(t, v, back, Code, "" + "", LineComment, "\n", Code);
      assert "" + "" + "\n" == "\n";
    } else {
      assert v == back;
    }
  }

  lemma BlockRemarkScans(p: Piece, t: string, back: string)
    requires p.BlockRemark? && PieceOk(p, back) && t == Source(p) + back
    ensures Scans(t, back, Code, Left(p), ModeAfter(p))
  {
    var v := Closing(p) + back;
    var u := RemarkText(p.remark) + v;
    assert t == Opening(p) + u;
    OpensComment(p, t, u);
    RemarkScans(p.remark, 1, u, v);
    var kept := Newlines(RemarkText(p.remark));
    Chain(t, u, v, Code, "", BlockComment(1), kept, BlockComment(DepthAfter(p.remark, 1)));
    assert "" + kept == kept && kept + "" == kept;
    if p.closed {
      ClosedDepth(p.remark, 1, v);
      ClosesComment(p, v, back);
      Chain(t, v, back, Code, kept, BlockComment(1), "", Code);
    } else {
      assert v == back;
    }
  }

  lemma PieceScans(p: Piece, t: string, back: string)
    requires PieceOk(p, back) && t == Source(p) + back
    ensures Scans(t, back, Code, Left(p), ModeAfter(p))
  {
    match p
    case Byte(c) =>
      assert Source(p) == [c];
      ByteScans(c, t, back);
    case LineRemark(_, _) => LineRemarkScans(p, t, back);
    case BlockRemark(_, _) => BlockRemarkScans(p, t, back);
    case Literal(_, _, _) => LiteralScans(p, t, back);
    case RawLiteral(_, _, _) => LiteralScans(p, t, back);
  }

  function ModeAtEnd(ps: seq<Piece>): Mode {
    if ps == [] then Code else ModeAfter(ps[|ps| - 1])
  }

  lemma FirstScans(ps: seq<Piece>, t: string, back: string)
    requires ps != [] && PiecesOk(ps) && t == SourceOf(ps) && back == SourceOf(ps[1..])
    ensures Scans(t, back, Code, Left(ps[0]), ModeAfter(ps[0]))
  {
    PieceScans(ps[0], t, back);
  }

  ghost predicate ReadAs(ps: seq<Piece>, t: string) {
    Kept(t, Code) == LeftOf(ps) && EndMode(t, Code) == ModeAtEnd(ps)
  }

  lemma OpenIsRead(ps: seq<Piece>, t: string)
    requires |ps| == 1 && Scans(t, "", Code, Left(ps[0]), ModeAfter(ps[0]))
    ensures ReadAs(ps, t)
  {
    assert ps[1..] == [];
  }

  lemma ClosedIsRead(ps: seq<Piece>, t: string, rest: string)
    requires ps != [] && Scans(t, rest, Code, Left(ps[0]), Code) && ReadAs(ps[1..], rest) && ModeAfter(ps[0]) == Code
    ensures ReadAs(ps, t)
  {
    var after := ps[1..];
    if after != [] {
      assert ps[|ps| - 1] == after[|after| - 1];
    }
  }

  lemma OkCons(ps: seq<Piece>)
    requires ps != [] && PiecesOk(ps)
    ensures PiecesOk(ps[1..]) && (IsOpen(ps[0]) ==> SourceOf(ps[1..]) == "")
  {
  }

  lemma {:induction false} PiecesScan(ps: seq<Piece>, t: string)
    requires PiecesOk(ps) && t == SourceOf(ps)
    ensures ReadAs(ps, t)
  {
    if ps != [] {
      var rest := SourceOf(ps[1..]);
      OkCons(ps);
      FirstScans(ps, t, rest);
      if IsOpen(ps[0]) {
        NothingFollows(ps);
        OpenIsRead(ps, t);
      } else {
        PiecesScan(ps[1..], rest);
        ClosedIsRead(ps, t, rest);
      }
    }
  }

  lemma SourceNotEmpty(p: Piece)
    ensures Source(p) != ""
  {
  }

  /** An open piece is the last one. */
  lemma NothingFollows(ps: seq<Piece>)
    requires ps != [] && SourceOf(ps[1..]) == ""
    ensures |ps| == 1
  {
    var rest := ps[1..];
    if rest != [] {
      SourceNotEmpty(rest[0]);
    }
  }

  /**
   Scanner and grammar agree: on every list of pieces that stand where they may, what
   the scanner keeps is what the pieces leave, and its scan ends in a comment exactly
   when the last piece is an open one.
   */
  lemma GrammarAgrees(ps: seq<Piece>)
    requires PiecesOk(ps)
    ensures Kept(SourceOf(ps), Code) == LeftOf(ps)
    ensures InComment(EndMode(SourceOf(ps), Code)) <==> EndsInComment(ps)
  {
    PiecesScan(ps, SourceOf(ps));
    EndModes(ps);
  }

  lemma EndModes(ps: seq<Piece>)
    ensures InComment(ModeAtEnd(ps)) <==> EndsInComment(ps)
  {
  }

  // ---- every body is such a list ----

  /** A parsed stretch: whether it was closed, and what comes after. */
  datatype Parsed<T> = Parsed(value: T, closed: bool, rest: string)

  lemma {:induction false} ParseRemark(s: string) returns (p: Parsed<Remark>)
    ensures var back := if p.closed then "*/" + p.rest else "";
      RemarkOk(p.value, back) && s == RemarkText(p.value) + back
    ensures |p.rest| <= |s| && (p.closed ==> |p.rest| < |s|)
    decreases |s|
  {
    if s == "" {
      p := Parsed(End, false, "");
    } else if StartsWith(s, "*/") {
      p := Parsed(End, true, s[2..]);
      assert s == s[..2] + s[2..];
    } else if StartsWith(s, "/*") {
      var inner := ParseRemark(s[2..]);
      assert s == "/*" + s[2..];
      if !inner.closed {
        p := Parsed(Nested(inner.value, false, End), false, "");
        assert s == RemarkText(p.value) + "";
      } else {
        var after := ParseRemark(inner.rest);
        p := Parsed(Nested(inner.value, true, after.value), after.closed, after.rest);
        var back := if p.closed then "*/" + p.rest else "";
        NestedSource(s, inner.value, after.value, inner.rest, back);
      }
    } else {
      var after := ParseRemark(s[1..]);
      p := Parsed(Text(s[0], after.value), after.closed, after.rest);
      var back := if p.closed then "*/" + p.rest else "";
      assert s == [s[0]] + s[1..];
      Associates([s[0]], RemarkText(after.value), back);
    }
  }

  lemma NestedSource(s: string, inner: Remark, after: Remark, rest: string, back: string)
    requires s == "/*" + (RemarkText(inner) + ("*/" + rest)) && rest == RemarkText(after) + back
    ensures s == RemarkText(Nested(inner, true, after)) + back
  {
    var a, b := RemarkText(inner), RemarkText(after);
    assert "/*" + (a + ("*/" + (b + back))) == "/*" + (a + ("*/" + b)) + back;
  }

  lemma {:induction false} ParseQuoted(s: string, quote: char) returns (p: Parsed<Quoted>)
    requires quote != '\\'
    ensures var back := if p.closed then [quote] + p.rest else "";
      QuotedOk(p.value, quote, back) && s == QuotedText(p.value) + back
    ensures |p.rest| <= |s|
  {
    if s == "" {
      p := Parsed(Nil, false, "");
    } else if s[0] == quote {
      p := Parsed(Nil, true, s[1..]);
      assert s == "" + ([quote] + s[1..]);
    } else if s[0] == '\\' && |s| > 1 {
      var after := ParseQuoted(s[2..], quote);
      p := Parsed(Escaped(s[1], after.value), after.closed, after.rest);
      assert s == ['\\', s[1]] + s[2..];
    } else {
      var after := ParseQuoted(s[1..], quote);
      p := Parsed(Plain(s[0], after.value), after.closed, after.rest);
      assert s == [s[0]] + s[1..];
    }
  }

  lemma {:induction false} ParseRaw(s: string, hashes: nat) returns (p: Parsed<string>)
    ensures var back := if p.closed then RawClose(hashes) + p.rest else "";
      RawOk(p.value, hashes, back) && s == p.value + back
    ensures |p.rest| <= |s|
  {
    if s == "" {
      p := Parsed("", false, "");
    } else if ClosesRaw(s, hashes) {
      p := Parsed("", true, s[1 + hashes..]);
      assert s[..1 + hashes] == RawClose(hashes);
      assert s == "" + (RawClose(hashes) + p.rest);
    } else {
      var after := ParseRaw(s[1..], hashes);
      p := Parsed([s[0]] + after.value, after.closed, after.rest);
      var back := if p.closed then RawClose(hashes) + p.rest else "";
      assert s == p.value + back;
      forall k | 0 <= k < |p.value| ensures !ClosesRaw(p.value[k..] + back, hashes) {
        if k == 0 {
          assert p.value[0..] + back == s;
        } else {
          assert p.value[k..] == after.value[k - 1..];
        }
      }
    }
  }

  lemma {:induction false} ParseLine(s: string) returns (p: Parsed<string>)
    ensures '\n' !in p.value && s == p.value + if p.closed then "\n" + p.rest else ""
    ensures |p.rest| <= |s|
  {
    if s == "" {
      p := Parsed("", false, "");
    } else if s[0] == '\n' {
      p := Parsed("", true, s[1..]);
      assert s == "\n" + s[1..];
    } else {
      var after := ParseLine(s[1..]);
      p := Parsed([s[0]] + after.value, after.closed, after.rest);
      assert s == [s[0]] + s[1..];
    }
  }

  lemma ParseLinePiece(body: string) returns (p: Piece, rest: string)
    requires StartsWith(body, "//")
    ensures PieceOk(p, rest) && body == Source(p) + rest && |rest| < |body|
  {
    var text := ParseLine(body[2..]);
    p, rest := LineRemark(text.value, text.closed), if text.closed then text.rest else "";
    assert body == body[..2] + body[2..] == Source(p) + rest;
  }

  lemma ParseBlockPiece(body: string) returns (p: Piece, rest: string)
    requires StartsWith(body, "/*")
    ensures PieceOk(p, rest) && body == Source(p) + rest && |rest| < |body|
  {
    var remark := ParseRemark(body[2..]);
    p, rest := BlockRemark(remark.value, remark.closed), if remark.closed then remark.rest else "";
    assert Closing(p) + rest == if remark.closed then "*/" + remark.rest else "";
    assert body == body[..2] + body[2..] == Source(p) + rest;
  }

  lemma ParseLiteral(body: string) returns (p: Piece, rest: string)
    requires body != "" && (body[0] == '"' || body[0] == '`')
    ensures PieceOk(p, rest) && body == Source(p) + rest && |rest| < |body|
  {
    var quoted := ParseQuoted(body[1..], body[0]);
    p, rest := Literal(body[0], quoted.value, quoted.closed), if quoted.closed then quoted.rest else "";
    assert Closing(p) + rest == if quoted.closed then [body[0]] + quoted.rest else "";
    assert body == [body[0]] + body[1..] == Source(p) + rest;
  }

  /** The piece a body starts with, and the rest of the body. */
  lemma ParsePiece(body: string) returns (p: Piece, rest: string)
    requires body != ""
    ensures PieceOk(p, rest) && body == Source(p) + rest && |rest| < |body|
  {
    if OpensRaw(body) {
      p, rest := ParseRawPiece(body);
    } else if StartsWith(body, "//") {
      p, rest := ParseLinePiece(body);
    } else if StartsWith(body, "/*") {
      p, rest := ParseBlockPiece(body);
    } else if body[0] == '"' || body[0] == '`' {
      p, rest := ParseLiteral(body);
    } else {
      p, rest := Byte(body[0]), body[1..];
      assert body == [body[0]] + body[1..] && Source(p) == [body[0]];
    }
  }

  lemma Regrouped(a: string, b: string, c: string, d: string)
    ensures a + (b + (c + d)) == a + (b + c) + d
  {
  }

  lemma ParseRawPiece(body: string) returns (p: Piece, rest: string)
    requires body != "" && OpensRaw(body)
    ensures PieceOk(p, rest) && body == Source(p) + rest && |rest| < |body|
  {
    var hashes := HashRun(body[1..]);
    var raw := ParseRaw(body[2 + hashes..], hashes);
    p, rest := RawLiteral(hashes, raw.value, raw.closed), if raw.closed then raw.rest else "";
    assert body[..2 + hashes] == RawOpen(hashes);
    var back := if raw.closed then RawClose(hashes) + raw.rest else "";
    assert Closing(p) + rest == back;
    Regrouped(RawOpen(hashes), raw.value, Closing(p), rest);
    assert body == body[..2 + hashes] + body[2 + hashes..];
  }

  /** The grammar leaves nothing out: every body is a list of pieces that stand where they may. */
  lemma {:induction false} EveryBodyParses(body: string) returns (ps: seq<Piece>)
    ensures PiecesOk(ps) && SourceOf(ps) == body
    decreases |body|
  {
    if body == "" {
      ps := [];
    } else {
      var p, rest := ParsePiece(body);
      var after := EveryBodyParses(rest);
      ps := [p] + after;
      assert ps[1..] == after;
    }
  }

  /** The shortest body that ends in a comment: what comes out is not what its one piece leaves. */
  method OpenCommentExample() returns (out: string)
    ensures var ps := [LineRemark("", false)]; PiecesOk(ps) && SourceOf(ps) == "//" && LeftOf(ps) == ""
    ensures out != ""
  {
    var ps := [LineRemark("", false)];
    assert ps[1..] == [];
    assert PiecesOk([]) && SourceOf([]) == "" && LeftOf([]) == "";
    assert Source(ps[0]) == "//";
    assert SourceOf(ps) == "//" + "";
    assert LeftOf(ps) == "" + "";
    GrammarAgrees(ps);
    out := Strip("//");
  }
}
