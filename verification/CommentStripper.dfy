/**
 Stripping C-style comments from a source body without touching string, raw
 string and template literals. Only ASCII bytes steer the scan, so a body is a
 sequence of characters here.
 */
module CommentStripper {
  import opened Prelude

  datatype Mode = Code | LineComment | BlockComment(depth: nat) | DqString | Template | RawString(hashes: nat)

  predicate InComment(m: Mode) {
    m.LineComment? || m.BlockComment?
  }

  /** One step of the scan: how many bytes it eats, and the mode after them. */
  datatype Step = Step(width: nat, next: Mode)

  /** The length of the run of `#` at the front. */
  function HashRun(s: string): (n: nat)
    ensures n <= |s|
    ensures forall k :: 0 <= k < n ==> s[k] == '#'
    ensures n < |s| ==> s[n] != '#'
  {
    if s != "" && s[0] == '#' then 1 + HashRun(s[1..]) else 0
  }

  predicate StartsWith(s: string, p: string) {
    |p| <= |s| && s[..|p|] == p
  }

  /** `r`, any number of `#`, and a quote open a raw string. */
  predicate OpensRaw(s: string)
    requires s != ""
  {
    s[0] == 'r' && var n := HashRun(s[1..]); 1 + n < |s| && s[1 + n] == '"'
  }

  /** A quote followed by as many `#` as opened the literal closes it. */
  predicate ClosesRaw(s: string, hashes: nat)
    requires s != ""
  {
    s[0] == '"' && 1 + hashes <= |s| && forall k :: 1 <= k < 1 + hashes ==> s[k] == '#'
  }

  function StepInCode(s: string): (r: Step)
    requires s != ""
    ensures 1 <= r.width <= |s|
  {
    if OpensRaw(s) then Step(HashRun(s[1..]) + 2, RawString(HashRun(s[1..])))
    else if StartsWith(s, "//") then Step(2, LineComment)
    else if StartsWith(s, "/*") then Step(2, BlockComment(1))
    else if s[0] == '"' then Step(1, DqString)
    else if s[0] == '`' then Step(1, Template)
    else Step(1, Code)
  }

  function StepInBlock(s: string, depth: nat): (r: Step)
    requires s != ""
    ensures 1 <= r.width <= |s|
  {
    if StartsWith(s, "/*") then Step(2, BlockComment(depth + 1))
    else if StartsWith(s, "*/") then Step(2, if depth <= 1 then Code else BlockComment(depth - 1))
    else Step(1, BlockComment(depth))
  }

  /** A literal closed by `quote`, in which a backslash protects the next byte. */
  function StepInQuoted(s: string, quote: char, mode: Mode): (r: Step)
    requires s != ""
    ensures 1 <= r.width <= |s|
  {
    if s[0] == '\\' && |s| > 1 then Step(2, mode)
    else if s[0] == quote then Step(1, Code)
    else Step(1, mode)
  }

  function Advance(s: string, mode: Mode): (r: Step)
    requires s != ""
    ensures 1 <= r.width <= |s|
  {
    match mode
    case Code => StepInCode(s)
    case LineComment => Step(1, if s[0] == '\n' then Code else LineComment)
    case BlockComment(depth) => StepInBlock(s, depth)
    case DqString => StepInQuoted(s, '"', DqString)
    case Template => StepInQuoted(s, '`', Template)
    case RawString(hashes) => if ClosesRaw(s, hashes) then Step(1 + hashes, Code) else Step(1, RawString(hashes))
  }

  function Newlines(s: string): string {
    if s == "" then "" else (if s[0] == '\n' then "\n" else "") + Newlines(s[1..])
  }

  lemma OneNewline(c: char)
    ensures Newlines([c]) == if c == '\n' then "\n" else ""
  {
    assert [c][1..] == "";
  }

  /** A step that starts or ends in a comment leaves its newlines; any other step leaves all. */
  function Emit(bytes: string, before: Mode, after: Mode): string {
    if InComment(before) || InComment(after) then Newlines(bytes) else bytes
  }

  /** The bytes that survive when the scan of `s` starts in `mode`. */
  function Kept(s: string, mode: Mode): string {
    if s == "" then "" else
    var step := Advance(s, mode);
    Emit(s[..step.width], mode, step.next) + Kept(s[step.width..], step.next)
  }

  /** One flag per byte: does it belong to a comment? */
  function CommentFlags(s: string, mode: Mode): (flags: seq<bool>)
    ensures |flags| == |s|
  {
    if s == "" then [] else
    var step := Advance(s, mode);
    Flags(step.width, mode, step.next) + CommentFlags(s[step.width..], step.next)
  }

  function Flags(n: nat, before: Mode, after: Mode): (flags: seq<bool>)
    ensures |flags| == n && forall k :: 0 <= k < n ==> flags[k] == (InComment(before) || InComment(after))
  {
    seq(n, _ => InComment(before) || InComment(after))
  }

  /** The mode the scan of `s` ends in. */
  function EndMode(s: string, mode: Mode): Mode {
    if s == "" then mode else
    var step := Advance(s, mode);
    EndMode(s[step.width..], step.next)
  }

  method CountHashes(body: string, from: nat) returns (n: nat)
    requires from <= |body|
    ensures n == HashRun(body[from..])
  {
    n := 0;
    while from + n < |body| && body[from + n] == '#'
      invariant from + n <= |body|
      invariant HashRun(body[from..]) == n + HashRun(body[from + n..])
    {
      assert body[from + n..][1..] == body[from + n + 1..];
      n := n + 1;
    }
  }

  // ---- the reference as a list of stops ----

  /** Where the scan stands after some steps, and what the reference has decided so far. */
  datatype Stop = Stop(i: nat, mode: Mode, kept: string, flags: seq<bool>)

  ghost predicate Grows(body: string, a: Stop, b: Stop) {
    && a.i < b.i <= |body|
    && b.kept == a.kept + Emit(body[a.i..b.i], a.mode, b.mode)
    && b.flags == a.flags + Flags(b.i - a.i, a.mode, b.mode)
  }

  ghost predicate IsStep(body: string, a: Stop, b: Stop) {
    Grows(body, a, b) && Advance(body[a.i..], a.mode) == Step(b.i - a.i, b.mode)
  }

  lemma Unroll(s: string, mode: Mode)
    requires s != ""
    ensures var step := Advance(s, mode);
      && Kept(s, mode) == Emit(s[..step.width], mode, step.next) + Kept(s[step.width..], step.next)
      && CommentFlags(s, mode) == Flags(step.width, mode, step.next) + CommentFlags(s[step.width..], step.next)
      && EndMode(s, mode) == EndMode(s[step.width..], step.next)
  {
  }

  lemma NextStop(body: string, from: Stop) returns (next: Stop)
    requires from.i < |body|
    ensures IsStep(body, from, next)
    ensures EndMode(body[from.i..], from.mode) == EndMode(body[next.i..], next.mode)
    ensures from.kept + Kept(body[from.i..], from.mode) == next.kept + Kept(body[next.i..], next.mode)
    ensures from.flags + CommentFlags(body[from.i..], from.mode) == next.flags + CommentFlags(body[next.i..], next.mode)
  {
    var s := body[from.i..];
    var step := Advance(s, from.mode);
    Unroll(s, from.mode);
    var end := from.i + step.width;
    assert s[..step.width] == body[from.i..end] && s[step.width..] == body[end..];
    var emitted, marks := Emit(body[from.i..end], from.mode, step.next), Flags(step.width, from.mode, step.next);
    next := Stop(end, step.next, from.kept + emitted, from.flags + marks);
    Associates(from.kept, emitted, Kept(body[end..], step.next));
    Associates(from.flags, marks, CommentFlags(body[end..], step.next));
  }

  /** The steps from `from` to the end of the body. */
  lemma {:induction false} Stops(body: string, from: Stop) returns (stops: seq<Stop>)
    requires from.i <= |body|
    ensures |stops| > 0 && stops[0] == from
    ensures forall k :: 0 <= k < |stops| - 1 ==> IsStep(body, stops[k], stops[k + 1])
    ensures var last := stops[|stops| - 1];
      && last.i == |body| && last.mode == EndMode(body[from.i..], from.mode)
      && last.kept == from.kept + Kept(body[from.i..], from.mode)
      && last.flags == from.flags + CommentFlags(body[from.i..], from.mode)
    decreases |body| - from.i
  {
    if from.i == |body| {
      return [from];
    }
    var next := NextStop(body, from);
    var rest := Stops(body, next);
    stops := [from] + rest;
    forall k | 0 <= k < |stops| - 1 ensures IsStep(body, stops[k], stops[k + 1]) {
      if k > 0 {
        assert stops[k] == rest[k - 1] && stops[k + 1] == rest[k];
      }
    }
  }

  /** The stops of a whole body. */
  ghost predicate AreStops(body: string, stops: seq<Stop>) {
    && |stops| > 0 && stops[0] == Stop(0, Code, "", []) && stops[|stops| - 1] == Last(body)
    && forall k :: 0 <= k < |stops| - 1 ==> IsStep(body, stops[k], stops[k + 1])
  }

  /** Where the scan of a body ends, and with what. */
  function Last(body: string): Stop {
    Stop(|body|, EndMode(body, Code), Kept(body, Code), CommentFlags(body, Code))
  }

  lemma AllStops(body: string) returns (stops: seq<Stop>)
    ensures AreStops(body, stops)
  {
    stops := Stops(body, Stop(0, Code, "", []));
    assert body[0..] == body;
    assert "" + Kept(body, Code) == Kept(body, Code);
    assert [] + CommentFlags(body, Code) == CommentFlags(body, Code);
  }

  // ---- where copying resumes ----

  /** The step leaves a comment. */
  predicate Leaves(a: Stop, b: Stop) { InComment(a.mode) && !InComment(b.mode) }

  /** Copying goes on at the newline that ends a line comment, and behind the end of a block comment. */
  function ResumeAt(a: Stop, b: Stop): nat {
    if a.mode.LineComment? then a.i else b.i
  }

  /** Where copying last resumed: at the last step that left a comment, or at the start. */
  ghost predicate Resumes(stops: seq<Stop>, n: nat, at: nat)
    requires n < |stops|
  {
    || (at == 0 && forall k :: 0 <= k < n ==> !Leaves(stops[k], stops[k + 1]))
    || exists m :: LastLeft(stops, n, m) && at == ResumeAt(stops[m], stops[m + 1])
  }

  ghost predicate LastLeft(stops: seq<Stop>, n: nat, m: int)
    requires n < |stops|
  {
    0 <= m < n && Leaves(stops[m], stops[m + 1]) && forall k :: m < k < n ==> !Leaves(stops[k], stops[k + 1])
  }

  lemma ResumesNext(stops: seq<Stop>, n: nat, at: nat)
    requires n + 1 < |stops| && Resumes(stops, n, at)
    ensures Resumes(stops, n + 1,
      if Leaves(stops[n], stops[n + 1]) then ResumeAt(stops[n], stops[n + 1]) else at)
  {
    if Leaves(stops[n], stops[n + 1]) {
      assert LastLeft(stops, n + 1, n);
    } else if m :| LastLeft(stops, n, m) && at == ResumeAt(stops[m], stops[m + 1]) {
      assert LastLeft(stops, n + 1, m);
    }
  }

  /** Where copying last resumed in the whole body. */
  ghost predicate ResumesIn(body: string, at: nat) {
    exists stops :: AreStops(body, stops) && Resumes(stops, |stops| - 1, at)
  }

  lemma {:induction false} SameStops(body: string, a: seq<Stop>, b: seq<Stop>, n: nat)
    requires AreStops(body, a) && AreStops(body, b) && n < |a| && n < |b|
    ensures a[n] == b[n]
  {
    if n > 0 {
      SameStops(body, a, b, n - 1);
      assert IsStep(body, a[n - 1], a[n]) && IsStep(body, b[n - 1], b[n]);
    }
  }

  lemma SameLength(body: string, a: seq<Stop>, b: seq<Stop>)
    requires AreStops(body, a) && AreStops(body, b)
    ensures |a| == |b|
  {
    var n := if |a| < |b| then |a| - 1 else |b| - 1;
    SameStops(body, a, b, n);
    StopsBefore(body, a, n);
    StopsBefore(body, b, n);
  }

  /** There is one such place. */
  lemma OneResume(body: string, x: nat, y: nat)
    requires ResumesIn(body, x) && ResumesIn(body, y)
    ensures x == y
  {
    var a :| AreStops(body, a) && Resumes(a, |a| - 1, x);
    var b :| AreStops(body, b) && Resumes(b, |b| - 1, y);
    OneList(body, a, b);
    ResumesOnce(a, |a| - 1, x, y);
  }

  lemma OneList(body: string, a: seq<Stop>, b: seq<Stop>)
    requires AreStops(body, a) && AreStops(body, b)
    ensures a == b
  {
    SameLength(body, a, b);
    forall n | 0 <= n < |a| ensures a[n] == b[n] { SameStops(body, a, b, n); }
  }

  lemma ResumesOnce(stops: seq<Stop>, n: nat, x: nat, y: nat)
    requires n < |stops| && Resumes(stops, n, x) && Resumes(stops, n, y)
    ensures x == y
  {
    if m :| LastLeft(stops, n, m) {
      assert forall k :: LastLeft(stops, n, k) ==> k == m;
    }
  }

  // ---- the stripper ----

  /** The scanner's variables between two steps. */
  datatype Scan = Scan(state: Mode, i: nat, copyFrom: nat, out: string)

  /** What is out and what is still to be copied make up what the reference has kept. */
  ghost predicate At(body: string, scan: Scan, stop: Stop) {
    && scan.copyFrom <= scan.i <= |body| && scan.i == stop.i && scan.state == stop.mode
    && (!InComment(scan.state) ==> scan.out + body[scan.copyFrom..scan.i] == stop.kept)
    && (InComment(scan.state) ==> scan.copyFrom < scan.i && scan.out == stop.kept)
  }

  /** The start of the slice still to be copied after a step. */
  function Copying(scan: Scan, a: Stop, b: Stop): nat {
    if Leaves(a, b) then ResumeAt(a, b) else scan.copyFrom
  }

  /** Outside comments a step only lengthens the slice still to be copied. */
  lemma Longer(body: string, scan: Scan, a: Stop, b: Stop)
    requires At(body, scan, a) && IsStep(body, a, b) && !InComment(a.mode) && !InComment(b.mode)
    ensures At(body, scan.(state := b.mode, i := b.i), b)
  {
    assert body[scan.copyFrom..a.i] + body[a.i..b.i] == body[scan.copyFrom..b.i];
  }

  /** The bytes that decide a step in code, read from the rest of the body. */
  lemma CodeAt(body: string, i: nat)
    requires i < |body|
    ensures var rest := body[i..];
      && rest[0] == body[i] && rest[1..] == body[i + 1..]
      && (OpensRaw(rest) <==> body[i] == 'r' && OpensAfter(body, i + 1))
      && (StartsWith(rest, "//") <==> i + 1 < |body| && body[i] == '/' && body[i + 1] == '/')
      && (StartsWith(rest, "/*") <==> i + 1 < |body| && body[i] == '/' && body[i + 1] == '*')
  {
    var rest := body[i..];
    assert |rest| > 1 ==> rest[1] == body[i + 1] && rest[..2] == [body[i], body[i + 1]];
    assert rest[1..] == body[i + 1..];
    var n := HashRun(body[i + 1..]);
    assert 1 + n < |rest| ==> rest[1 + n] == body[i + 1 + n];
  }

  /** Hashes and a quote. */
  predicate OpensAfter(body: string, from: nat)
    requires from <= |body|
  {
    var n := HashRun(body[from..]); from + n < |body| && body[from + n] == '"'
  }

  /** A step that opens a comment flushes the slice before it. */
  lemma OpensComment(body: string, scan: Scan, a: Stop, b: Stop)
    requires At(body, scan, a) && IsStep(body, a, b) && a.mode == Code && InComment(b.mode)
    ensures b.i == scan.i + 2
    ensures At(body, scan.(state := b.mode, i := scan.i + 2, out := scan.out + body[scan.copyFrom..scan.i]), b)
  {
    var mark := body[scan.i..scan.i + 2];
    assert mark == body[scan.i..][..2];
    NoNewlineInMark(mark);
  }

  lemma NoNewlineInMark(mark: string)
    requires mark == "//" || mark == "/*"
    ensures Newlines(mark) == ""
  {
    assert mark[1..] == [mark[1]];
    OneNewline(mark[1]);
  }

  method ScanCode(body: string, scan: Scan, ghost a: Stop, ghost b: Stop) returns (next: Scan)
    requires At(body, scan, a) && IsStep(body, a, b) && scan.state == Code
    ensures At(body, next, b) && next.copyFrom == Copying(scan, a, b)
  {
    var i, c := scan.i, body[scan.i];
    CodeAt(body, i);
    if c == 'r' {
      var hashes := CountHashes(body, i + 1);
      if i + 1 + hashes < |body| && body[i + 1 + hashes] == '"' {
        Longer(body, scan, a, b);
        return scan.(state := RawString(hashes), i := i + hashes + 2);
      }
    }
    if c == '/' && i + 1 < |body| && body[i + 1] == '/' {
      OpensComment(body, scan, a, b);
      return scan.(state := LineComment, i := i + 2, out := scan.out + body[scan.copyFrom..i]);
    }
    if c == '/' && i + 1 < |body| && body[i + 1] == '*' {
      OpensComment(body, scan, a, b);
      return scan.(state := BlockComment(1), i := i + 2, out := scan.out + body[scan.copyFrom..i]);
    }
    Longer(body, scan, a, b);
    if c == '"' {
      next := scan.(state := DqString, i := i + 1);
    } else if c == '`' {
      next := scan.(state := Template, i := i + 1);
    } else {
      next := scan.(i := i + 1);
    }
  }

  method ScanLineComment(body: string, scan: Scan, ghost a: Stop, ghost b: Stop) returns (next: Scan)
    requires At(body, scan, a) && IsStep(body, a, b) && scan.state == LineComment
    ensures At(body, next, b) && next.copyFrom == Copying(scan, a, b)
  {
    assert body[scan.i..][0] == body[scan.i] && body[scan.i..scan.i + 1] == [body[scan.i]];
    OneNewline(body[scan.i]);
    if body[scan.i] == '\n' {
      next := scan.(state := Code, copyFrom := scan.i, i := scan.i + 1);
    } else {
      next := scan.(i := scan.i + 1);
    }
  }

  method ScanBlockComment(body: string, scan: Scan, ghost a: Stop, ghost b: Stop) returns (next: Scan)
    requires At(body, scan, a) && IsStep(body, a, b) && scan.state.BlockComment?
    ensures At(body, next, b) && next.copyFrom == Copying(scan, a, b)
  {
    var i, c, depth := scan.i, body[scan.i], scan.state.depth;
    ghost var rest := body[i..];
    assert rest[0] == c && (|rest| > 1 ==> rest[1] == body[i + 1]);
    if c == '/' && i + 1 < |body| && body[i + 1] == '*' {
      assert rest[..2] == "/*" == body[i..i + 2];
      assert Newlines("/*") == "";
      return scan.(state := BlockComment(depth + 1), i := i + 2);
    }
    if c == '*' && i + 1 < |body| && body[i + 1] == '/' {
      assert rest[..2] == "*/" == body[i..i + 2];
      assert Newlines("*/") == "";
      if depth <= 1 {
        return scan.(state := Code, copyFrom := i + 2, i := i + 2);
      }
      return scan.(state := BlockComment(depth - 1), i := i + 2);
    }
    assert body[i..i + 1] == [c];
    OneNewline(c);
    next := scan.(i := i + 1, out := if c == '\n' then scan.out + "\n" else scan.out);
  }

  method ScanQuoted(body: string, scan: Scan, quote: char, ghost a: Stop, ghost b: Stop) returns (next: Scan)
    requires At(body, scan, a) && IsStep(body, a, b)
    requires (quote == '"' && scan.state == DqString) || (quote == '`' && scan.state == Template)
    ensures At(body, next, b) && next.copyFrom == Copying(scan, a, b)
  {
    var i, c := scan.i, body[scan.i];
    assert body[i..][0] == c;
    Longer(body, scan, a, b);
    if c == '\\' && i + 1 < |body| {
      next := scan.(i := i + 2);
    } else {
      next := scan.(state := if c == quote then Code else scan.state, i := i + 1);
    }
  }

  method ScanRaw(body: string, scan: Scan, ghost a: Stop, ghost b: Stop) returns (next: Scan)
    requires At(body, scan, a) && IsStep(body, a, b) && scan.state.RawString?
    ensures At(body, next, b) && next.copyFrom == Copying(scan, a, b)
  {
    var i, c := scan.i, body[scan.i];
    var end := i + 1 + scan.state.hashes;
    ghost var rest := body[i..];
    assert forall k :: i <= k < |body| ==> body[k] == rest[k - i];
    Longer(body, scan, a, b);
    if c == '"' && end <= |body| && forall k :: i + 1 <= k < end ==> body[k] == '#' {
      next := scan.(state := Code, i := end);
    } else {
      next := scan.(i := i + 1);
    }
  }

  /**
   The stripper as written: literal and code bytes are copied in slices, from the
   end of the last comment to the start of the next one.

   When the scan ends outside a comment the result is the reference; when it ends
   inside one, the slice that was already flushed is flushed again, so part of the
   code comes out twice, followed by the comment itself.
   */
  method Strip(body: string) returns (out: string)
    ensures !InComment(EndMode(body, Code)) ==> out == Kept(body, Code)
    ensures InComment(EndMode(body, Code)) ==>
      exists at: nat :: ResumesIn(body, at) && at < |body| && out == Kept(body, Code) + body[at..]
    ensures out == Kept(body, Code) <==> !InComment(EndMode(body, Code))
  {
    ghost var stops := AllStops(body);
    var scan := ScanAll(body, stops);
    out := scan.out;
    if scan.copyFrom < |body| {
      out := out + body[scan.copyFrom..];
    }
    Flushed(body, scan, Last(body), out);
  }

  /** The loop: one step of the reference per turn. */
  method ScanAll(body: string, ghost stops: seq<Stop>) returns (scan: Scan)
    requires AreStops(body, stops)
    ensures scan.i == |body| && At(body, scan, Last(body)) && Resumes(stops, |stops| - 1, scan.copyFrom)
  {
    ghost var n := 0;
    scan := Scan(Code, 0, 0, "");
    while scan.i < |body|
      invariant n < |stops| && At(body, scan, stops[n]) && Resumes(stops, n, scan.copyFrom)
      decreases |body| - scan.i
    {
      StopsBefore(body, stops, n);
      ResumesNext(stops, n, scan.copyFrom);
      scan := ScanStep(body, scan, stops[n], stops[n + 1]);
      n := n + 1;
    }
    StopsBefore(body, stops, n);
  }

  /** Only the last stop is at the end. */
  lemma StopsBefore(body: string, stops: seq<Stop>, n: nat)
    requires AreStops(body, stops) && n < |stops|
    ensures stops[n].i < |body| <==> n < |stops| - 1
    ensures n < |stops| - 1 ==> IsStep(body, stops[n], stops[n + 1])
  {
  }

  method ScanStep(body: string, scan: Scan, ghost a: Stop, ghost b: Stop) returns (next: Scan)
    requires At(body, scan, a) && IsStep(body, a, b)
    ensures At(body, next, b) && next.copyFrom == Copying(scan, a, b)
  {
    match scan.state {
      case Code => next := ScanCode(body, scan, a, b);
      case LineComment => next := ScanLineComment(body, scan, a, b);
      case BlockComment(_) => next := ScanBlockComment(body, scan, a, b);
      case DqString => next := ScanQuoted(body, scan, '"', a, b);
      case Template => next := ScanQuoted(body, scan, '`', a, b);
      case RawString(_) => next := ScanRaw(body, scan, a, b);
    }
  }

  /** The last slice: what was kept, and once more what a comment left open had already flushed. */
  lemma Flushed(body: string, scan: Scan, last: Stop, out: string)
    requires At(body, scan, last) && scan.i == |body|
    requires out == if scan.copyFrom < |body| then scan.out + body[scan.copyFrom..] else scan.out
    ensures !InComment(last.mode) ==> out == last.kept
    ensures InComment(last.mode) ==>
      scan.copyFrom < |body| && out == last.kept + body[scan.copyFrom..] && |out| > |last.kept|
  {
    assert body[scan.copyFrom..scan.i] == body[scan.copyFrom..];
    if scan.copyFrom == |body| {
      assert scan.out + "" == scan.out;
    }
  }

  // ---- what the reference means ----

  lemma {:induction false} NewlinesOfSum(a: string, b: string)
    ensures Newlines(a + b) == Newlines(a) + Newlines(b)
  {
    if a == "" {
      assert a + b == b;
    } else {
      NewlinesOfSum(a[1..], b);
      assert (a + b)[1..] == a[1..] + b;
    }
  }

  lemma {:induction false} NewlinesTwice(s: string)
    ensures Newlines(Newlines(s)) == Newlines(s)
  {
    if s != "" {
      NewlinesTwice(s[1..]);
      OneNewline(s[0]);
      NewlinesOfSum(if s[0] == '\n' then "\n" else "", Newlines(s[1..]));
    }
  }

  lemma {:induction false} NewlinesAlong(body: string, stops: seq<Stop>, n: nat)
    requires AreStops(body, stops) && n < |stops|
    ensures stops[n].i <= |body| && Newlines(stops[n].kept) == Newlines(body[..stops[n].i])
  {
    if n > 0 {
      NewlinesAlong(body, stops, n - 1);
      StopsBefore(body, stops, n - 1);
      NewlinesGrow(body, stops[n - 1], stops[n]);
    }
  }

  lemma {:induction false} NewlinesGrow(body: string, a: Stop, b: Stop)
    requires Grows(body, a, b) && Newlines(a.kept) == Newlines(body[..a.i])
    ensures Newlines(b.kept) == Newlines(body[..b.i])
  {
    var piece := body[a.i..b.i];
    var emitted := Emit(piece, a.mode, b.mode);
    NewlinesTwice(piece);
    assert Newlines(emitted) == Newlines(piece);
    NewlinesOfSum(a.kept, emitted);
    NewlinesOfSum(body[..a.i], piece);
    assert body[..a.i] + piece == body[..b.i];
  }

  /** Line numbers are safe: every newline of the body survives, and no other is added. */
  lemma NewlinesSurvive(body: string)
    ensures Newlines(Kept(body, Code)) == Newlines(body)
  {
    var stops := AllStops(body);
    NewlinesAlong(body, stops, |stops| - 1);
    assert body[..|body|] == body;
  }

  /** The bytes that are outside comments, or newlines. */
  function Select(s: string, flags: seq<bool>): string
    requires |s| == |flags|
  {
    if s == "" then "" else
    (if !flags[0] || s[0] == '\n' then [s[0]] else "") + Select(s[1..], flags[1..])
  }

  lemma {:induction false} SelectSum(a: string, b: string, fa: seq<bool>, fb: seq<bool>)
    requires |a| == |fa| && |b| == |fb|
    ensures Select(a + b, fa + fb) == Select(a, fa) + Select(b, fb)
  {
    if a == "" {
      assert a + b == b && fa + fb == fb;
    } else {
      var s, f := a + b, fa + fb;
      var head := if !fa[0] || a[0] == '\n' then [a[0]] else "";
      calc {
        Select(s, f);
        head + Select(s[1..], f[1..]);
        { assert s[1..] == a[1..] + b && f[1..] == fa[1..] + fb; }
        head + Select(a[1..] + b, fa[1..] + fb);
        { SelectSum(a[1..], b, fa[1..], fb); }
        head + (Select(a[1..], fa[1..]) + Select(b, fb));
        { Associates(head, Select(a[1..], fa[1..]), Select(b, fb)); }
        Select(a, fa) + Select(b, fb);
      }
    }
  }

  lemma {:induction false} SelectUniform(s: string, flags: seq<bool>, flag: bool)
    requires |s| == |flags| && forall k :: 0 <= k < |flags| ==> flags[k] == flag
    ensures Select(s, flags) == if flag then Newlines(s) else s
  {
    if s != "" {
      SelectUniform(s[1..], flags[1..], flag);
    }
  }

  lemma {:induction false} SelectAlong(body: string, stops: seq<Stop>, n: nat)
    requires AreStops(body, stops) && n < |stops|
    ensures Selected(body, stops[n])
  {
    if n > 0 {
      SelectAlong(body, stops, n - 1);
      StopsBefore(body, stops, n - 1);
      SelectGrows(body, stops[n - 1], stops[n]);
    }
  }

  ghost predicate Selected(body: string, stop: Stop) {
    |stop.flags| == stop.i <= |body| && stop.kept == Select(body[..stop.i], stop.flags)
  }

  /** A step emits what its flags select. */
  lemma EmitSelects(piece: string, from: Mode, to: Mode)
    ensures Emit(piece, from, to) == Select(piece, Flags(|piece|, from, to))
  {
    SelectUniform(piece, Flags(|piece|, from, to), InComment(from) || InComment(to));
  }

  lemma {:induction false} SelectGrows(body: string, a: Stop, b: Stop)
    requires Grows(body, a, b) && Selected(body, a)
    ensures Selected(body, b)
  {
    var front, piece, marks := body[..a.i], body[a.i..b.i], Flags(b.i - a.i, a.mode, b.mode);
    assert body[..b.i] == front + piece;
    calc {
      b.kept;
      a.kept + Emit(piece, a.mode, b.mode);
      { EmitSelects(piece, a.mode, b.mode); }
      Select(front, a.flags) + Select(piece, marks);
      { SelectSum(front, piece, a.flags, marks); }
      Select(front + piece, a.flags + marks);
    }
  }

  /** Byte by byte: exactly the bytes outside comments and the newlines are kept. */
  lemma KeptIsSelection(body: string)
    ensures Kept(body, Code) == Select(body, CommentFlags(body, Code))
  {
    var stops := AllStops(body);
    SelectAlong(body, stops, |stops| - 1);
    assert body[..|body|] == body;
  }
}
