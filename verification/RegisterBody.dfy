/**
 The hand-written JSON of the proxy's register call: the client writes
 `{"path":"…"}` with two escapes, the server reads it back by splitting on commas
 and colons and by two successive global replaces.
 */
module RegisterBody {
  import opened Prelude

  // ---- string operations of the standard library ----

  function TrimStart(s: string): string {
    if s != "" && IsSpace(s[0]) then TrimStart(s[1..]) else s
  }

  function TrimEnd(s: string): string {
    if s != "" && IsSpace(s[|s| - 1]) then TrimEnd(s[..|s| - 1]) else s
  }

  function Trim(s: string): string { TrimEnd(TrimStart(s)) }

  /** `trim_matches(c)` */
  function TrimMatches(s: string, c: char): string {
    if s != "" && s[0] == c then TrimMatches(s[1..], c)
    else if s != "" && s[|s| - 1] == c then TrimMatches(s[..|s| - 1], c)
    else s
  }

  /** What is between a leading `open` and a trailing `close`. */
  function Unwrap(s: string, open: char, close: char): Option<string> {
    if |s| >= 2 && s[0] == open && s[|s| - 1] == close then Some(s[1..|s| - 1]) else None
  }

  datatype Pair = Pair(key: string, value: string)

  /** Around the first `c`. */
  function SplitOnce(s: string, c: char): Option<Pair> {
    if s == "" then None
    else if s[0] == c then Some(Pair("", s[1..]))
    else
      var rest := SplitOnce(s[1..], c);
      if rest.None? then None else Some(Pair([s[0]] + rest.value.key, rest.value.value))
  }

  function ReplaceChar(s: string, c: char, with: string): string {
    if s == "" then ""
    else (if s[0] == c then with else [s[0]]) + ReplaceChar(s[1..], c, with)
  }

  // ---- writing ----

  function EscapeJson(s: string): string {
    ReplaceChar(ReplaceChar(s, '\\', "\\\\"), '"', "\\\"")
  }

  function RegisterBodyFor(path: string): string {
    "{\"path\":\"" + EscapeJson(path) + "\"}"
  }

  // ---- reading ----

  datatype Error = NotAnObject | MalformedEntry(entry: string) | NotQuoted(key: string) | MissingPath | EmptyPath

  datatype Result<T> = Ok(value: T) | Err(error: Error)

  function Unescape(value: string): string {
    ReplacePair(ReplacePair(value, '\\', '\\', '\\'), '\\', '"', '"')
  }

  /** The path after one entry of the fields. */
  function ReadEntry(raw: string, path: Option<string>): Result<Option<string>> {
    var entry := Trim(raw);
    if entry == "" then Ok(path) else
    var pair := SplitOnce(entry, ':');
    if pair.None? then Err(MalformedEntry(entry)) else
    var key := TrimMatches(Trim(pair.value.key), '"');
    var value := Unwrap(Trim(pair.value.value), '"', '"');
    if value.None? then Err(NotQuoted(key))
    else if key == "path" then Ok(Some(Unescape(value.value)))
    else Ok(path)
  }

  function ReadEntries(entries: seq<string>, path: Option<string>): Result<Option<string>> {
    if entries == [] then Ok(path) else
    var next := ReadEntry(entries[0], path);
    if next.Err? then next else ReadEntries(entries[1..], next.value)
  }

  function ParsedBody(body: string): Result<string> {
    var fields := Unwrap(Trim(body), '{', '}');
    if fields.None? then Err(NotAnObject) else
    var path := ReadEntries(SplitOn(fields.value, ','), None);
    if path.Err? then Err(path.error)
    else if path.value.None? then Err(MissingPath)
    else if path.value.value == "" then Err(EmptyPath)
    else Ok(path.value.value)
  }

  method ParseRegisterBody(body: string) returns (r: Result<string>)
    ensures r == ParsedBody(body)
    ensures r.Ok? ==> r.value != "" && ',' !in r.value
  {
    OnlyPlainPathsAreRead(body);
    var fields := Unwrap(Trim(body), '{', '}');
    if fields.None? {
      return Err(NotAnObject);
    }
    var path: Option<string> := None;
    var entries := SplitOn(fields.value, ',');
    for k := 0 to |entries|
      invariant ReadEntries(entries, None) == ReadEntries(entries[k..], path)
    {
      assert entries[k..][1..] == entries[k + 1..];
      var entry := Trim(entries[k]);
      if entry == "" {
        continue;
      }
      var pair := SplitOnce(entry, ':');
      if pair.None? {
        return Err(MalformedEntry(entry));
      }
      var key := TrimMatches(Trim(pair.value.key), '"');
      var value := Unwrap(Trim(pair.value.value), '"', '"');
      if value.None? {
        return Err(NotQuoted(key));
      }
      if key == "path" {
        path := Some(Unescape(value.value));
      }
    }
    if path.None? {
      return Err(MissingPath);
    }
    r := if path.value == "" then Err(EmptyPath) else Ok(path.value);
  }

  // ---- unescaping undoes escaping ----

  /** Only the quotes escaped: what lies between the two replaces. */
  function EscapeQuotes(s: string): string { ReplaceChar(s, '"', "\\\"") }

  lemma ReplaceCharCons(c: char, s: string, from: char, with: string)
    ensures ReplaceChar([c] + s, from, with) == (if c == from then with else [c]) + ReplaceChar(s, from, with)
  {
    assert ([c] + s)[1..] == s;
  }

  lemma EscapeCons(c: char, s: string)
    ensures EscapeJson([c] + s) ==
      (if c == '\\' then "\\\\" else if c == '"' then "\\\"" else [c]) + EscapeJson(s)
  {
    ReplaceCharCons(c, s, '\\', "\\\\");
    var rest := ReplaceChar(s, '\\', "\\\\");
    if c == '\\' {
      assert "\\\\" + rest == ['\\'] + (['\\'] + rest);
      ReplaceCharCons('\\', ['\\'] + rest, '"', "\\\"");
      ReplaceCharCons('\\', rest, '"', "\\\"");
    } else {
      ReplaceCharCons(c, rest, '"', "\\\"");
    }
  }

  lemma PairCons(c: char, s: string, a: char, b: char, with: char)
    requires c != a || s == "" || s[0] != b
    ensures ReplacePair([c] + s, a, b, with) == [c] + ReplacePair(s, a, b, with)
  {
    assert ([c] + s)[1..] == s;
  }

  lemma PairHit(s: string, a: char, b: char, with: char)
    ensures ReplacePair([a, b] + s, a, b, with) == [with] + ReplacePair(s, a, b, with)
  {
    assert ([a, b] + s)[2..] == s;
  }

  lemma {:induction false} BackslashesUndone(s: string)
    ensures ReplacePair(EscapeJson(s), '\\', '\\', '\\') == EscapeQuotes(s)
  {
    if s != "" {
      var c, rest := s[0], s[1..];
      assert s == [c] + rest;
      EscapeCons(c, rest);
      ReplaceCharCons(c, rest, '"', "\\\"");
      BackslashesUndone(rest);
      if c == '\\' {
        PairHit(EscapeJson(rest), '\\', '\\', '\\');
      } else if c == '"' {
        assert "\\\"" + EscapeJson(rest) == ['\\'] + (['"'] + EscapeJson(rest));
        PairCons('\\', ['"'] + EscapeJson(rest), '\\', '\\', '\\');
        PairCons('"', EscapeJson(rest), '\\', '\\', '\\');
      } else {
        PairCons(c, EscapeJson(rest), '\\', '\\', '\\');
      }
    }
  }

  lemma {:induction false} QuotesUndone(s: string)
    ensures ReplacePair(EscapeQuotes(s), '\\', '"', '"') == s
    ensures EscapeQuotes(s) == "" || EscapeQuotes(s)[0] != '"'
  {
    if s != "" {
      var c, rest := s[0], s[1..];
      assert s == [c] + rest;
      ReplaceCharCons(c, rest, '"', "\\\"");
      QuotesUndone(rest);
      if c == '"' {
        PairHit(EscapeQuotes(rest), '\\', '"', '"');
      } else {
        PairCons(c, EscapeQuotes(rest), '\\', '"', '"');
      }
    }
  }

  /** Over any runs of backslashes and quotes. */
  lemma UnescapeEscape(s: string)
    ensures Unescape(EscapeJson(s)) == s
  {
    BackslashesUndone(s);
    QuotesUndone(s);
  }

  // ---- what a body can say ----

  lemma {:induction false} ReplaceCharMembers(s: string, c: char, with: string, x: char)
    requires x in ReplaceChar(s, c, with)
    ensures x in s || x in with
  {
    if s != "" && x in ReplaceChar(s[1..], c, with) {
      ReplaceCharMembers(s[1..], c, with, x);
    }
  }

  lemma {:induction false} ReplacePairMembers(s: string, a: char, b: char, with: char, x: char)
    requires x in ReplacePair(s, a, b, with)
    ensures x in s || x == with
  {
    if s != "" {
      if |s| >= 2 && s[0] == a && s[1] == b {
        if x in ReplacePair(s[2..], a, b, with) { ReplacePairMembers(s[2..], a, b, with, x); }
      } else if x in ReplacePair(s[1..], a, b, with) {
        ReplacePairMembers(s[1..], a, b, with, x);
      }
    }
  }

  lemma {:induction false} TrimStartMembers(s: string, x: char)
    requires x in TrimStart(s)
    ensures x in s
  {
    if s != "" && IsSpace(s[0]) { TrimStartMembers(s[1..], x); }
  }

  lemma {:induction false} TrimEndMembers(s: string, x: char)
    requires x in TrimEnd(s)
    ensures x in s
  {
    if s != "" && IsSpace(s[|s| - 1]) { TrimEndMembers(s[..|s| - 1], x); }
  }

  lemma TrimMembers(s: string, x: char)
    requires x in Trim(s)
    ensures x in s
  {
    TrimEndMembers(TrimStart(s), x);
    TrimStartMembers(s, x);
  }

  lemma {:induction false} SplitOnceMembers(s: string, c: char, x: char)
    requires SplitOnce(s, c).Some? && x in SplitOnce(s, c).value.value
    ensures x in s
  {
    if s[0] != c { SplitOnceMembers(s[1..], c, x); }
  }

  lemma {:induction false} SplitPieces(s: string, c: char)
    ensures forall k :: 0 <= k < |SplitOn(s, c)| ==> c !in SplitOn(s, c)[k]
  {
    if s != "" {
      SplitPieces(s[1..], c);
    }
  }

  lemma {:induction false} SplitNothing(s: string, c: char)
    requires c !in s
    ensures SplitOn(s, c) == [s]
  {
    if s != "" {
      SplitNothing(s[1..], c);
      assert [s[0]] + s[1..] == s;
    }
  }

  lemma UnescapeMembers(s: string)
    requires ',' !in s
    ensures ',' !in Unescape(s)
  {
    if ',' in Unescape(s) {
      ReplacePairMembers(ReplacePair(s, '\\', '\\', '\\'), '\\', '"', '"', ',');
      ReplacePairMembers(s, '\\', '\\', '\\', ',');
    }
  }

  lemma EntryWithoutComma(raw: string, path: Option<string>)
    requires ',' !in raw && (path.Some? ==> ',' !in path.value)
    ensures var r := ReadEntry(raw, path); r.Ok? && r.value.Some? ==> ',' !in r.value.value
  {
    var entry := Trim(raw);
    var pair := SplitOnce(entry, ':');
    if entry != "" && pair.Some? {
      var value := Trim(pair.value.value);
      if ',' in value {
        TrimMembers(pair.value.value, ',');
        SplitOnceMembers(entry, ':', ',');
        TrimMembers(raw, ',');
      }
      var inner := Unwrap(value, '"', '"');
      if inner.Some? {
        UnescapeMembers(inner.value);
      }
    }
  }

  lemma {:induction false} EntriesWithoutComma(entries: seq<string>, path: Option<string>)
    requires forall k :: 0 <= k < |entries| ==> ',' !in entries[k]
    requires path.Some? ==> ',' !in path.value
    ensures var r := ReadEntries(entries, path); r.Ok? && r.value.Some? ==> ',' !in r.value.value
  {
    if entries != [] {
      EntryWithoutComma(entries[0], path);
      var next := ReadEntry(entries[0], path);
      if next.Ok? {
        EntriesWithoutComma(entries[1..], next.value);
      }
    }
  }

  /** No body at all registers the empty path or a path with a comma. */
  lemma OnlyPlainPathsAreRead(body: string)
    ensures ParsedBody(body).Ok? ==> ParsedBody(body).value != "" && ',' !in ParsedBody(body).value
  {
    var fields := Unwrap(Trim(body), '{', '}');
    if fields.Some? {
      SplitPieces(fields.value, ',');
      EntriesWithoutComma(SplitOn(fields.value, ','), None);
    }
  }

  // ---- the round trip ----

  lemma TrimKeeps(s: string)
    requires s != "" && !IsSpace(s[0]) && !IsSpace(s[|s| - 1])
    ensures Trim(s) == s
  {
  }

  lemma WrittenEntry(value: string)
    ensures ReadEntry("\"path\":\"" + value + "\"", None) == Ok(Some(Unescape(value)))
  {
    var quoted := "\"" + value + "\"";
    var entry := "\"path\":\"" + value + "\"";
    assert entry == "\"path\":" + quoted;
    TrimKeeps(entry);
    TrimKeeps(quoted);
    KeyOfEntry(quoted);
    assert quoted[1..|quoted| - 1] == value;
    PathKey();
  }

  lemma SplitOnceCons(c: char, s: string, at: char)
    requires c != at && SplitOnce(s, at).Some?
    ensures SplitOnce([c] + s, at) == Some(Pair([c] + SplitOnce(s, at).value.key, SplitOnce(s, at).value.value))
  {
    assert ([c] + s)[1..] == s;
  }

  lemma {:induction false} SplitOnceAt(key: string, rest: string, at: char)
    requires at !in key
    ensures SplitOnce(key + [at] + rest, at) == Some(Pair(key, rest))
  {
    if key == "" {
      assert (key + [at] + rest)[1..] == rest;
    } else {
      SplitOnceAt(key[1..], rest, at);
      SplitOnceCons(key[0], key[1..] + [at] + rest, at);
      assert [key[0]] + (key[1..] + [at] + rest) == key + [at] + rest;
      assert [key[0]] + key[1..] == key;
    }
  }

  lemma KeyOfEntry(quoted: string)
    ensures SplitOnce("\"path\":" + quoted, ':') == Some(Pair("\"path\"", quoted))
  {
    SplitOnceAt("\"path\"", quoted, ':');
    assert "\"path\"" + [':'] + quoted == "\"path\":" + quoted;
  }

  lemma PathKey()
    ensures TrimMatches(Trim("\"path\""), '"') == "path"
  {
    TrimKeeps("\"path\"");
    assert "\"path\""[1..] == "path\"";
    assert "path\""[..4] == "path";
    assert TrimMatches("path", '"') == "path";
    assert TrimMatches("path\"", '"') == "path";
  }

  lemma EscapedHasNoComma(path: string)
    requires ',' !in path
    ensures ',' !in EscapeJson(path)
  {
    if ',' in EscapeJson(path) {
      ReplaceCharMembers(ReplaceChar(path, '\\', "\\\\"), '"', "\\\"", ',');
      ReplaceCharMembers(path, '\\', "\\\\", ',');
    }
  }

  lemma PlainPathIsRead(path: string)
    requires ',' !in path
    ensures ParsedBody(RegisterBodyFor(path)) == if path == "" then Err(EmptyPath) else Ok(path)
  {
    var body, value := RegisterBodyFor(path), EscapeJson(path);
    var entry := "\"path\":\"" + value + "\"";
    TrimKeeps(body);
    assert body[1..|body| - 1] == entry;
    EscapedHasNoComma(path);
    SplitNothing(entry, ',');
    WrittenEntry(value);
    UnescapeEscape(path);
    assert [entry][1..] == [];
    assert ReadEntries([entry], None) == Ok(Some(path));
  }

  /** Reading gives back what was written exactly for the non-empty paths without a comma. */
  lemma RegisterRoundTripIff(path: string)
    ensures ParsedBody(RegisterBodyFor(path)) == Ok(path) <==> path != "" && ',' !in path
  {
    OnlyPlainPathsAreRead(RegisterBodyFor(path));
    if ',' !in path {
      PlainPathIsRead(path);
    }
  }

  lemma {:induction false} EscapeAppend(a: string, b: string)
    ensures EscapeJson(a + b) == EscapeJson(a) + EscapeJson(b)
  {
    if a == "" {
      assert a + b == b;
    } else {
      assert a == [a[0]] + a[1..] && a + b == [a[0]] + (a[1..] + b);
      EscapeCons(a[0], a[1..]);
      EscapeCons(a[0], a[1..] + b);
      EscapeAppend(a[1..], b);
    }
  }

  lemma EscapeOne(c: char)
    ensures EscapeJson([c]) == (if c == '\\' then "\\\\" else if c == '"' then "\\\"" else [c])
  {
    EscapeCons(c, "");
    assert [c] + "" == [c];
  }

  /** The half of a path before a comma is an unterminated string. */
  lemma HalfAnEntry(value: string)
    requires value == "" || (!IsSpace(value[|value| - 1]) && value[|value| - 1] != '"')
    ensures ReadEntry("\"path\":\"" + value, None) == Err(NotQuoted("path"))
  {
    var raw, half := "\"path\":\"" + value, "\"" + value;
    TrimKeeps(raw);
    assert raw == "\"path\":" + half;
    KeyOfEntry(half);
    TrimKeeps(half);
    PathKey();
  }

  lemma FirstEntryFails(body: string, entry: string, rest: string, e: Error)
    requires ',' !in entry && body == "{" + entry + "," + rest + "}" && ReadEntry(entry, None) == Err(e)
    ensures ParsedBody(body) == Err(e)
  {
    TrimKeeps(body);
    assert body[1..|body| - 1] == entry + [','] + rest;
    SplitFirst(entry, rest, ',');
  }

  lemma EscapedEnd(a: string)
    requires a != ""
    ensures EscapeJson(a) != "" && EscapeJson(a)[|EscapeJson(a)| - 1] == a[|a| - 1]
  {
    var n := |a| - 1;
    assert a == a[..n] + [a[n]];
    EscapeAppend(a[..n], [a[n]]);
    EscapeOne(a[n]);
  }

  lemma BodyWithComma(a: string, b: string)
    ensures RegisterBodyFor(a + "," + b) ==
      "{" + ("\"path\":\"" + EscapeJson(a)) + "," + (EscapeJson(b) + "\"") + "}"
  {
    EscapeAppend(a + ",", b);
    EscapeAppend(a, ",");
    EscapeOne(',');
    RegroupBody(EscapeJson(a), EscapeJson(b));
  }

  lemma RegroupBody(x: string, y: string)
    ensures "{\"path\":\"" + (x + "," + y) + "\"}" == "{" + ("\"path\":\"" + x) + "," + (y + "\"") + "}"
  {
  }

  /** A comma after anything but a quote or a space makes the server refuse the path. */
  lemma CommaPathIsRefused(a: string, b: string)
    requires ',' !in a && (a == "" || (!IsSpace(a[|a| - 1]) && a[|a| - 1] != '"'))
    ensures ParsedBody(RegisterBodyFor(a + "," + b)) == Err(NotQuoted("path"))
  {
    BodyWithComma(a, b);
    EscapedHasNoComma(a);
    if a != "" {
      EscapedEnd(a);
    }
    HalfAnEntry(EscapeJson(a));
    FirstEntryFails(RegisterBodyFor(a + "," + b), "\"path\":\"" + EscapeJson(a), EscapeJson(b) + "\"",
      NotQuoted("path"));
  }

  lemma {:induction false} SplitFirst(a: string, b: string, c: char)
    requires c !in a
    ensures SplitOn(a + [c] + b, c)[0] == a
  {
    if a != "" {
      assert (a + [c] + b)[1..] == a[1..] + [c] + b;
      SplitFirst(a[1..], b, c);
      assert [a[0]] + a[1..] == a;
    }
  }
}
