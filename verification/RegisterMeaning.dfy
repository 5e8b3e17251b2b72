/**
 Which bodies the proxy's register call accepts, and as which path, said about the text:
 a braced list of comma-separated entries, each a name, a colon and a quoted value, of
 which the last `path` counts.
 */
module RegisterMeaning {
  import opened Prelude
  import opened RegisterBody

  // ---- the string operations ----

  /** The part of a string between positions, with only spaces outside and none at its ends. */
  ghost predicate TrimmedAt(s: string, i: int, j: int) {
    && 0 <= i <= j <= |s|
    && (forall k :: 0 <= k < i ==> IsSpace(s[k])) && (forall k :: j <= k < |s| ==> IsSpace(s[k]))
    && (i < j ==> !IsSpace(s[i]) && !IsSpace(s[j - 1]))
  }

  lemma {:induction false} TrimStartAt(s: string) returns (i: nat)
    ensures i <= |s| && TrimStart(s) == s[i..] && (forall k :: 0 <= k < i ==> IsSpace(s[k]))
    ensures i < |s| ==> !IsSpace(s[i])
  {
    i := 0;
    if s != "" && IsSpace(s[0]) {
      var n := TrimStartAt(s[1..]);
      i := n + 1;
      assert s[1..][n..] == s[i..];
      forall k | 0 < k < i ensures IsSpace(s[k]) { assert s[k] == s[1..][k - 1]; }
    }
  }

  lemma {:induction false} TrimEndAt(s: string) returns (j: nat)
    ensures j <= |s| && TrimEnd(s) == s[..j] && (forall k :: j <= k < |s| ==> IsSpace(s[k]))
    ensures j > 0 ==> !IsSpace(s[j - 1])
  {
    j := |s|;
    if s != "" && IsSpace(s[|s| - 1]) {
      var rest := s[..|s| - 1];
      j := TrimEndAt(rest);
      assert rest[..j] == s[..j];
      forall k | j <= k < |s| ensures IsSpace(s[k]) { assert k < |rest| ==> s[k] == rest[k]; }
    } else {
      assert s[..j] == s;
    }
  }

  /** Trimming gives the text without the whitespace around it. */
  lemma TrimIs(s: string) returns (i: nat, j: nat)
    ensures TrimmedAt(s, i, j) && Trim(s) == s[i..j]
  {
    i := TrimStartAt(s);
    var t := s[i..];
    var n := TrimEndAt(t);
    j := i + n;
    assert t[..n] == s[i..j];
    forall k | j <= k < |s| ensures IsSpace(s[k]) { assert s[k] == t[k - i]; }
    if n > 0 {
      assert t[n - 1] == s[j - 1] && t[0] == s[i];
    }
  }

  /** Cutting at the first separator. */
  lemma {:induction false} SplitOnceIs(s: string, c: char)
    ensures SplitOnce(s, c) == None <==> c !in s
    ensures SplitOnce(s, c).Some? ==>
      var pair := SplitOnce(s, c).value; s == pair.key + [c] + pair.value && c !in pair.key
  {
    if s != "" {
      assert s == [s[0]] + s[1..];
      SplitOnceIs(s[1..], c);
    }
  }

  lemma {:induction false} SplitOnceAt(key: string, c: char, value: string)
    requires c !in key
    ensures SplitOnce(key + [c] + value, c) == Some(Pair(key, value))
  {
    var s := key + [c] + value;
    if key == "" {
      assert s[1..] == value;
    } else {
      assert s[1..] == key[1..] + [c] + value;
      SplitOnceAt(key[1..], c, value);
      assert [key[0]] + key[1..] == key;
    }
  }

  /** A name without the quotes around it, however many. */
  ghost predicate BareAt(s: string, c: char, i: int, j: int) {
    && 0 <= i <= j <= |s|
    && (forall k :: 0 <= k < i ==> s[k] == c) && (forall k :: j <= k < |s| ==> s[k] == c)
    && (i < j ==> s[i] != c && s[j - 1] != c)
  }

  lemma {:induction false} TrimMatchesIs(s: string, c: char) returns (i: nat, j: nat)
    ensures BareAt(s, c, i, j) && TrimMatches(s, c) == s[i..j]
    decreases |s|
  {
    if s != "" && s[0] == c {
      var a, b := TrimMatchesIs(s[1..], c);
      i, j := a + 1, b + 1;
      assert s[1..][a..b] == s[i..j];
      assert forall k :: 0 < k < |s| ==> s[k] == s[1..][k - 1];
    } else if s != "" && s[|s| - 1] == c {
      var rest := s[..|s| - 1];
      i, j := TrimMatchesIs(rest, c);
      assert rest[i..j] == s[i..j];
      assert forall k :: 0 <= k < |rest| ==> s[k] == rest[k];
    } else {
      i, j := 0, |s|;
      assert s[0..|s|] == s;
    }
  }

  // ---- entries ----

  /** The entry names a field and quotes its value. */
  ghost predicate FieldIs(raw: string, key: string, value: string) {
    exists k, v :: Names(raw, k, v) && key == TrimMatches(Trim(k), '"') && Trim(v) == "\"" + value + "\""
  }

  /** The entry, trimmed, is a name, the first colon, and the rest. */
  ghost predicate Names(raw: string, k: string, v: string) {
    Trim(raw) == k + ":" + v && ':' !in k
  }

  lemma NamesIs(raw: string, k: string, v: string)
    ensures Names(raw, k, v) <==> SplitOnce(Trim(raw), ':') == Some(Pair(k, v))
  {
    SplitOnceIs(Trim(raw), ':');
    if Names(raw, k, v) {
      SplitOnceAt(k, ':', v);
    }
  }

  lemma QuotedIs(s: string, value: string)
    ensures Unwrap(s, '"', '"') == Some(value) <==> s == "\"" + value + "\""
  {
    if Unwrap(s, '"', '"') == Some(value) {
      assert s == [s[0]] + s[1..|s| - 1] + [s[|s| - 1]];
    }
    if s == "\"" + value + "\"" {
      assert s[1..|s| - 1] == value;
    }
  }

  lemma BracedIs(s: string, fields: string)
    ensures Unwrap(s, '{', '}') == Some(fields) <==> s == "{" + fields + "}"
  {
    if Unwrap(s, '{', '}') == Some(fields) {
      assert s == [s[0]] + s[1..|s| - 1] + [s[|s| - 1]];
    }
    if s == "{" + fields + "}" {
      assert s[1..|s| - 1] == fields;
    }
  }

  /** What one entry is read as. */
  datatype Reading = Nothing | Field(key: string, value: string) | NoColon(entry: string) | NoQuotes(key: string)

  ghost predicate ReadsAs(raw: string, r: Reading) {
    match r
    case Nothing => Trim(raw) == ""
    case Field(key, value) => FieldIs(raw, key, value)
    case NoColon(entry) => entry == Trim(raw) != "" && ':' !in entry
    case NoQuotes(key) =>
      exists k, v :: Names(raw, k, v) && key == TrimMatches(Trim(k), '"')
        && forall value :: Trim(v) != "\"" + value + "\""
  }

  /** What a reading does to the path read so far. */
  function After(r: Reading, path: Option<string>): Result<Option<string>> {
    match r
    case Nothing => Ok(path)
    case Field(key, value) => Ok(if key == "path" then Some(Unescape(value)) else path)
    case NoColon(entry) => Err(MalformedEntry(entry))
    case NoQuotes(key) => Err(NotQuoted(key))
  }

  /** Every entry has one reading, and it decides. */
  lemma EntryReads(raw: string) returns (r: Reading)
    ensures ReadsAs(raw, r)
    ensures forall path :: ReadEntry(raw, path) == After(r, path)
    ensures forall other :: ReadsAs(raw, other) ==> other == r
  {
    var entry := Trim(raw);
    var pair := SplitOnce(entry, ':');
    SplitOnceIs(entry, ':');
    forall k, v ensures Names(raw, k, v) <==> pair == Some(Pair(k, v)) { NamesIs(raw, k, v); }
    if entry == "" {
      r := Nothing;
    } else if pair.None? {
      r := NoColon(entry);
    } else {
      r := PairReads(raw, pair.value.key, pair.value.value);
    }
  }

  lemma PairReads(raw: string, k: string, v: string) returns (r: Reading)
    requires Names(raw, k, v) && forall x, y :: Names(raw, x, y) ==> x == k && y == v
    ensures ReadsAs(raw, r) && !r.Nothing? && !r.NoColon?
    ensures forall other :: ReadsAs(raw, other) ==> other == r
    ensures var key, inner := TrimMatches(Trim(k), '"'), Unwrap(Trim(v), '"', '"');
      r == if inner.Some? then Field(key, inner.value) else NoQuotes(key)
  {
    var key, inner := TrimMatches(Trim(k), '"'), Unwrap(Trim(v), '"', '"');
    forall value ensures inner == Some(value) <==> Trim(v) == "\"" + value + "\"" { QuotedIs(Trim(v), value); }
    r := if inner.Some? then Field(key, inner.value) else NoQuotes(key);
    assert Trim(raw) != "";
  }

  // ---- the body ----

  ghost predicate GoodEntry(raw: string) {
    Trim(raw) == "" || exists key, value :: FieldIs(raw, key, value)
  }

  /** The last entry that names the path. */
  ghost predicate LastPath(entries: seq<string>, k: int, value: string) {
    0 <= k < |entries| && FieldIs(entries[k], "path", value) && forall j :: k < j < |entries| ==> !NamesPath(entries[j])
  }

  ghost predicate NamesPath(raw: string) { exists value :: FieldIs(raw, "path", value) }

  ghost predicate AllGood(entries: seq<string>) {
    forall k :: 0 <= k < |entries| ==> GoodEntry(entries[k])
  }

  lemma OneValue(raw: string, a: string, b: string)
    requires FieldIs(raw, "path", a) && FieldIs(raw, "path", b)
    ensures a == b
  {
    var r := EntryReads(raw);
    assert ReadsAs(raw, Field("path", a)) && ReadsAs(raw, Field("path", b));
  }

  lemma EntryIs(raw: string, path: Option<string>)
    ensures ReadEntry(raw, path).Ok? <==> GoodEntry(raw)
    ensures forall value :: FieldIs(raw, "path", value) ==> ReadEntry(raw, path) == Ok(Some(Unescape(value)))
    ensures GoodEntry(raw) && !NamesPath(raw) ==> ReadEntry(raw, path) == Ok(path)
  {
    var r := EntryReads(raw);
    forall value | FieldIs(raw, "path", value) ensures r == Field("path", value) {
      assert ReadsAs(raw, Field("path", value));
    }
    if r.Field? {
      assert FieldIs(raw, r.key, r.value);
    }
    if GoodEntry(raw) && Trim(raw) != "" {
      var key, value :| FieldIs(raw, key, value);
      assert ReadsAs(raw, Field(key, value));
    } else if Trim(raw) == "" {
      assert ReadsAs(raw, Nothing);
    }
  }

  /** The entries are read when all are good, and then the last path counts. */
  lemma {:induction false} EntriesAre(entries: seq<string>, path: Option<string>)
    ensures ReadEntries(entries, path).Ok? <==> AllGood(entries)
    ensures AllGood(entries) ==> forall k, value :: LastPath(entries, k, value) ==>
      ReadEntries(entries, path) == Ok(Some(Unescape(value)))
    ensures AllGood(entries) && (forall k :: 0 <= k < |entries| ==> !NamesPath(entries[k])) ==>
      ReadEntries(entries, path) == Ok(path)
  {
    if entries != [] {
      var rest, next := entries[1..], ReadEntry(entries[0], path);
      EntryIs(entries[0], path);
      AllGoodCons(entries);
      assert forall k :: 0 <= k < |rest| ==> rest[k] == entries[k + 1];
      if next.Ok? {
        EntriesAre(rest, next.value);
        forall k, value | AllGood(entries) && LastPath(entries, k, value)
          ensures ReadEntries(entries, path) == Ok(Some(Unescape(value)))
        {
          if k > 0 {
            assert LastPath(rest, k - 1, value);
          }
        }
      }
    }
  }

  lemma AllGoodCons(entries: seq<string>)
    requires entries != []
    ensures AllGood(entries) <==> GoodEntry(entries[0]) && AllGood(entries[1..])
  {
    assert forall k :: 0 < k < |entries| ==> entries[k] == entries[1..][k - 1];
  }

  lemma {:induction false} SomeLastPath(entries: seq<string>, n: nat)
    requires n <= |entries| && (exists k :: 0 <= k < n && NamesPath(entries[k]))
    requires forall j :: n <= j < |entries| ==> !NamesPath(entries[j])
    ensures exists k, value :: LastPath(entries, k, value)
  {
    if NamesPath(entries[n - 1]) {
      var value :| FieldIs(entries[n - 1], "path", value);
      assert LastPath(entries, n - 1, value);
    } else {
      SomeLastPath(entries, n - 1);
    }
  }

  /** The braces and what is between them. */
  ghost predicate Braced(body: string, fields: string) { Trim(body) == "{" + fields + "}" }

  /**
   A body is read as a path exactly when it is a braced list of good entries whose last
   `path`, unescaped, is that path and not empty.
   */
  lemma AcceptedIff(body: string, p: string)
    ensures ParsedBody(body) == Ok(p) <==>
      exists fields :: Braced(body, fields) && AllGood(SplitOn(fields, ',')) && p != ""
        && exists k, value :: LastPath(SplitOn(fields, ','), k, value) && Unescape(value) == p
  {
    BracesAre(body);
    var fields := Unwrap(Trim(body), '{', '}');
    if fields.Some? {
      var entries := SplitOn(fields.value, ',');
      EntriesAre(entries, None);
      if exists k :: 0 <= k < |entries| && NamesPath(entries[k]) {
        SomeLastPath(entries, |entries|);
      }
    }
  }

  // ---- refusals ----

  /** The first entry that is not good. */
  ghost predicate FirstBad(entries: seq<string>, k: int) {
    0 <= k < |entries| && !GoodEntry(entries[k]) && forall j :: 0 <= j < k ==> GoodEntry(entries[j])
  }

  lemma GoodIff(raw: string, r: Reading)
    requires ReadsAs(raw, r)
    ensures GoodEntry(raw) <==> r.Nothing? || r.Field?
  {
    var s := EntryReads(raw);
    if r.Field? {
      assert FieldIs(raw, r.key, r.value);
    }
    if key, value :| FieldIs(raw, key, value) {
      assert ReadsAs(raw, Field(key, value));
    }
    if Trim(raw) == "" {
      assert ReadsAs(raw, Nothing);
    }
  }

  lemma {:induction false} BadEntryRefused(entries: seq<string>, path: Option<string>, k: nat, r: Reading)
    requires FirstBad(entries, k) && ReadsAs(entries[k], r)
    ensures r.NoColon? || r.NoQuotes?
    ensures ReadEntries(entries, path) == Err(After(r, None).error)
  {
    var s := EntryReads(entries[0]);
    EntryIs(entries[0], path);
    GoodIff(entries[k], r);
    if k > 0 {
      assert forall j :: 0 < j < |entries| ==> entries[j] == entries[1..][j - 1];
      BadEntryRefused(entries[1..], ReadEntry(entries[0], path).value, k - 1, r);
    }
  }

  lemma BracesAre(body: string)
    ensures forall fields :: Braced(body, fields) <==> Unwrap(Trim(body), '{', '}') == Some(fields)
  {
    forall fields ensures Braced(body, fields) <==> Unwrap(Trim(body), '{', '}') == Some(fields) {
      BracedIs(Trim(body), fields);
    }
  }

  /** A body is refused for its braces, for its first bad entry, for lack of a path, or for an empty one. */
  lemma NotBracedRefused(body: string)
    ensures ParsedBody(body) == Err(NotAnObject) <==> forall fields :: !Braced(body, fields)
  {
    BracesAre(body);
    var fields := Unwrap(Trim(body), '{', '}');
    if fields.Some? {
      assert Braced(body, fields.value);
      NoneSaysObject(SplitOn(fields.value, ','), None);
    }
  }

  lemma {:induction false} NoneSaysObject(entries: seq<string>, path: Option<string>)
    ensures ReadEntries(entries, path) != Err(NotAnObject)
  {
    if entries != [] {
      var next := ReadEntry(entries[0], path);
      if next.Ok? {
        NoneSaysObject(entries[1..], next.value);
      }
    }
  }

  lemma BadEntryIsTold(body: string, fields: string, k: nat, r: Reading)
    requires Braced(body, fields) && FirstBad(SplitOn(fields, ','), k) && ReadsAs(SplitOn(fields, ',')[k], r)
    ensures r.NoColon? || r.NoQuotes?
    ensures ParsedBody(body) == Err(After(r, None).error)
  {
    BracesAre(body);
    BadEntryRefused(SplitOn(fields, ','), None, k, r);
  }

  lemma MissingPathIsTold(body: string, fields: string)
    requires Braced(body, fields) && AllGood(SplitOn(fields, ','))
    requires forall k :: 0 <= k < |SplitOn(fields, ',')| ==> !NamesPath(SplitOn(fields, ',')[k])
    ensures ParsedBody(body) == Err(MissingPath)
  {
    BracesAre(body);
    EntriesAre(SplitOn(fields, ','), None);
  }

  lemma EmptyPathIsTold(body: string, fields: string, k: int, value: string)
    requires Braced(body, fields) && AllGood(SplitOn(fields, ','))
    requires LastPath(SplitOn(fields, ','), k, value) && Unescape(value) == ""
    ensures ParsedBody(body) == Err(EmptyPath)
  {
    BracesAre(body);
    EntriesAre(SplitOn(fields, ','), None);
  }
}
