/**
 Which symbol the tiers answer with: names are unique, a nominal suffix has to match
 exactly one symbol, and ties between traits, and between builtin trait methods, are
 broken by the alphabetical order of their names.
 */
module EdgeSweepOrder {
  import opened Prelude
  import opened EdgeSweep
  import opened EdgeSweepTheorems

  lemma {:induction false} BeforeTransitive(a: string, b: string, c: string)
    requires Before(a, b) && Before(b, c)
    ensures Before(a, c)
  {
    if a != "" && a[0] == b[0] && b[0] == c[0] {
      BeforeTransitive(a[1..], b[1..], c[1..]);
    }
  }

  lemma {:induction false} BeforeTotal(a: string, b: string)
    ensures a == b || Before(a, b) || Before(b, a)
    ensures !(Before(a, b) && Before(b, a)) && !Before(a, a)
  {
    if a != "" {
      BeforeIrreflexive(a);
    }
    if a != "" && b != "" && a[0] == b[0] {
      BeforeTotal(a[1..], b[1..]);
      if a[1..] == b[1..] {
        assert a == [a[0]] + a[1..] == b;
      }
    }
  }

  lemma {:induction false} BeforeIrreflexive(a: string)
    ensures !Before(a, a)
  {
    if a != "" {
      BeforeIrreflexive(a[1..]);
    }
  }

  ghost predicate Ascending(names: seq<string>) {
    forall j, k :: 0 <= j < k < |names| ==> Before(names[j], names[k])
  }

  lemma {:induction false} InsertNameAscends(names: seq<string>, name: string)
    requires Ascending(names)
    ensures Ascending(InsertName(names, name))
  {
    var r := InsertName(names, name);
    if names == [] {
    } else if Before(name, names[0]) {
      forall j, k | 0 <= j < k < |r| ensures Before(r[j], r[k]) {
        if j == 0 && k > 1 {
          BeforeTransitive(name, names[0], names[k - 1]);
        }
      }
    } else if names[0] != name {
      BeforeTotal(name, names[0]);
      var rest := InsertName(names[1..], name);
      InsertNameAscends(names[1..], name);
      InsertNameMembers(names[1..], name);
      forall k | 0 <= k < |rest| ensures Before(names[0], rest[k]) {
        assert rest[k] in rest;
      }
    }
  }

  lemma {:induction false} TraitsAscend(w: World, edges: seq<Edge>, receiver: string)
    ensures Ascending(Traits(w, edges, receiver))
  {
    if edges != [] {
      var rest := edges[..|edges| - 1];
      TraitsAscend(w, rest, receiver);
      var t := TraitOf(w, receiver, edges[|edges| - 1]);
      if t.Some? {
        InsertNameAscends(Traits(w, rest, receiver), t.value);
      }
    }
  }

  /** The trait that has the method, with no alphabetically earlier one that has it. */
  ghost predicate LeastTrait(w: World, traits: seq<string>, method_: string, t: string) {
    && t in traits && LookupSymbolId(w.symbols, t + "::" + method_).Some?
    && forall u :: u in traits && Before(u, t) ==> LookupSymbolId(w.symbols, u + "::" + method_).None?
  }

  lemma {:induction false} FirstIsLeast(w: World, traits: seq<string>, method_: string) returns (t: string)
    requires Ascending(traits) && FirstTraitMethod(w, traits, method_).Some?
    ensures LeastTrait(w, traits, method_, t)
    ensures FirstTraitMethod(w, traits, method_) == LookupSymbolId(w.symbols, t + "::" + method_)
  {
    if LookupSymbolId(w.symbols, traits[0] + "::" + method_).Some? {
      t := traits[0];
      forall u | u in traits ensures !Before(u, t) {
        BeforeTotal(t, u);
      }
    } else {
      t := FirstIsLeast(w, traits[1..], method_);
    }
  }

  /**
   Trait dispatch answers with the method of the alphabetically first trait that the
   receiver is known to implement and that has the method.
   */
  lemma DispatchPicksLeast(w: World, edges: seq<Edge>, receiver: string, method_: string, t: string)
    requires LeastTrait(w, Traits(w, edges, receiver), method_, t)
    ensures ViaTraitDispatch(w, edges, receiver, method_) == LookupSymbolId(w.symbols, t + "::" + method_)
  {
    var traits := Traits(w, edges, receiver);
    TraitsAscend(w, edges, receiver);
    FirstTraitMethodIff(w, traits, method_);
    var u := FirstIsLeast(w, traits, method_);
    BeforeTotal(t, u);
  }

  /** The builtin tier answers with a matching symbol that no other match precedes. */
  lemma {:induction false} LeastBuiltinIsLeast(w: World, symbols: seq<Symbol>, method_: string)
    ensures LeastBuiltin(w, symbols, method_).None? <==>
      forall s :: s in symbols ==> !IsBuiltinTraitMethod(w, s, method_)
    ensures LeastBuiltin(w, symbols, method_).Some? ==>
      var best := LeastBuiltin(w, symbols, method_).value;
      && best in symbols && IsBuiltinTraitMethod(w, best, method_)
      && forall s :: s in symbols && IsBuiltinTraitMethod(w, s, method_) ==> !Before(s.fqdn, best.fqdn)
  {
    if symbols != [] {
      var rest, last := symbols[..|symbols| - 1], symbols[|symbols| - 1];
      LeastBuiltinIsLeast(w, rest, method_);
      assert symbols == rest + [last];
      BeforeTotal(last.fqdn, last.fqdn);
      var best := LeastBuiltin(w, rest, method_);
      if best.Some? && IsBuiltinTraitMethod(w, last, method_) && Before(last.fqdn, best.value.fqdn) {
        forall s | s in symbols && IsBuiltinTraitMethod(w, s, method_) ensures !Before(s.fqdn, last.fqdn) {
          if s in rest && Before(s.fqdn, last.fqdn) {
            BeforeTransitive(s.fqdn, last.fqdn, best.value.fqdn);
          }
        }
      }
    }
  }

  // ---- lookups ----

  ghost predicate UniqueNames(symbols: seq<Symbol>) {
    forall j, k :: 0 <= j < k < |symbols| ==> symbols[j].fqdn != symbols[k].fqdn
  }

  /** With unique names a lookup answers exactly for the stored names, with their own id. */
  lemma {:induction false} LookupMeaning(symbols: seq<Symbol>, fqdn: string)
    requires UniqueNames(symbols)
    ensures LookupSymbolId(symbols, fqdn).None? <==> forall k :: 0 <= k < |symbols| ==> symbols[k].fqdn != fqdn
    ensures forall k :: 0 <= k < |symbols| && symbols[k].fqdn == fqdn ==>
      LookupSymbolId(symbols, fqdn) == Some(symbols[k].id)
  {
    if symbols != [] {
      var rest := symbols[1..];
      LookupMeaning(rest, fqdn);
      assert forall k :: 0 < k < |symbols| ==> symbols[k] == rest[k - 1];
      assert forall k :: 0 <= k < |rest| ==> rest[k] == symbols[k + 1];
    }
  }

  /** A workspace symbol that the nominal suffix matches. */
  predicate IsSuffixMatch(w: World, pattern: string, s: Symbol) {
    w.like(pattern, s.fqdn) && !w.like(BUILTIN_PATTERN, s.fqdn)
  }

  lemma {:induction false} NoSuffixMatch(w: World, symbols: seq<Symbol>, pattern: string)
    ensures SuffixMatches(w, symbols, pattern) == [] <==> forall k :: 0 <= k < |symbols| ==>
      !IsSuffixMatch(w, pattern, symbols[k])
  {
    if symbols != [] {
      var rest := symbols[1..];
      NoSuffixMatch(w, rest, pattern);
      assert forall k :: 0 < k < |symbols| ==> symbols[k] == rest[k - 1];
      assert forall k :: 0 <= k < |rest| ==> rest[k] == symbols[k + 1];
    }
  }

  /** The one match among all rows. */
  ghost predicate OnlyMatch(w: World, symbols: seq<Symbol>, pattern: string, k: nat) {
    && k < |symbols| && IsSuffixMatch(w, pattern, symbols[k])
    && forall j :: 0 <= j < |symbols| && j != k ==> !IsSuffixMatch(w, pattern, symbols[j])
  }

  lemma {:induction false} OneSuffixMatch(w: World, symbols: seq<Symbol>, pattern: string, k: nat)
    requires OnlyMatch(w, symbols, pattern, k)
    ensures SuffixMatches(w, symbols, pattern) == [symbols[k].id]
  {
    var rest := symbols[1..];
    assert forall j :: 0 <= j < |rest| ==> rest[j] == symbols[j + 1];
    if k == 0 {
      NoSuffixMatch(w, rest, pattern);
    } else {
      OneSuffixMatch(w, rest, pattern, k - 1);
    }
  }

  /** Two matches are at least two rows, so an ambiguous suffix is not taken. */
  lemma {:induction false} TwoSuffixMatches(w: World, symbols: seq<Symbol>, pattern: string, j: nat, k: nat)
    requires j < k < |symbols| && IsSuffixMatch(w, pattern, symbols[j]) && IsSuffixMatch(w, pattern, symbols[k])
    ensures |SuffixMatches(w, symbols, pattern)| >= 2
  {
    var rest := symbols[1..];
    assert rest[k - 1] == symbols[k];
    if j == 0 {
      NoSuffixMatch(w, rest, pattern);
      assert IsSuffixMatch(w, pattern, rest[k - 1]);
    } else {
      assert rest[j - 1] == symbols[j];
      TwoSuffixMatches(w, rest, pattern, j - 1, k - 1);
    }
  }

  /** A nominal receiver without an exact name takes a workspace match that is the only one. */
  lemma NominalTakesOnlyMatch(w: World, receiver: string, method_: string, k: nat)
    requires !IsPath(receiver) && LookupSymbolId(w.symbols, receiver + "::" + method_).None?
    requires OnlyMatch(w, w.symbols, "%::" + (receiver + "::" + method_), k)
    ensures ViaReceiverType(w, receiver, method_) == Some(w.symbols[k].id)
  {
    OneSuffixMatch(w, w.symbols, "%::" + (receiver + "::" + method_), k);
  }

  /** Two matches, or a path for a receiver, leave only the builtin of that name. */
  lemma AmbiguousFallsThrough(w: World, receiver: string, method_: string, j: nat, k: nat)
    requires var candidate := receiver + "::" + method_;
      && LookupSymbolId(w.symbols, candidate).None?
      && (IsPath(receiver) || (j < k < |w.symbols| && IsSuffixMatch(w, "%::" + candidate, w.symbols[j])
            && IsSuffixMatch(w, "%::" + candidate, w.symbols[k])))
    ensures ViaReceiverType(w, receiver, method_) == LookupSymbolId(w.symbols,
      "<builtin>::rust::" + (receiver + "::" + method_))
  {
    if !IsPath(receiver) {
      TwoSuffixMatches(w, w.symbols, "%::" + (receiver + "::" + method_), j, k);
    }
  }
}
