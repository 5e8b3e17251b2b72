/**
 Splitting a single-file component into its top-level blocks, for every source,
 well formed or not.
 */
module SfcBlocks {
  import opened Prelude
  import opened SfcScanner

  datatype SfcBlock = SfcBlock(
    tag: string, lang: Option<string>, contentStart: nat, contentEnd: nat, attributes: seq<Attribute>)

  datatype SfcDocument = SfcDocument(scripts: seq<SfcBlock>, template: Option<SfcBlock>, styles: seq<SfcBlock>)

  predicate IsBlockTag(tag: string) {
    tag == "script" || tag == "template" || tag == "style"
  }

  /** The value of the first attribute of that name, if it has one. */
  function ValueOf(attributes: seq<Attribute>, name: string): Option<string> {
    if attributes == [] then None
    else if attributes[0].0 == name then attributes[0].1
    else ValueOf(attributes[1..], name)
  }

  // ---- the reference walk ----

  /** What the parser does at byte `i`: move on, or take a block and move on past it. */
  datatype Move = Skip(to: nat) | Take(block: SfcBlock, to: nat)

  function MoveAt(b: string, i: nat): (m: Move)
    requires i < |b|
    ensures i < m.to
    ensures m.Take? ==> m.to <= |b|
  {
    if StartsAt(b, i, "<!--") then Skip(PastComment(b, i + 4))
    else if b[i] != '<' || i + 1 >= |b| || !IsAlphabetic(b[i + 1]) then Skip(i + 1)
    else
      var nameEnd := RunEnd(b, i + 1, IsNameByte);
      var tag := Lowercase(b[i + 1..nameEnd]);
      if !IsBlockTag(tag) then Skip(i + 1) else TakeAt(b, tag, nameEnd)
  }

  function TakeAt(b: string, tag: string, nameEnd: nat): (m: Move)
    requires nameEnd <= |b|
    ensures nameEnd < m.to
    ensures m.Take? ==> m.to <= |b|
    ensures m.Take? ==> nameEnd < m.block.contentStart <= m.block.contentEnd <= |b|
    ensures m.Take? ==> b[m.block.contentStart - 1] == '>'
    ensures m.Take? ==> m.block.tag == tag && m.to == PastByte(b, m.block.contentEnd, '>')
  {
    var rest := TagFrom(b, nameEnd, []);
    if rest.selfClosing then Skip(rest.closePos + 2)
    else
      var start := rest.closePos + 1;
      match FirstClose(b, start, "</" + tag)
      case None => Skip(start)
      case Some(end) =>
        Take(SfcBlock(tag, ValueOf(rest.attributes, "lang"), start, end, rest.attributes), PastByte(b, end, '>'))
  }

  /** A block together with the `<` that opens it. */
  datatype Placed = Placed(lt: nat, block: SfcBlock)

  function Walk(b: string, i: nat): seq<Placed>
    decreases |b| - i
  {
    if i >= |b| then [] else
    match MoveAt(b, i)
    case Skip(to) => Walk(b, to)
    case Take(block, to) => [Placed(i, block)] + Walk(b, to)
  }

  function OfTag(ps: seq<Placed>, tag: string): seq<SfcBlock> {
    if ps == [] then [] else
    OfTag(ps[..|ps| - 1], tag) + (if ps[|ps| - 1].block.tag == tag then [ps[|ps| - 1].block] else [])
  }

  /** All scripts, all styles, and the first template. */
  function Collect(ps: seq<Placed>): SfcDocument {
    SfcDocument(OfTag(ps, "script"),
                if OfTag(ps, "template") == [] then None else Some(OfTag(ps, "template")[0]),
                OfTag(ps, "style"))
  }

  method ExtractBlocks(source: string) returns (doc: SfcDocument)
    ensures doc == Collect(Walk(source, 0))
  {
    doc := SfcDocument([], None, []);
    var i := 0;
    ghost var whole, done: seq<Placed> := Walk(source, 0), [];
    while i < |source|
      invariant whole == done + Walk(source, i)
      invariant doc == Collect(done)
      decreases |source| - i
    {
      ghost var here := i;
      var taken: Option<SfcBlock>;
      taken, i := ExtractAt(source, i);
      Turn(source, here, whole, done);
      if taken.Some? {
        var block := taken.value;
        Collects(done, Placed(here, block));
        done := done + [Placed(here, block)];
        if block.tag == "script" {
          doc := doc.(scripts := doc.scripts + [block]);
        } else if block.tag == "template" && doc.template.None? {
          doc := doc.(template := Some(block));
        } else if block.tag == "style" {
          doc := doc.(styles := doc.styles + [block]);
        }
      }
    }
    assert done + [] == done;
  }

  lemma Turn(b: string, i: nat, whole: seq<Placed>, done: seq<Placed>)
    requires i < |b| && whole == done + Walk(b, i)
    ensures var m := MoveAt(b, i);
      whole == (if m.Take? then done + [Placed(i, m.block)] else done) + Walk(b, m.to)
  {
    var m := MoveAt(b, i);
    if m.Take? {
      Associates(done, [Placed(i, m.block)], Walk(b, m.to));
    }
  }

  /** Collecting one more block adds it to its list, or drops a second template. */
  lemma Collects(ps: seq<Placed>, p: Placed)
    ensures Collect(ps + [p]).scripts == Collect(ps).scripts + (if p.block.tag == "script" then [p.block] else [])
    ensures Collect(ps + [p]).styles == Collect(ps).styles + (if p.block.tag == "style" then [p.block] else [])
    ensures Collect(ps + [p]).template ==
      if p.block.tag == "template" && Collect(ps).template.None? then Some(p.block) else Collect(ps).template
  {
    assert (ps + [p])[..|ps|] == ps;
  }

  /** One turn of the walk: the block found at `i`, if any, and where to go on. */
  method ExtractAt(source: string, i: nat) returns (taken: Option<SfcBlock>, to: nat)
    requires i < |source|
    ensures MoveAt(source, i) == if taken.Some? then Take(taken.value, to) else Skip(to)
  {
    if i + 4 <= |source| && source[i..i + 4] == "<!--" {
      to := SkipComment(source, i + 4);
      return None, to;
    }
    if source[i] != '<' {
      return None, i + 1;
    }
    if i + 1 >= |source| || !IsAlphabetic(source[i + 1]) {
      return None, i + 1;
    }
    var nameEnd := ReadTagName(source, i + 1);
    var tag := Lowercase(source[i + 1..nameEnd]);
    if !IsBlockTag(tag) {
      return None, i + 1;
    }
    taken, to := ExtractTag(source, tag, nameEnd);
  }

  /** The rest of the turn at a block's tag: its attributes, its content and its closing tag. */
  method ExtractTag(source: string, tag: string, nameEnd: nat) returns (taken: Option<SfcBlock>, to: nat)
    requires nameEnd <= |source|
    ensures TakeAt(source, tag, nameEnd) == if taken.Some? then Take(taken.value, to) else Skip(to)
  {
    var rest := ParseAttributes(source, nameEnd);
    if rest.selfClosing {
      return None, rest.closePos + 2;
    }
    var start := rest.closePos + 1;
    var close := FindCloseTag(source, start, "</" + tag);
    if close.None? {
      return None, start;
    }
    taken := Some(SfcBlock(tag, ValueOf(rest.attributes, "lang"), start, close.value, rest.attributes));
    to := FindAfter(source, close.value, '>');
  }

  // ---- every source gives ordered, disjoint blocks in bounds ----

  /** Past the closing tag of a block. */
  function OuterEnd(b: string, block: SfcBlock): nat
    requires block.contentEnd <= |b|
  {
    PastByte(b, block.contentEnd, '>')
  }

  predicate InBounds(b: string, p: Placed) {
    && p.lt < p.block.contentStart <= p.block.contentEnd <= |b|
    && b[p.lt] == '<' && b[p.block.contentStart - 1] == '>'
  }

  /** A placed block is what the tag at its `<` says, up to the first tag that closes it. */
  predicate Faithful(b: string, p: Placed) {
    p.lt < |b| && MoveAt(b, p.lt).Take? && MoveAt(b, p.lt).block == p.block
  }

  ghost predicate Ordered(b: string, ps: seq<Placed>) {
    && (forall k :: 0 <= k < |ps| ==> InBounds(b, ps[k]))
    && (forall j, k :: 0 <= j < k < |ps| ==> OuterEnd(b, ps[j].block) <= ps[k].lt)
  }

  lemma TakesTag(b: string, i: nat)
    requires i < |b| && MoveAt(b, i).Take?
    ensures b[i] == '<' && i + 1 < |b|
    ensures var nameEnd := RunEnd(b, i + 1, IsNameByte);
      MoveAt(b, i) == TakeAt(b, Lowercase(b[i + 1..nameEnd]), nameEnd)
  {
  }

  lemma {:induction false} TagInBounds(b: string, i: nat, tag: string, nameEnd: nat, m: Move)
    requires i < nameEnd <= |b| && b[i] == '<' && m == TakeAt(b, tag, nameEnd) && m.Take?
    ensures InBounds(b, Placed(i, m.block)) && m.to == OuterEnd(b, m.block)
  {
  }

  lemma {:induction false} TakenInBounds(b: string, i: nat)
    requires i < |b| && MoveAt(b, i).Take?
    ensures InBounds(b, Placed(i, MoveAt(b, i).block))
    ensures MoveAt(b, i).to == OuterEnd(b, MoveAt(b, i).block)
  {
    TakesTag(b, i);
    var nameEnd := RunEnd(b, i + 1, IsNameByte);
    TagInBounds(b, i, Lowercase(b[i + 1..nameEnd]), nameEnd, MoveAt(b, i));
  }

  lemma OrderedCons(b: string, first: Placed, rest: seq<Placed>, to: nat)
    requires Ordered(b, rest) && InBounds(b, first) && to == OuterEnd(b, first.block)
    requires forall k :: 0 <= k < |rest| ==> to <= rest[k].lt
    ensures Ordered(b, [first] + rest)
  {
    var ps := [first] + rest;
    forall k | 0 < k < |ps| ensures ps[k] == rest[k - 1] {}
    forall j, k | 0 <= j < k < |ps| ensures OuterEnd(b, ps[j].block) <= ps[k].lt {
      assert ps[k] == rest[k - 1];
      if j > 0 { assert ps[j] == rest[j - 1]; }
    }
  }

  lemma {:induction false} WalkOrdered(b: string, i: nat)
    ensures Ordered(b, Walk(b, i))
    ensures forall k :: 0 <= k < |Walk(b, i)| ==> i <= Walk(b, i)[k].lt
    decreases |b| - i
  {
    if i < |b| {
      var m := MoveAt(b, i);
      WalkOrdered(b, m.to);
      if m.Take? {
        TakenInBounds(b, i);
        OrderedCons(b, Placed(i, m.block), Walk(b, m.to), m.to);
      }
    }
  }

  lemma {:induction false} WalkFaithful(b: string, i: nat, k: nat)
    requires k < |Walk(b, i)|
    ensures Faithful(b, Walk(b, i)[k])
    decreases |b| - i
  {
    var m := MoveAt(b, i);
    if !m.Take? {
      WalkFaithful(b, m.to, k);
    } else if k > 0 {
      WalkFaithful(b, m.to, k - 1);
    }
  }

  /** The content of a block holds no tag that would close it. */
  lemma ContentIsOpen(b: string, p: Placed, k: nat)
    requires Faithful(b, p) && p.block.contentStart <= k < p.block.contentEnd
    ensures ClosesTag(b, p.block.contentEnd, "</" + p.block.tag)
    ensures !ClosesTag(b, k, "</" + p.block.tag)
  {
  }
}
