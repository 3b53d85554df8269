/**
 What the parser makes of documents that are not well-formed: cut off anywhere, with end tags that are missing or do not
 match, with broken tags, clear tags that are never closed, and references that stand for nothing.
 */
module XmlFaults {

  import opened Options
  import opened XmlText
  import opened XmlTokens
  import opened XmlPrinter
  import opened XmlParser
  import opened XmlRoundTrip
  import opened XmlReading

  // ---------- Open elements ----------

  /** An element that was opened behind some contents of the one around it. */
  datatype Opened = Opened(items: seq<Item>, start: Start)

  /** The way into a document, from the outermost element on. */
  function SpellWay(way: seq<Opened>): string {
    if way == [] then "" else SpellItems(way[0].items) + (SpellStart(way[0].start, ">") + SpellWay(way[1..]))
  }

  predicate GoodWay(way: seq<Opened>) {
    way == [] || (GoodItems(way[0].items) && GoodStart(way[0].start, ">") && GoodWay(way[1..]))
  }

  /** The element in which the way ends, as it was opened. */
  function Innermost(way: seq<Opened>, d: Node): Node
    requires GoodWay(way)
  {
    if way == [] then d else Innermost(way[1..], Named(way[0].start))
  }

  /** `d` with all that is open in it, down to `last`. */
  function Grown(way: seq<Opened>, d: Node, last: Node): Node
    requires GoodWay(way)
  {
    if way == [] then last
    else d.(content := Merged(RawOf(way[0].items)) + [ChildNode(Grown(way[1..], Named(way[0].start), last))])
  }

  /** An end tag at `e` closes no open element, the innermost one set aside. */
  predicate NoneCatches(s: string, way: seq<Opened>, e: nat) {
    |way| > 1 ==> !SameTag(Some(way[0].start.name), s, e) && NoneCatches(s, way[1..], e)
  }

  /** The parse of `d` when the innermost element ended early as `r`, and `all` is what became of `d`. */
  function Climbed(s: string, d: Node, r: Outcome, all: Node): Outcome {
    if !r.more then Outcome(false, r.x, all)
    else if d.name.None? then Outcome(false, r.x.(error := UnmatchedEndTag), all)
    else if SameTag(d.name, s, r.x.endTag) then Outcome(true, r.x.(endLen := 0), all)
    else Outcome(true, r.x, all)
  }

  lemma WaySplit(way: seq<Opened>, d: Node, last: Node)
    requires way != [] && GoodWay(way)
    ensures GoodItems(way[0].items) && GoodStart(way[0].start, ">") && GoodWay(way[1..])
    ensures SpellWay(way) == SpellItems(way[0].items) + (SpellStart(way[0].start, ">") + SpellWay(way[1..]))
    ensures Innermost(way, d) == Innermost(way[1..], Named(way[0].start))
    ensures Grown(way, d, last)
      == AddChild(d.(content := Merged(RawOf(way[0].items))), Grown(way[1..], Named(way[0].start), last))
  {
  }

  /** How an early end of the innermost element reaches the outermost one. */
  lemma {:induction false} WayLeads(s: string, p: nat, way: seq<Opened>, x: Cursor, d: Node, depth: nat, r: Outcome)
    requires way != [] && Has(s, p, SpellWay(way)) && GoodWay(way)
    requires Good(s, x) && x.index == p && x.text == Some(p) && x.endLen == 0 && d.content == Merged([])
    requires
      var q := p + |SpellWay(way)|;
      var y := x.(index := q, text := Some(q));
      Good(s, y) && r == Parse(s, y, Innermost(way, d), depth + |way|, Outside)
    requires r.more ==> r.x.endLen > 0 && NoneCatches(s, way, r.x.endTag)
    ensures Parse(s, x, d, depth, Outside) == Climbed(s, d, r, Grown(way, d, r.d))
    decreases |way|
  {
    hide Parse, Has, Merged, SpellItems, SpellStart, GoodItems, GoodStart, RawOf, MaybeAddText, Named;
    hide SpellWay, Innermost, Grown, GoodWay;
    var o, rest := way[0], way[1..];
    WaySplit(way, d, r.d);
    HasParts(s, p, SpellItems(o.items), SpellStart(o.start, ">") + SpellWay(rest));
    var q := p + |SpellItems(o.items)|;
    HasParts(s, q, SpellStart(o.start, ">"), SpellWay(rest));
    StartStarts(s, q, o.start);
    var y, d0 := ContentsPass(s, p, o.items, x, d, depth, []);
    assert [] + RawOf(o.items) == RawOf(o.items);
    var d1 := d.(content := Merged(RawOf(o.items)));
    StartOpens(s, q, o.start, ">", y, d0, d1, depth);
    NamedIs(o.start);
    var e := q + |SpellStart(o.start, ">")|;
    var inner := Parse(s, x.(index := e, text := Some(e)), Named(o.start), depth + 1, Outside);
    if rest == [] {
      WayEnds(o);
    } else {
      WayLeads(s, e, rest, x.(index := e, text := Some(e)), Named(o.start), depth + 1, r);
    }
    assert inner.more == r.more && inner.x == r.x && inner.d == Grown(rest, Named(o.start), r.d);
    Climbs(s, inner, d1, depth, q + 1);
  }

  lemma WayEnds(o: Opened)
    requires GoodStart(o.start, ">")
    ensures SpellWay([]) == "" && Innermost([], Named(o.start)) == Named(o.start)
    ensures forall last :: Grown([], Named(o.start), last) == last
  {
  }

  lemma StartStarts(s: string, p: nat, t: Start)
    requires Has(s, p, SpellStart(t, ">"))
    ensures p < |s| && s[p] == '<'
  {
    HasAt(s, p, SpellStart(t, ">"), 0);
  }

  lemma Climbs(s: string, r: Outcome, d: Node, depth: nat, from: nat)
    requires Good(s, r.x) && r.x.index > from && from <= |s| && (r.more ==> r.x.endLen > 0)
    ensures AfterChild(s, r, d, depth, from) == Climbed(s, d, r, AddChild(d, r.d))
  {
    hide Parse, SameTag;
  }

  // ---------- Documents with a fault ----------

  /** The innermost element with the contents in front of the fault. */
  function Filled(way: seq<Opened>, items: seq<Item>): Node
    requires GoodWay(way) && GoodItems(items)
  {
    Innermost(way, HEAD).(content := Merged(RawOf(items)))
  }

  /** All that was read of a document whose innermost element is `last`. */
  function ReadUpTo(way: seq<Opened>, last: Node): seq<Content>
    requires GoodWay(way)
  {
    Grown(way, HEAD, last).content
  }

  lemma {:induction false} InnermostIs(way: seq<Opened>, d: Node)
    requires GoodWay(way) && d.content == Merged([]) && !d.isDeclaration
    ensures Innermost(way, d).content == Merged([]) && !Innermost(way, d).isDeclaration
    ensures Innermost(way, d).name == if way == [] then d.name else Some(way[|way| - 1].start.name)
  {
    hide Merged;
    if way != [] {
      NamedIs(way[0].start);
      InnermostIs(way[1..], Named(way[0].start));
    }
  }

  /** Where the fault stands, and how the parse gets there. */
  lemma Reach(way: seq<Opened>, items: seq<Item>, tail: string) returns (y: Cursor, d0: Node)
    requires GoodWay(way) && GoodItems(items) && (tail != "" ==> tail[0] == '<')
    ensures
      var s := SpellWay(way) + (SpellItems(items) + tail);
      var q := |SpellWay(way)| + |SpellItems(items)|;
      && Has(s, q, tail) && q + |tail| == |s| && Good(s, y) && y.text.Some? && y == BEGIN.(index := q, text := y.text)
      && MaybeAddText(s, y, d0, q) == Outcome(true, y.(text := None), Filled(way, items))
      && !d0.isDeclaration && Stopped(s, way, Parse(s, y, d0, |way|, Outside))
  {
    hide Parse, Has, Merged, SpellItems, GoodItems, RawOf, MaybeAddText, SpellWay, Innermost, GoodWay, Stopped, HEAD;
    var s := SpellWay(way) + (SpellItems(items) + tail);
    var p := |SpellWay(way)|;
    HasAll(s);
    HasParts(s, 0, SpellWay(way), SpellItems(items) + tail);
    HasParts(s, p, SpellItems(items), tail);
    HasFits(s, p + |SpellItems(items)|, tail);
    if tail != "" {
      HasAt(s, p + |SpellItems(items)|, tail, 0);
    }
    HeadIs();
    InnermostIs(way, HEAD);
    y, d0 := ContentsPass(s, p, items, BEGIN.(index := p, text := Some(p)), Innermost(way, HEAD), |way|, []);
    assert [] + RawOf(items) == RawOf(items);
    StopsAt(s, way, Parse(s, y, d0, |way|, Outside));
  }

  /** The innermost element of the way ends early as `r`; this is what parseString makes of that. */
  predicate Stopped(s: string, way: seq<Opened>, r: Outcome)
    requires GoodWay(way)
  {
    && (way != [] && !r.more ==> ParseString(s) == Judged(ReadUpTo(way, r.d), r.x.error))
    && (way == [] && r.d == HEAD.(content := r.d.content) ==> ParseString(s) == Judged(r.d.content, r.x.error))
    && (way != [] && r.more && r.x.endLen > 0 && NoneCatches(s, way, r.x.endTag) ==>
          ParseString(s) == Judged(ReadUpTo(way, r.d), UnmatchedEndTag))
  }

  lemma StopsAt(s: string, way: seq<Opened>, r: Outcome)
    requires GoodWay(way) && Has(s, 0, SpellWay(way)) && |SpellWay(way)| <= |s|
    requires r == Parse(s, BEGIN.(index := |SpellWay(way)|, text := Some(|SpellWay(way)|)), Innermost(way, HEAD),
                        |way|, Outside)
    ensures Stopped(s, way, r)
  {
    hide Parse, Has;
    if way != [] && (r.more ==> r.x.endLen > 0 && NoneCatches(s, way, r.x.endTag)) {
      WayLeads(s, 0, way, BEGIN, HEAD, 0, r);
      TopIs(s, Parse(s, BEGIN, HEAD, 0, Outside), ReadUpTo(way, r.d));
    }
    if way == [] && r.d == HEAD.(content := r.d.content) {
      assert BEGIN.(index := 0, text := Some(0)) == BEGIN;
      TopIs(s, r, r.d.content);
    }
  }

  /** A parse that fails inside the innermost element. */
  lemma Verdict(s: string, way: seq<Opened>, items: seq<Item>, r: Outcome)
    requires GoodWay(way) && GoodItems(items) && Stopped(s, way, r) && !r.more
    requires r.d.(content := []) == Filled(way, items).(content := [])
    ensures ParseString(s) == Judged(ReadUpTo(way, r.d), r.x.error)
  {
    hide ParseString, Merged, RawOf, GoodItems, Judged;
    if way == [] {
      assert r.d == r.d.(content := []).(content := r.d.content);
    }
  }

  // ---------- Documents that are cut off ----------

  /** A document that ends within open elements is read up to there, and the missing end tag is reported. */
  lemma CutOff(way: seq<Opened>, items: seq<Item>)
    requires GoodWay(way) && GoodItems(items)
    ensures ParseString(SpellWay(way) + SpellItems(items))
      == Judged(ReadUpTo(way, Filled(way, items)), if way == [] then NoError else MissingEndTag)
  {
    hide Parse, Has, MaybeAddText, ParseString, SpellWay, SpellItems, GoodWay, GoodItems, Stopped, Filled, Judged;
    var s := SpellWay(way) + (SpellItems(items) + "");
    var y, d0 := Reach(way, items, "");
    FilledIs(way, items);
    TextEnds(s, y, d0, Filled(way, items), |way|);
    Verdict(s, way, items, Parse(s, y, d0, |way|, Outside));
    assert SpellItems(items) + "" == SpellItems(items);
  }

  lemma FilledIs(way: seq<Opened>, items: seq<Item>)
    requires GoodWay(way) && GoodItems(items)
    ensures Filled(way, items).content == Merged(RawOf(items)) && !Filled(way, items).isDeclaration
    ensures Filled(way, items).name == if way == [] then None else Some(way[|way| - 1].start.name)
  {
    HeadIs();
    InnermostIs(way, HEAD);
  }

  // ---------- Tags without a name ----------

  /** No word starts here: the text ends, or a sign of a tag stands here. */
  predicate NoWord(w: string) {
    w == "" || w[0] == '<' || w[0] == '>' || w[0] == '=' || (|w| > 1 && w[0] == '/' && w[1] == '>')
  }

  lemma SignToken(s: string, p: nat)
    requires p <= |s| && (p < |s| ==> !IsSpace(s[p]))
    ensures
      var t, c := NextToken(s, p), At(s, p);
      && t == TokenAt(s, p) && (p == |s| ==> t.kind == ErrorToken) && (c == '=' ==> t.kind == Equals)
      && (p < |s| ==> (c == '>' <==> t.kind == CloseTag))
      && (c == '/' && At(s, p + 1) == '>' ==> t.kind == ShortHandClose)
      && (c == '<' ==> t.kind == Clear || t.kind == TagStart || t.kind == TagEnd || t.kind == Declaration)
  {
    hide Has, QuoteEnd, TextStop;
    SkipBlank(s, p, p);
    if p < |s| && s[p] != '<' {
      NoClearTag(s, p);
    }
  }

  lemma NoWordToken(s: string, p: nat, blank: string, rest: string)
    requires Has(s, p, blank + rest) && p + |blank + rest| == |s| && Spaces(blank) && NoWord(rest)
    ensures NextToken(s, p).kind != TextToken
  {
    hide TokenAt;
    HasParts(s, p, blank, rest);
    SpacesBlank(s, p, blank);
    var q := p + |blank|;
    if rest != "" {
      HasAt(s, q, rest, 0);
      if rest[0] == '/' {
        HasAt(s, q, rest, 1);
      }
    }
    SkipBlank(s, p, q);
    SkipBlank(s, q, q);
    SignToken(s, q);
  }

  lemma StepNoName(s: string, y: Cursor, d0: Node, d: Node, depth: nat, t: Token)
    requires Good(s, y) && t == NextToken(s, y.index) && (t.kind == TagStart || t.kind == Declaration)
    requires t.start == y.index && t.next <= |s| && NextToken(s, t.next).kind != TextToken
    requires MaybeAddText(s, y, d0, y.index) == Outcome(true, y.(text := None), d)
    ensures
      var r := Parse(s, y, d0, depth, Outside);
      !r.more && r.d == d && r.x.error == MissingTagName
  {
    hide Parse, MaybeAddText, NextToken, TokenAt;
    ParseOpens(s, y, d0, depth, t);
    MaybeAnywhere(s, y, d0, y.index, t.next, d);
    ParseChildStages(s, y.(index := t.next), d0, depth, t, t.kind == Declaration,
      Outcome(true, y.(index := t.next, text := None), d));
  }

  /** The start of a tag or of a declaration, as a token. */
  lemma OpeningToken(s: string, p: nat, open: string, rest: string)
    requires Has(s, p, open + rest) && p + |open + rest| == |s|
    requires (open == "<" && (rest == "" || (rest[0] != '/' && rest[0] != '?' && rest[0] != '!' && rest[0] != 'P'))) ||
             open == "<?" || open == "</"
    ensures
      var t := NextToken(s, p);
      && t.start == p && t.next == p + |open| <= |s|
      && t.kind == if open == "<" then TagStart else if open == "<?" then Declaration else TagEnd
    ensures open == "</" ==> NextToken(s, p) == Token(TagEnd, p, 2, p + 2, 0)
  {
    hide QuoteEnd, TextStop;
    HasParts(s, p, open, rest);
    HasAt(s, p, open, 0);
    if |open| == 2 {
      HasAt(s, p, open, 1);
    } else if rest != "" {
      HasAt(s, p + 1, rest, 0);
    }
    if p + 1 < |s| {
      NoOpening(s, p);
    }
    SkipBlank(s, p, p);
  }

  /** A tag or a declaration without a name. */
  lemma NoTagName(way: seq<Opened>, items: seq<Item>, open: string, blank: string, rest: string)
    requires GoodWay(way) && GoodItems(items) && Spaces(blank) && NoWord(rest)
    requires open == "<?" || (open == "<" && !(blank == "" && rest != "" && rest[0] == '/'))
    ensures ParseString(SpellWay(way) + (SpellItems(items) + (open + (blank + rest))))
      == Judged(ReadUpTo(way, Filled(way, items)), MissingTagName)
  {
    hide Parse, Has, MaybeAddText, ParseString, SpellWay, SpellItems, GoodWay, GoodItems, Stopped, Filled, Judged;
    hide NextToken;
    var tail := open + (blank + rest);
    var s := SpellWay(way) + (SpellItems(items) + tail);
    var y, d0 := Reach(way, items, tail);
    OpeningToken(s, y.index, open, blank + rest);
    HasParts(s, y.index, open, blank + rest);
    NoWordToken(s, y.index + |open|, blank, rest);
    StepNoName(s, y, d0, Filled(way, items), |way|, NextToken(s, y.index));
    Verdict(s, way, items, Parse(s, y, d0, |way|, Outside));
  }

  // ---------- End tags without a name or without an end ----------

  lemma NoEndName(way: seq<Opened>, items: seq<Item>, blank: string, rest: string)
    requires GoodWay(way) && GoodItems(items) && Spaces(blank) && NoWord(rest)
    ensures ParseString(SpellWay(way) + (SpellItems(items) + ("</" + (blank + rest))))
      == Judged(ReadUpTo(way, Filled(way, items)), MissingEndTagName)
  {
    hide Parse, Has, MaybeAddText, ParseString, SpellWay, SpellItems, GoodWay, GoodItems, Stopped, Filled, Judged;
    hide NextToken;
    var tail := "</" + (blank + rest);
    var s := SpellWay(way) + (SpellItems(items) + tail);
    var y, d0 := Reach(way, items, tail);
    OpeningToken(s, y.index, "</", blank + rest);
    HasParts(s, y.index, "</", blank + rest);
    NoWordToken(s, y.index + 2, blank, rest);
    StepEndTag(s, y, d0, Filled(way, items), |way|, y.index);
    Verdict(s, way, items, Parse(s, y, d0, |way|, Outside));
  }

  /** An end tag in which something else than its end follows the name. */
  lemma EndNotClosed(way: seq<Opened>, items: seq<Item>, before: string, name: string, after: string, rest: string)
    requires GoodWay(way) && GoodItems(items) && Spaces(before) && IsWord(name) && Spaces(after)
    requires rest != "" ==> rest[0] != '>' && !White(rest[0])
    requires after == "" ==> NoWord(rest)
    ensures ParseString(SpellWay(way) + (SpellItems(items) + ("</" + (before + (name + (after + rest))))))
      == Judged(ReadUpTo(way, Filled(way, items)), MissingEndTagName)
  {
    hide Parse, Has, MaybeAddText, ParseString, SpellWay, SpellItems, GoodWay, GoodItems, Stopped, Filled, Judged;
    hide NextToken, IsWord;
    var tail := "</" + (before + (name + (after + rest)));
    var s := SpellWay(way) + (SpellItems(items) + tail);
    var y, d0 := Reach(way, items, tail);
    var q := y.index;
    OpeningToken(s, q, "</", before + (name + (after + rest)));
    HasParts(s, q, "</", before + (name + (after + rest)));
    NamedThen(s, q + 2, before, name, after, rest);
    StepEndTag(s, y, d0, Filled(way, items), |way|, q);
    Verdict(s, way, items, Parse(s, y, d0, |way|, Outside));
  }

  /** A name, and then something that is no end of a tag. */
  lemma NamedThen(s: string, p: nat, before: string, name: string, after: string, rest: string)
    requires Has(s, p, before + (name + (after + rest))) && p + |before + (name + (after + rest))| == |s|
    requires Spaces(before) && IsWord(name) && Spaces(after)
    requires rest != "" ==> rest[0] != '>' && !White(rest[0])
    requires after == "" ==> NoWord(rest)
    ensures NextToken(s, p).kind == TextToken && NextToken(s, NextToken(s, p).next).kind != CloseTag
  {
    hide TokenAt, IsWord, Has;
    var q := p + |before|;
    var e := q + |name|;
    var r := e + |after|;
    HasParts(s, p, before, name + (after + rest));
    HasParts(s, q, name, after + rest);
    HasParts(s, e, after, rest);
    SpacesBlank(s, p, before);
    SpacesBlank(s, e, after);
    RestEnds(s, e, after, rest);
    WordIsToken(s, q, name);
    TokenBehind(s, p, q);
    SkipBlank(s, WordToken(s, q, |name|).next, r);
    SkipBlank(s, r, r);
    SignToken(s, r);
  }

  lemma RestEnds(s: string, e: nat, after: string, rest: string)
    requires Has(s, e, after + rest) && e + |after + rest| == |s| && Spaces(after) && (after == "" ==> NoWord(rest))
    requires rest != "" ==> !IsSpace(rest[0])
    ensures WordEnds(s, e) && (e + |after| < |s| ==> rest != "" && s[e + |after|] == rest[0])
  {
    HasParts(s, e, after, rest);
    if after != "" {
      HasAt(s, e, after, 0);
    }
    if rest != "" {
      HasAt(s, e + |after|, rest, 0);
      if |rest| > 1 {
        HasAt(s, e + |after|, rest, 1);
      }
    }
  }

  // ---------- Clear tags without an end ----------

  /** A CDATA section, document type, comment or preformatted text that goes on to the end of the text. */
  predicate NeverCloses(k: nat, rest: string) {
    && k < 4 && '\0' !in rest
    && (k == 0 ==> !Contains(rest, "]]>")) && (k == 2 ==> !Contains(rest, "-->"))
    && (k == 3 ==> !Contains(rest, "</PRE>"))
    && (k == 1 ==>
          || ('<' !in rest && '>' !in rest)
          || (!Contains(rest, "]>")
              && exists i :: 0 <= i < |rest| && rest[i] == '<' && '<' !in rest[..i] && '>' !in rest[..i]))
  }

  lemma {:induction false} FindNever(s: string, i: nat, j: nat, v: string, w: string)
    requires Has(s, i, v) && i + |v| == |s| && !Contains(v, w) && i <= j && w != ""
    ensures Find(s, j, w) == None
    decreases |s| - j
  {
    if Has(s, j, w) {
      HasInside(s, i, v, j, w);
    } else if j < |s| {
      FindNever(s, i, j + 1, v, w);
    }
  }

  lemma NoClosing(s: string, p: nat, k: nat, rest: string)
    requires NeverCloses(k, rest) && Has(s, p, rest) && p + |rest| == |s|
    ensures FindClosing(s, p, k).at.None?
  {
    if k == 1 {
      BracketBehind(s, p, rest, 0);
      if '<' !in rest && '>' !in rest {
        NoBracket(rest, 0);
      } else {
        var i :| 0 <= i < |rest| && rest[i] == '<' && '<' !in rest[..i] && '>' !in rest[..i];
        FirstBracket(rest, 0, i);
        HasAt(s, p, rest, i);
        FindNever(s, p, p, rest, "]>");
      }
    } else {
      assert CLEAR_TAGS[0].close == "]]>" && CLEAR_TAGS[2].close == "-->" && CLEAR_TAGS[3].close == "</PRE>";
      FindNever(s, p, p, rest, CLEAR_TAGS[k].close);
    }
  }

  lemma StepUnclosed(s: string, y: Cursor, d0: Node, d: Node, depth: nat, t: Token)
    requires Good(s, y) && t == NextToken(s, y.index) && t.kind == Clear && t.start == y.index && t.next <= |s|
    requires FindClosing(s, t.next, t.clear).at.None?
    requires MaybeAddText(s, y, d0, y.index) == Outcome(true, y.(text := None), d)
    ensures
      var r := Parse(s, y, d0, depth, Outside);
      !r.more && r.d == d && r.x.error == UnmatchedEndClearTag
  {
    MaybeAnywhere(s, y, d0, y.index, t.next, d);
    hide TokenAt, SkipSpaces, MaybeAddText, ParseChild, CloseTagBehind, ParseEndTag, FindClosing;
  }

  lemma NeverClosed(way: seq<Opened>, items: seq<Item>, k: nat, rest: string)
    requires GoodWay(way) && GoodItems(items) && NeverCloses(k, rest)
    ensures ParseString(SpellWay(way) + (SpellItems(items) + (OpenOf(k) + rest)))
      == Judged(ReadUpTo(way, Filled(way, items)), UnmatchedEndClearTag)
  {
    hide Parse, Has, MaybeAddText, ParseString, SpellWay, SpellItems, GoodWay, GoodItems, Stopped, Filled, Judged;
    hide NextToken, NeverCloses;
    OpenIsThere(k, rest);
    var tail := OpenOf(k) + rest;
    var s := SpellWay(way) + (SpellItems(items) + tail);
    var y, d0 := Reach(way, items, tail);
    HasParts(s, y.index, OpenOf(k), rest);
    ClearToken(s, y.index, k);
    NoClosing(s, y.index + |OpenOf(k)|, k, rest);
    StepUnclosed(s, y, d0, Filled(way, items), |way|, NextToken(s, y.index));
    Verdict(s, way, items, Parse(s, y, d0, |way|, Outside));
  }

  lemma OpenIsThere(k: nat, rest: string)
    requires NeverCloses(k, rest)
    ensures k < |CLEAR_TAGS| && OpenOf(k) == CLEAR_TAGS[k].open && OpenOf(k)[0] == '<'
  {
  }

  // ---------- End tags of other elements ----------

  /** Where the name of an end tag at `p` stands. */
  function NamePlace(p: nat, b: Ending): nat {
    p + 2 + |b.before|
  }

  predicate GoodEnd(b: Ending) {
    Spaces(b.before) && Spaces(b.after) && IsWord(b.name)
  }

  /** No open element has the name of the end tag. */
  predicate NoneSame(way: seq<Opened>, name: string) {
    forall k :: 0 <= k < |way| ==> !Closes(name, way[k].start.name)
  }

  lemma {:induction false} NoneCatch(s: string, p: nat, b: Ending, way: seq<Opened>)
    requires Has(s, p, SpellEnd(b)) && GoodEnd(b) && GoodWay(way) && NoneSame(way, b.name)
    ensures NoneCatches(s, way, NamePlace(p, b))
    ensures way != [] ==> !SameTag(Some(way[|way| - 1].start.name), s, NamePlace(p, b))
  {
    hide Has, SpellEnd, GoodItems, SameTag, Closes;
    if way != [] {
      NameIsWord(way[0].start.name);
      EndSame(s, p, b, way[0].start.name);
      assert NoneSame(way[1..], b.name) by {
        forall k | 0 <= k < |way[1..]| ensures !Closes(b.name, way[1..][k].start.name) {
          assert way[1..][k] == way[k + 1];
        }
      }
      NoneCatch(s, p, b, way[1..]);
    }
  }

  /** Contents and an end tag that is not the one of the element. */
  lemma WrongEndIsRead(s: string, p: nat, items: seq<Item>, b: Ending, x: Cursor, d: Node, depth: nat)
    requires Has(s, p, SpellItems(items) + SpellEnd(b)) && GoodItems(items) && GoodEnd(b)
    requires Good(s, x) && x.index == p && x.text == Some(p) && x.endLen == 0 && d.content == Merged([])
    requires !SameTag(d.name, s, NamePlace(p + |SpellItems(items)|, b))
    ensures
      var q, e := p + |SpellItems(items)|, p + |SpellItems(items) + SpellEnd(b)|;
      Parse(s, x, d, depth, Outside) == Outcome(true,
        x.(index := e, text := Some(e), error := MissingEndTag, endTag := NamePlace(q, b), endLen := |b.name|),
        d.(content := Merged(RawOf(items))))
  {
    hide Parse, Has, MaybeAddText, Merged, SpellEnd, SpellItems, GoodItems, RawOf, SameTag, IsWord, NextToken;
    HasParts(s, p, SpellItems(items), SpellEnd(b));
    var q := p + |SpellItems(items)|;
    EndParts(s, q, b);
    HasAt(s, q, "</", 0);
    var y, d0 := ContentsPass(s, p, items, x, d, depth, []);
    assert [] + RawOf(items) == RawOf(items);
    EndTokens(s, q, b);
    StepEndTag(s, y, d0, d.(content := Merged(RawOf(items))), depth, q);
  }

  /** An end tag that is the one of no open element ends the parse, whatever follows. */
  lemma WrongEnd(way: seq<Opened>, items: seq<Item>, b: Ending, rest: string)
    requires GoodWay(way) && GoodItems(items) && GoodEnd(b) && NoneSame(way, b.name)
    ensures ParseString(SpellWay(way) + (SpellItems(items) + SpellEnd(b) + rest))
      == Judged(ReadUpTo(way, Filled(way, items)), if way == [] then MissingEndTag else UnmatchedEndTag)
  {
    hide Parse, Has, ParseString, SpellWay, SpellItems, SpellEnd, GoodWay, GoodItems, GoodEnd, Judged, RawOf;
    hide SameTag, Innermost, Merged, ReadUpTo, NoneSame, NoneCatches, HEAD;
    var s := SpellWay(way) + (SpellItems(items) + SpellEnd(b) + rest);
    var p := |SpellWay(way)|;
    HasAll(s);
    HasParts(s, 0, SpellWay(way), SpellItems(items) + SpellEnd(b) + rest);
    HasParts(s, p, SpellItems(items) + SpellEnd(b), rest);
    HasParts(s, p, SpellItems(items), SpellEnd(b));
    HeadIs();
    InnermostIs(way, HEAD);
    NoneCatch(s, p + |SpellItems(items)|, b, way);
    NotHead(s, NamePlace(p + |SpellItems(items)|, b));
    WrongEndIsRead(s, p, items, b, BEGIN.(index := p, text := Some(p)), Innermost(way, HEAD), |way|);
    var r := Parse(s, BEGIN.(index := p, text := Some(p)), Innermost(way, HEAD), |way|, Outside);
    StopsAt(s, way, r);
    WordIsLong(b);
    WrongEndStops(s, way, items, r);
  }

  lemma NotHead(s: string, e: nat)
    ensures !SameTag(None, s, e)
  {
  }

  lemma WordIsLong(b: Ending)
    requires GoodEnd(b)
    ensures |b.name| > 0
  {
  }

  lemma WrongEndStops(s: string, way: seq<Opened>, items: seq<Item>, r: Outcome)
    requires GoodWay(way) && GoodItems(items) && Stopped(s, way, r) && r.more && r.d == Filled(way, items)
    requires r.x.error == MissingEndTag && r.x.endLen > 0 && NoneCatches(s, way, r.x.endTag)
    ensures ParseString(s)
      == Judged(ReadUpTo(way, Filled(way, items)), if way == [] then MissingEndTag else UnmatchedEndTag)
  {
    hide ParseString, Merged, RawOf, GoodItems, Judged, NoneCatches;
  }

  /** The element `o.start`, with what was open in it, when its end tag comes early. */
  function Closed(o: Opened, inner: seq<Opened>, items: seq<Item>): Node
    requires GoodWay([o]) && GoodWay(inner) && GoodItems(items)
  {
    Grown(inner, Named(o.start), Innermost(inner, Named(o.start)).(content := Merged(RawOf(items))))
  }

  function SpellEarly(o: Opened, inner: seq<Opened>, items: seq<Item>, b: Ending): string {
    SpellItems(o.items) + (SpellStart(o.start, ">") + (SpellWay(inner) + (SpellItems(items) + SpellEnd(b))))
  }

  predicate EndsEarly(o: Opened, inner: seq<Opened>, items: seq<Item>, b: Ending) {
    && GoodWay([o]) && GoodWay(inner) && inner != [] && GoodItems(items)
    && GoodEnd(b) && Closes(b.name, o.start.name) && NoneSame(inner, b.name)
  }

  /** The end tag of an outer element closes it and all that is open in it; the parse goes on behind it. */
  lemma EarlyEndIsRead(s: string, p: nat, o: Opened, inner: seq<Opened>, items: seq<Item>, b: Ending,
                       x: Cursor, d: Node, depth: nat) returns (x': Cursor)
    requires Has(s, p, SpellEarly(o, inner, items, b)) && EndsEarly(o, inner, items, b)
    requires Good(s, x) && x.index == p && x.text == Some(p) && x.endLen == 0 && d.content == Merged([])
    ensures
      var e := p + |SpellEarly(o, inner, items, b)|;
      && e <= |s| && x' == x.(index := e, text := Some(e), error := MissingEndTag, endTag := x'.endTag)
      && Parse(s, x, d, depth, Outside) == Parse(s, x',
           d.(content := Merged(RawOf(o.items) + [ChildNode(Closed(o, inner, items))])), depth, Outside)
  {
    hide Parse, Has, MaybeAddText, Merged, SpellEnd, SpellItems, SpellStart, SpellWay, GoodItems, GoodStart, RawOf;
    hide SameTag, Closes, IsWord, Named, Innermost, Grown, NoneCatches, NoneSame, AfterChild;
    HasFits(s, p, SpellEarly(o, inner, items, b));
    HasParts(s, p, SpellItems(o.items),
      SpellStart(o.start, ">") + (SpellWay(inner) + (SpellItems(items) + SpellEnd(b))));
    var q := p + |SpellItems(o.items)|;
    HasParts(s, q, SpellStart(o.start, ">"), SpellWay(inner) + (SpellItems(items) + SpellEnd(b)));
    StartStarts(s, q, o.start);
    var y, d0 := ContentsPass(s, p, o.items, x, d, depth, []);
    assert [] + RawOf(o.items) == RawOf(o.items);
    var d1 := d.(content := Merged(RawOf(o.items)));
    StartOpens(s, q, o.start, ">", y, d0, d1, depth);
    var e := q + |SpellStart(o.start, ">")|;
    var r := EarlyEndInside(s, e, o, inner, items, b, x.(index := e, text := Some(e)), depth + 1);
    ChildIsAdded(s, r, d1, depth, q + 1);
    x' := r.x;
    MarkupMerges(RawOf(o.items), ChildNode(Closed(o, inner, items)));
  }

  lemma EarlyEndInside(s: string, p: nat, o: Opened, inner: seq<Opened>, items: seq<Item>, b: Ending,
                       x: Cursor, depth: nat) returns (r: Outcome)
    requires Has(s, p, SpellWay(inner) + (SpellItems(items) + SpellEnd(b))) && EndsEarly(o, inner, items, b)
    requires Good(s, x) && x.index == p && x.text == Some(p) && x.endLen == 0
    ensures
      var e := p + |SpellWay(inner) + (SpellItems(items) + SpellEnd(b))|;
      && r == Outcome(true, x.(index := e, text := Some(e), error := MissingEndTag, endTag := r.x.endTag),
                      Closed(o, inner, items))
      && e <= |s| && r == Parse(s, x, Named(o.start), depth, Outside)
  {
    hide Parse, Has, MaybeAddText, Merged, SpellEnd, SpellItems, SpellStart, SpellWay, GoodItems, RawOf;
    hide SameTag, Closes, IsWord, Innermost, Grown, NoneCatches, NoneSame, AfterChild, AttributesOf, GoodTag;
    HasFits(s, p, SpellWay(inner) + (SpellItems(items) + SpellEnd(b)));
    HasParts(s, p, SpellWay(inner), SpellItems(items) + SpellEnd(b));
    var q := p + |SpellWay(inner)|;
    HasParts(s, q, SpellItems(items), SpellEnd(b));
    var a := NamePlace(q + |SpellItems(items)|, b);
    NamedIs(o.start);
    InnermostIs(inner, Named(o.start));
    NoneCatch(s, q + |SpellItems(items)|, b, inner);
    NameIsWord(o.start.name);
    EndSame(s, q + |SpellItems(items)|, b, o.start.name);
    var y := x.(index := q, text := Some(q));
    WrongEndIsRead(s, q, items, b, y, Innermost(inner, Named(o.start)), depth + |inner|);
    var r' := Parse(s, y, Innermost(inner, Named(o.start)), depth + |inner|, Outside);
    WordIsLong(b);
    WayLeads(s, p, inner, x, Named(o.start), depth, r');
    r := Parse(s, x, Named(o.start), depth, Outside);
  }

  /** With an end tag that comes early, the document is still read to its end, and a missing end tag is reported. */
  lemma EndClosesInner(way: seq<Opened>, o: Opened, inner: seq<Opened>, items: seq<Item>, b: Ending, after: seq<Item>)
    requires GoodWay(way) && EndsEarly(o, inner, items, b) && GoodItems(after)
    ensures ParseString(SpellWay(way) + (SpellEarly(o, inner, items, b) + SpellItems(after)))
      == Judged(ReadUpTo(way, Innermost(way, HEAD).(content :=
           Merged(RawOf(o.items) + [ChildNode(Closed(o, inner, items))] + RawOf(after)))), MissingEndTag)
  {
    hide Parse, Has, MaybeAddText, Merged, SpellItems, SpellWay, SpellEarly, GoodItems, RawOf, ParseString;
    hide Innermost, Closed, Judged, ReadUpTo, GoodEnd, NoneSame, Closes, HEAD;
    var s := SpellWay(way) + (SpellEarly(o, inner, items, b) + SpellItems(after));
    var p := |SpellWay(way)|;
    HasAll(s);
    HasParts(s, 0, SpellWay(way), SpellEarly(o, inner, items, b) + SpellItems(after));
    HasParts(s, p, SpellEarly(o, inner, items, b), SpellItems(after));
    HeadIs();
    var d := Innermost(way, HEAD);
    InnermostIs(way, HEAD);
    var x := BEGIN.(index := p, text := Some(p));
    var x' := EarlyEndIsRead(s, p, o, inner, items, b, x, d, |way|);
    var done := RawOf(o.items) + [ChildNode(Closed(o, inner, items))];
    var y, d0 := ContentsPass(s, x'.index, after, x', d.(content := Merged(done)), |way|, done);
    TextEnds(s, y, d0, d.(content := Merged(done + RawOf(after))), |way|);
    StopsAt(s, way, Parse(s, x, d, |way|, Outside));
    StopsWithin(s, way, Parse(s, x, d, |way|, Outside));
  }

  lemma StopsWithin(s: string, way: seq<Opened>, r: Outcome)
    requires GoodWay(way) && Stopped(s, way, r) && !r.more && r.d == Innermost(way, HEAD).(content := r.d.content)
    ensures ParseString(s) == Judged(ReadUpTo(way, r.d), r.x.error)
  {
    hide ParseString, Judged;
  }

  // ---------- Texts that cannot be decoded ----------

  predicate Unreadable(w: string) {
    && w != "" && !White(w[0]) && !White(w[|w| - 1]) && Decode(w).Failed?
    && forall j :: 0 <= j < |w| ==> w[j] != '<' && w[j] != '\0'
  }

  lemma MaybeUnreadable(s: string, x: Cursor, d: Node, p: nat, a: nat, w: string)
    requires x.text.Some? && Unreadable(w) && Blank(s, x.text.value, a) && Has(s, a, w) && Blank(s, a + |w|, p)
    ensures MaybeAddText(s, x, d, p) == Outcome(false, x.(error := EntityError(Decode(w).error)), d)
  {
    hide Decode, AddText;
    HasAt(s, a, w, 0);
    HasAt(s, a, w, |w| - 1);
    HasFits(s, a, w);
    TrimStartIs(s, x.text.value, a, p);
    TrimEndIs(s, a, a + |w|, p);
  }

  /** Whatever tag follows, or the end of the text, the pending text is decoded first. */
  lemma StepUnreadable(s: string, x: Cursor, d: Node, depth: nat, a: nat, w: string)
    requires Good(s, x) && (x.index < |s| ==> s[x.index] == '<')
    requires x.text.Some? && Unreadable(w) && Blank(s, x.text.value, a) && Has(s, a, w) && Blank(s, a + |w|, x.index)
    ensures
      var r := Parse(s, x, d, depth, Outside);
      !r.more && r.d == d && r.x.error == EntityError(Decode(w).error)
  {
    hide Decode, TokenAt, MaybeAddText, ParseEndTag, ParseClear, AfterChild, Has, Unreadable;
    var p := x.index;
    SignToken(s, p);
    var t := NextToken(s, p);
    SkipBlank(s, p, p);
    MaybeUnreadable(s, x.(index := t.next), d, p, a, w);
    if t.kind == ErrorToken {
      MaybeUnreadable(s, x.(error := MissingEndTag), d, p, a, w);
    } else if t.kind == TagStart || t.kind == Declaration {
      ParseOpens(s, x, d, depth, t);
    }
  }

  /** A text with a reference that stands for nothing. */
  lemma BadText(way: seq<Opened>, items: seq<Item>, before: string, core: string, after: string, rest: string)
    requires GoodWay(way) && GoodItems(items) && (items == [] || !IsText(items[|items| - 1]))
    requires Spaces(before) && Unreadable(core) && Spaces(after) && (rest != "" ==> rest[0] == '<')
    ensures ParseString(SpellWay(way) + (SpellItems(items) + (before + (core + (after + rest)))))
      == Judged(ReadUpTo(way, Filled(way, items)), EntityError(Decode(core).error))
  {
    hide Parse, Has, Merged, SpellItems, GoodItems, RawOf, SpellWay, Innermost, GoodWay, HEAD, Decode, ParseString;
    hide Stopped, Judged, ReadUpTo, Unreadable;
    var tail := before + (core + (after + rest));
    var s := SpellWay(way) + (SpellItems(items) + tail);
    var p := |SpellWay(way)|;
    var q := p + |SpellItems(items)|;
    HasAll(s);
    HasParts(s, 0, SpellWay(way), SpellItems(items) + tail);
    HasParts(s, p, SpellItems(items), tail);
    HasFits(s, q, tail);
    HeadIs();
    var d := Innermost(way, HEAD);
    InnermostIs(way, HEAD);
    ItemsPass(s, p, items, BEGIN.(index := p, text := Some(p)), d, |way|, []);
    assert [] + RawOf(items) == RawOf(items);
    var y := BEGIN.(index := q, text := Some(q));
    var a := q + |before|;
    var e := a + |core| + |after|;
    TextStands(s, q, before, core, after, rest);
    ReadOver(s, y, Filled(way, items), |way|, e);
    StepUnreadable(s, y.(index := e), Filled(way, items), |way|, a, core);
    var r := Parse(s, BEGIN.(index := p, text := Some(p)), d, |way|, Outside);
    StopsAt(s, way, r);
    Verdict(s, way, items, r);
  }

  lemma TextStands(s: string, q: nat, before: string, core: string, after: string, rest: string)
    requires Has(s, q, before + (core + (after + rest))) && q + |before + (core + (after + rest))| == |s|
    requires Spaces(before) && Unreadable(core) && Spaces(after) && (rest != "" ==> rest[0] == '<')
    ensures
      var a := q + |before|;
      var e := a + |core| + |after|;
      NoTag(s, q, e) && Blank(s, q, a) && Has(s, a, core) && Blank(s, a + |core|, e)
  {
    hide Decode;
    var a := q + |before|;
    HasParts(s, q, before, core + (after + rest));
    HasParts(s, a, core, after + rest);
    HasParts(s, a + |core|, after, rest);
    SpacesBlank(s, q, before);
    SpacesBlank(s, a + |core|, after);
    forall j | a <= j < a + |core| ensures s[j] != '<' && s[j] != '\0' {
      HasAt(s, a, core, j - a);
    }
    if rest != "" {
      HasAt(s, a + |core| + |after|, rest, 0);
    }
  }

  // ---------- Tags that break off ----------

  /** Behind the complete attributes of a tag: nothing, a name, or a name with an equals sign but without a value. */
  datatype Unfinished =
    | Nothing
    | Pending(blank: string, name: string)
    | Valueless(blank: string, name: string, before: string)

  function SpellUnfinished(u: Unfinished): string {
    match u
    case Nothing => ""
    case Pending(blank, name) => blank + name
    case Valueless(blank, name, before) => blank + (name + (before + "="))
  }

  function SpellBroken(ws: seq<Written>, u: Unfinished, blank: string, rest: string): string {
    SpellTag(ws) + (SpellUnfinished(u) + (blank + rest))
  }

  /** What follows complete attributes, with the blanks that a word in front of it needs. */
  predicate GoodUnfinished(u: Unfinished, blank: string, rest: string, needsBlank: bool) {
    && Spaces(blank) && (rest != "" ==> !White(rest[0]))
    && match u
       case Nothing => needsBlank && blank == "" ==> NoWord(rest)
       case Pending(b, name) => Spaces(b) && IsWord(name) && (needsBlank ==> b != "") && (blank == "" ==> NoWord(rest))
       case Valueless(b, name, before) => Spaces(b) && IsWord(name) && (needsBlank ==> b != "") && Spaces(before)
  }

  /** Complete attributes, the last of which has a value, and what follows them. */
  predicate GoodBroken(ws: seq<Written>, u: Unfinished, blank: string, rest: string, needsBlank: bool) {
    if ws == [] then GoodUnfinished(u, blank, rest, needsBlank)
    else
      && GoodWritten(ws[0]) && (needsBlank ==> ws[0].blank != "") && (ws[0].value.None? ==> ws[1..] != [])
      && GoodBroken(ws[1..], u, blank, rest, !EndsInQuote(ws[0]))
  }

  lemma {:induction false} BrokenIsGood(ws: seq<Written>, u: Unfinished, blank: string, rest: string, needsBlank: bool)
    requires GoodBroken(ws, u, blank, rest, needsBlank)
    ensures GoodTag(ws, needsBlank)
  {
    if ws != [] {
      BrokenIsGood(ws[1..], u, blank, rest, !EndsInQuote(ws[0]));
    }
  }

  predicate BrokenAt(s: string, p: nat, ws: seq<Written>, u: Unfinished, blank: string, rest: string) {
    Has(s, p, SpellBroken(ws, u, blank, rest)) && p + |SpellBroken(ws, u, blank, rest)| == |s|
  }

  /** Where the first thing behind the blanks stands. */
  function FirstAt(p: nat, ws: seq<Written>, u: Unfinished, blank: string): nat {
    p + if ws != [] then |ws[0].blank| else if u.Nothing? then |blank| else |u.blank|
  }

  lemma UnfinishedParts(s: string, p: nat, u: Unfinished, blank: string, rest: string)
    requires BrokenAt(s, p, [], u, blank, rest)
    ensures
      var q := p + |SpellUnfinished(u)|;
      && Has(s, q, blank) && Has(s, q + |blank|, rest) && q + |blank| + |rest| == |s|
      && (u.Pending? ==> Has(s, p, u.blank) && Has(s, p + |u.blank|, u.name))
      && (u.Valueless? ==>
            && Has(s, p, u.blank) && Has(s, p + |u.blank|, u.name)
            && Has(s, p + |u.blank| + |u.name|, u.before) && Has(s, p + |u.blank| + |u.name| + |u.before|, "="))
  {
    hide Has;
    var w := blank + rest;
    assert SpellBroken([], u, blank, rest) == SpellUnfinished(u) + w;
    HasParts(s, p, SpellUnfinished(u), w);
    HasParts(s, p + |SpellUnfinished(u)|, blank, rest);
    match u {
      case Nothing =>
      case Pending(b, name) => HasParts(s, p, b, name);
      case Valueless(b, name, before) =>
        HasParts(s, p, b, name + (before + "="));
        HasParts(s, p + |b|, name, before + "=");
        HasParts(s, p + |b| + |name|, before, "=");
    }
  }

  lemma BrokenParts(s: string, p: nat, ws: seq<Written>, u: Unfinished, blank: string, rest: string)
    requires BrokenAt(s, p, ws, u, blank, rest) && ws != []
    ensures
      var a, q := ws[0], p + |ws[0].blank|;
      && Has(s, p, a.blank) && Has(s, q, a.name) && Has(s, q + |a.name|, SpellValue(a))
      && BrokenAt(s, q + |a.name| + |SpellValue(a)|, ws[1..], u, blank, rest)
  {
    hide Has;
    var a := ws[0];
    var w := SpellTag(ws[1..]) + (SpellUnfinished(u) + (blank + rest));
    assert SpellBroken(ws, u, blank, rest) == SpellWritten(a) + w;
    HasParts(s, p, SpellWritten(a), w);
    HasParts(s, p, a.blank, a.name + SpellValue(a));
    HasParts(s, p + |a.blank|, a.name, SpellValue(a));
  }

  /** The blanks in front of the first thing, and what a word in front of them sees. */
  lemma BrokenFirst(s: string, p: nat, ws: seq<Written>, u: Unfinished, blank: string, rest: string, needsBlank: bool)
    requires BrokenAt(s, p, ws, u, blank, rest) && GoodBroken(ws, u, blank, rest, needsBlank)
    ensures
      var q := FirstAt(p, ws, u, blank);
      && Blank(s, p, q) && (q < |s| ==> !IsSpace(s[q])) && (needsBlank ==> WordEnds(s, p))
  {
    hide Has, SpellBroken, SpellTag, SpellValue, GoodGiven, BrokenAt;
    if ws != [] {
      BrokenParts(s, p, ws, u, blank, rest);
      SpacesBlank(s, p, ws[0].blank);
      HasAt(s, p + |ws[0].blank|, ws[0].name, 0);
    } else {
      UnfinishedParts(s, p, u, blank, rest);
      if u.Nothing? {
        BlankFirst(s, p, blank, rest, needsBlank);
      } else {
        SpacesBlank(s, p, u.blank);
        HasAt(s, p + |u.blank|, u.name, 0);
      }
    }
  }

  lemma BlankFirst(s: string, p: nat, blank: string, rest: string, word: bool)
    requires Has(s, p, blank) && Has(s, p + |blank|, rest) && p + |blank| + |rest| == |s| && Spaces(blank)
    requires (rest != "" ==> !IsSpace(rest[0])) && (word && blank == "" ==> NoWord(rest))
    ensures
      var q := p + |blank|;
      && Blank(s, p, q) && (q < |s| ==> !IsSpace(s[q])) && (q < |s| <==> rest != "") && (word ==> WordEnds(s, p))
      && (rest != "" ==> s[q] == rest[0]) && (|rest| > 1 ==> s[q + 1] == rest[1])
  {
    SpacesBlank(s, p, blank);
    if rest != "" {
      HasAt(s, p + |blank|, rest, 0);
      if |rest| > 1 {
        HasAt(s, p + |blank|, rest, 1);
      }
    }
  }

  /** A word is the next token, and blanks may have been read over behind it. */
  lemma WordNextToken(s: string, j: nat, q: nat, w: string, e: nat)
    requires Blank(s, j, q) && Has(s, q, w) && IsWord(w) && WordEnds(s, q + |w|)
    requires Blank(s, q + |w|, e) && (e < |s| ==> !IsSpace(s[e]))
    ensures
      var t := NextToken(s, j);
      && t == WordToken(s, q, |w|) && q + |w| <= |s| && s[q..q + |w|] == w && |w| >= 1 && j < t.next
      && t.kind == TextToken && Blank(s, t.next, e)
  {
    hide TokenAt, Has;
    HasFits(s, q, w);
    WordIsToken(s, q, w);
    TokenBehind(s, j, q);
  }

  /** The complete attributes are read, up to the blanks behind them. */
  lemma {:induction false} PassNames(s: string, p: nat, ws: seq<Written>, u: Unfinished, blank: string, rest: string,
                                     needsBlank: bool, x: Cursor, d: Node, depth: nat) returns (j: nat)
    requires BrokenAt(s, p, ws, u, blank, rest) && GoodBroken(ws, u, blank, rest, needsBlank)
    requires Good(s, x) && !d.isDeclaration && Blank(s, x.index, FirstAt(p, ws, u, blank))
    ensures x.index <= j <= |s| && Blank(s, j, FirstAt(p + |SpellTag(ws)|, [], u, blank)) && GoodTag(ws, needsBlank)
    ensures Parse(s, x, d, depth, AttribName)
      == Parse(s, x.(index := j), Attributed(d, AttributesOf(false, ws, needsBlank)), depth, AttribName)
    decreases |ws|, 1
  {
    hide Parse, BrokenAt, NextToken, TokenAt, GoodWritten, GoodTag, GoodBroken, GoodUnfinished, SpellTag, AttributesOf;
    hide Attributed, ValueAt;
    BrokenIsGood(ws, u, blank, rest, needsBlank);
    if ws == [] {
      NothingPassed(d, needsBlank);
      j := x.index;
    } else {
      var a, q, n := ws[0], p + |ws[0].blank|, |ws[0].name|;
      NameReached(s, p, ws, u, blank, rest, needsBlank, x.index);
      var t := NextToken(s, x.index);
      StepName(s, x, d, depth);
      j := PassNamed(s, p, ws, u, blank, rest, needsBlank, x.(index := t.next), d, depth);
    }
  }

  lemma NothingPassed(d: Node, needsBlank: bool)
    ensures SpellTag([]) == "" && GoodTag([], needsBlank) && Attributed(d, AttributesOf(false, [], needsBlank)) == d
  {
    assert d.attributes + [] == d.attributes;
  }

  /** Where the value of the first attribute starts, or what follows when it has none. */
  function ValueAt(p: nat, ws: seq<Written>, u: Unfinished, blank: string): nat
    requires ws != []
  {
    var e := p + |ws[0].blank| + |ws[0].name|;
    if ws[0].value.Some? then e + |ws[0].value.value.before| else FirstAt(e, ws[1..], u, blank)
  }

  lemma NameReached(s: string, p: nat, ws: seq<Written>, u: Unfinished, blank: string, rest: string,
                    needsBlank: bool, j: nat)
    requires BrokenAt(s, p, ws, u, blank, rest) && GoodBroken(ws, u, blank, rest, needsBlank) && ws != []
    requires Blank(s, j, p + |ws[0].blank|)
    ensures
      var t, q, n := NextToken(s, j), p + |ws[0].blank|, |ws[0].name|;
      && t == WordToken(s, q, n) && q + n <= |s| && s[q..q + n] == ws[0].name && n >= 1 && j < t.next <= |s|
      && t.kind == TextToken && Blank(s, t.next, ValueAt(p, ws, u, blank))
  {
    hide BrokenAt, Has, NextToken, SpellGiven, WordEnds, IsWord, SpellTag, GoodTag, Quoted, Decode, Quotable;
    hide GoodUnfinished, WordToken;
    BrokenParts(s, p, ws, u, blank, rest);
    var a, q := ws[0], p + |ws[0].blank|;
    var e := q + |a.name|;
    if a.value.Some? {
      var v := a.value.value;
      GivenFollows(s, e, v);
      EndsToo(s, e);
      GivenParts(s, e, v);
      SpacesBlank(s, e, v.before);
      HasAt(s, e + |v.before|, "=", 0);
    } else {
      BrokenFirst(s, e, ws[1..], u, blank, rest, true);
    }
    WordNextToken(s, j, q, a.name, ValueAt(p, ws, u, blank));
  }

  lemma {:induction false} PassNamed(s: string, p: nat, ws: seq<Written>, u: Unfinished, blank: string, rest: string,
                                     needsBlank: bool, x: Cursor, d: Node, depth: nat) returns (j: nat)
    requires BrokenAt(s, p, ws, u, blank, rest) && GoodBroken(ws, u, blank, rest, needsBlank) && ws != []
    requires Good(s, x) && !d.isDeclaration
    requires x.index == WordToken(s, p + |ws[0].blank|, |ws[0].name|).next
    requires Blank(s, x.index, ValueAt(p, ws, u, blank))
    ensures x.index <= j <= |s| && Blank(s, j, FirstAt(p + |SpellTag(ws)|, [], u, blank)) && GoodTag(ws, needsBlank)
    ensures
      var q, n := p + |ws[0].blank|, |ws[0].name|;
      && q + n <= |s| && n >= 1
      && Parse(s, x, d, depth, AttribEquals(q, n))
         == Parse(s, x.(index := j), Attributed(d, AttributesOf(false, ws, needsBlank)), depth, AttribName)
    decreases |ws|, 0
  {
    hide Parse, BrokenAt, NextToken, TokenAt, Has, SpellTag, GoodUnfinished, GoodBroken, GoodTag, GoodWritten;
    hide Attributed, AttributesOf, SpellValue, EndsInQuote, FirstAt, ValueAt, Blank, WordEnds, Decode;
    var a, q, n, ws' := ws[0], p + |ws[0].blank|, |ws[0].name|, ws[1..];
    var needs := !EndsInQuote(a);
    NamedFirst(s, p, ws, u, blank, rest, needsBlank);
    FirstAttributed(d, ws, needsBlank);
    var e := q + n + |SpellValue(a)|;
    if a.value.Some? {
      var k := PassValue(s, p, ws, u, blank, rest, needsBlank, x, d, depth);
      var d' := AddAttribute(d, a.name, AttributeOf(false, a).value);
      j := PassNames(s, e, ws', u, blank, rest, needs, x.(index := k), d', depth);
    } else {
      NameReached(s, e, ws', u, blank, rest, needs, x.index);
      var t := NextToken(s, x.index);
      StepUnvalued(s, x, d, depth, q, n);
      j := PassNamed(s, e, ws', u, blank, rest, needs, x.(index := t.next), AddAttribute(d, a.name, None), depth);
    }
  }

  lemma FirstAttributed(d: Node, ws: seq<Written>, needsBlank: bool)
    requires ws != [] && GoodTag(ws, needsBlank)
    ensures
      var b := AttributeOf(false, ws[0]);
      Attributed(AddAttribute(d, b.name, b.value), AttributesOf(false, ws[1..], !EndsInQuote(ws[0])))
      == Attributed(d, AttributesOf(false, ws, needsBlank))
  {
    var b, rest := AttributeOf(false, ws[0]), AttributesOf(false, ws[1..], !EndsInQuote(ws[0]));
    assert d.attributes + [b] + rest == d.attributes + ([b] + rest);
  }

  lemma NamedFirst(s: string, p: nat, ws: seq<Written>, u: Unfinished, blank: string, rest: string, needsBlank: bool)
    requires BrokenAt(s, p, ws, u, blank, rest) && GoodBroken(ws, u, blank, rest, needsBlank) && ws != []
    ensures
      var a, q, e := ws[0], p + |ws[0].blank|, p + |ws[0].blank| + |ws[0].name| + |SpellValue(ws[0])|;
      && GoodTag(ws, needsBlank) && GoodWritten(a) && q + |a.name| <= |s| && |a.name| >= 1
      && s[q..q + |a.name|] == a.name
      && BrokenAt(s, e, ws[1..], u, blank, rest) && GoodBroken(ws[1..], u, blank, rest, !EndsInQuote(a))
      && p + |SpellTag(ws)| == e + |SpellTag(ws[1..])|
      && (a.value.None? ==>
            && !EndsInQuote(a) && ws[1..] != [] && AttributeOf(false, a).value == None
            && ValueAt(p, ws, u, blank) == e + |ws[1].blank|)
  {
    hide BrokenAt, Has, SpellGiven, Spaces, Decode;
    BrokenIsGood(ws, u, blank, rest, needsBlank);
    BrokenParts(s, p, ws, u, blank, rest);
    HasFits(s, p + |ws[0].blank|, ws[0].name);
    TagLonger(ws);
  }

  lemma PassValue(s: string, p: nat, ws: seq<Written>, u: Unfinished, blank: string, rest: string,
                  needsBlank: bool, x: Cursor, d: Node, depth: nat) returns (j: nat)
    requires BrokenAt(s, p, ws, u, blank, rest) && GoodBroken(ws, u, blank, rest, needsBlank) && ws != []
    requires Good(s, x) && !d.isDeclaration && ws[0].value.Some?
    requires x.index == WordToken(s, p + |ws[0].blank|, |ws[0].name|).next
    ensures
      var a, q, n := ws[0], p + |ws[0].blank|, |ws[0].name|;
      && x.index <= j <= |s| && Blank(s, j, FirstAt(q + n + |SpellValue(a)|, ws[1..], u, blank))
      && q + n <= |s| && n >= 1 && GoodWritten(a)
      && Parse(s, x, d, depth, AttribEquals(q, n))
         == Parse(s, x.(index := j), AddAttribute(d, a.name, AttributeOf(false, a).value), depth, AttribName)
  {
    hide Parse, BrokenAt, NextToken, Has, SpellGiven, WordEnds, Decode, GoodUnfinished, Spaces, Quotable, FirstAt;
    hide SpellTag, GoodTag, IsWord, Quoted, AttributesOf;
    NamedFirst(s, p, ws, u, blank, rest, needsBlank);
    BrokenParts(s, p, ws, u, blank, rest);
    var a, q, n := ws[0], p + |ws[0].blank|, |ws[0].name|;
    var e, v := q + n + |SpellValue(a)|, a.value.value;
    BrokenFirst(s, e, ws[1..], u, blank, rest, !EndsInQuote(a));
    WordNext(s, q, n, v);
    j := ReadValue(s, q + n, v, x, d, depth, q, n);
    BlankMeets(s, e, j, FirstAt(e, ws[1..], u, blank));
  }

  lemma TagLonger(ws: seq<Written>)
    requires ws != []
    ensures |SpellTag(ws)| == |ws[0].blank| + |ws[0].name| + |SpellValue(ws[0])| + |SpellTag(ws[1..])|
  {
  }

  // ---------- What tags that break off mean ----------

  /** A quotation that is closed. */
  predicate StartsQuotation(w: string) {
    && w != "" && (w[0] == '\'' || w[0] == '\"')
    && exists n :: 1 <= n < |w| && w[n] == w[0] &&
                   forall j :: 1 <= j < n ==> w[j] != w[0] && w[j] != '<' && w[j] != '\0'
  }

  /** What cannot stand there: the text ends, or a sign comes that is not expected. */
  predicate BadSign(u: Unfinished, rest: string) {
    rest == "" || rest[0] == '<' ||
    match u
    case Nothing => rest[0] == '=' || StartsQuotation(rest)
    case Pending(_, _) => StartsQuotation(rest)
    case Valueless(_, _, _) => rest[0] == '=' || rest[0] == '>' || (|rest| > 1 && rest[0] == '/' && rest[1] == '>')
  }

  predicate BadKind(mode: Mode, k: Kind) {
    k == ErrorToken ||
    match mode
    case Outside => false
    case AttribName => k != TextToken && k != CloseTag && k != ShortHandClose
    case AttribEquals(_, _) => k != TextToken && k != Equals && k != CloseTag && k != ShortHandClose
    case AttribValue(_, _) => k != TextToken && k != QuotedText
  }

  lemma StepBad(s: string, x: Cursor, d: Node, depth: nat, mode: Mode)
    requires Good(s, x) && GoodMode(s, mode) && x.text.None? && !d.isDeclaration && depth > 0
    requires BadKind(mode, NextToken(s, x.index).kind)
    ensures
      var t := NextToken(s, x.index);
      Parse(s, x, d, depth, mode) == Outcome(false,
        x.(index := t.next, error := if t.kind == ErrorToken then MissingEndTag else UnexpectedToken), d)
  {
    hide TokenAt, SkipSpaces, ParseChild, CloseTagBehind, ParseEndTag, ParseClear, Decode, AttributeText;
  }

  lemma QuotationToken(s: string, q: nat, rest: string)
    requires Has(s, q, rest) && StartsQuotation(rest)
    ensures NextToken(s, q).kind == QuotedText
  {
    var n :| 1 <= n < |rest| && rest[n] == rest[0] &&
             forall j :: 1 <= j < n ==> rest[j] != rest[0] && rest[j] != '<' && rest[j] != '\0';
    HasAt(s, q, rest, 0);
    HasAt(s, q, rest, n);
    forall j | q + 1 <= j < q + n ensures s[j] != rest[0] && s[j] != '<' && s[j] != '\0' {
      HasAt(s, q, rest, j - q);
    }
    QuotationEnds(s, q + 1, q + n, rest[0]);
    NoClearTag(s, q);
    SkipBlank(s, q, q);
  }

  lemma BadToken(s: string, j: nat, q: nat, u: Unfinished, rest: string, mode: Mode)
    requires Blank(s, j, q) && Has(s, q, rest) && q + |rest| == |s| && (rest != "" ==> !IsSpace(rest[0]))
    requires BadSign(u, rest)
    requires if u.Nothing? then mode == AttribName else if u.Pending? then mode.AttribEquals? else mode.AttribValue?
    ensures BadKind(mode, NextToken(s, j).kind) && (NextToken(s, j).kind == ErrorToken <==> rest == "")
  {
    hide TokenAt, StartsQuotation;
    if rest != "" {
      HasAt(s, q, rest, 0);
      if |rest| > 1 {
        HasAt(s, q, rest, 1);
      }
    }
    SignToken(s, q);
    SkipBlank(s, j, q);
    if StartsQuotation(rest) {
      QuotationToken(s, q, rest);
    }
    BadSigns(s, q, u, rest, mode);
  }

  lemma BadSigns(s: string, q: nat, u: Unfinished, rest: string, mode: Mode)
    requires q + |rest| == |s| && BadSign(u, rest) && (rest != "" ==> s[q] == rest[0])
    requires |rest| > 1 ==> s[q + 1] == rest[1]
    requires StartsQuotation(rest) ==> NextToken(s, q).kind == QuotedText
    requires
      var t, c := NextToken(s, q), At(s, q);
      && (q == |s| ==> t.kind == ErrorToken) && (c == '=' ==> t.kind == Equals)
      && (q < |s| ==> (c == '>' <==> t.kind == CloseTag))
      && (c == '/' && At(s, q + 1) == '>' ==> t.kind == ShortHandClose)
      && (c == '<' ==> t.kind == Clear || t.kind == TagStart || t.kind == TagEnd || t.kind == Declaration)
    requires if u.Nothing? then mode == AttribName else if u.Pending? then mode.AttribEquals? else mode.AttribValue?
    ensures BadKind(mode, NextToken(s, q).kind) && (NextToken(s, q).kind == ErrorToken <==> rest == "")
  {
    hide NextToken, StartsQuotation;
  }

  /** What follows complete attributes ends the parse. */
  lemma UnfinishedFails(s: string, p: nat, u: Unfinished, blank: string, rest: string, needsBlank: bool,
                        x: Cursor, d: Node, depth: nat)
    requires BrokenAt(s, p, [], u, blank, rest) && GoodUnfinished(u, blank, rest, needsBlank) && BadSign(u, rest)
    requires Good(s, x) && x.text.None? && !d.isDeclaration && depth > 0 && Blank(s, x.index, FirstAt(p, [], u, blank))
    ensures
      var r := Parse(s, x, d, depth, AttribName);
      !r.more && r.d == d && r.x.error == if rest == "" then MissingEndTag else UnexpectedToken
  {
    hide Parse, Has, NextToken, BrokenAt, BadSign, BadKind, Spaces, IsWord, Blank, WordEnds;
    UnfinishedParts(s, p, u, blank, rest);
    var q := p + |SpellUnfinished(u)| + |blank|;
    match u {
      case Nothing =>
        BadToken(s, x.index, q, u, rest, AttribName);
        StepBad(s, x, d, depth, AttribName);
      case Pending(b, name) =>
        BlankFirst(s, q - |blank|, blank, rest, true);
        WordNextToken(s, x.index, p + |b|, name, q);
        var x1 := x.(index := NextToken(s, x.index).next);
        StepName(s, x, d, depth);
        BadToken(s, x1.index, q, u, rest, AttribEquals(p + |b|, |name|));
        StepBad(s, x1, d, depth, AttribEquals(p + |b|, |name|));
      case Valueless(b, name, before) =>
        var x2 := EqualsReached(s, p, u, blank, rest, x, d, depth);
        BadToken(s, x2.index, q, u, rest, AttribValue(p + |b|, |name|));
        StepBad(s, x2, d, depth, AttribValue(p + |b|, |name|));
    }
  }

  /** A name and an equals sign are read. */
  lemma EqualsReached(s: string, p: nat, u: Unfinished, blank: string, rest: string, x: Cursor, d: Node, depth: nat)
    returns (x2: Cursor)
    requires u.Valueless? && BrokenAt(s, p, [], u, blank, rest)
    requires Spaces(u.before) && Spaces(blank) && IsWord(u.name)
    requires Good(s, x) && Blank(s, x.index, p + |u.blank|)
    ensures
      var q, a, n := p + |SpellUnfinished(u)|, p + |u.blank|, |u.name|;
      && x2 == x.(index := q) && q <= |s| && Blank(s, q, q + |blank|) && a + n <= |s| && n >= 1
      && s[a..a + n] == u.name
      && Parse(s, x, d, depth, AttribName) == Parse(s, x2, d, depth, AttribValue(a, n))
  {
    hide Parse, Has, NextToken, BrokenAt, IsWord, Spaces, SpellBroken;
    UnfinishedParts(s, p, u, blank, rest);
    var a, n, q := p + |u.blank|, |u.name|, p + |SpellUnfinished(u)|;
    EqualsTokens(s, x.index, a, u.name, u.before);
    SpacesBlank(s, q, blank);
    StepName(s, x, d, depth);
    StepEquals(s, x.(index := NextToken(s, x.index).next), d, depth, a, n);
    x2 := x.(index := q);
  }

  lemma EqualsTokens(s: string, j: nat, a: nat, name: string, before: string)
    requires Blank(s, j, a) && Has(s, a, name) && IsWord(name) && Has(s, a + |name|, before) && Spaces(before)
    requires Has(s, a + |name| + |before|, "=")
    ensures
      var t, e := NextToken(s, j), a + |name| + |before|;
      && t == WordToken(s, a, |name|) && a + |name| <= |s| && s[a..a + |name|] == name && |name| >= 1
      && t.next <= |s| && NextToken(s, t.next) == Token(Equals, e, 1, e + 1, 0) && e + 1 <= |s|
  {
    hide Has, NextToken, IsWord, WordEnds;
    var e := a + |name| + |before|;
    SpacesBlank(s, a + |name|, before);
    HasAt(s, e, "=", 0);
    EqualsEnds(s, a + |name|, before);
    WordNextToken(s, j, a, name, e);
    EqualsIsRead(s, a + |name|, before, NextToken(s, j).next);
  }

  lemma EqualsEnds(s: string, p: nat, before: string)
    requires Spaces(before) && Has(s, p, before) && Has(s, p + |before|, "=")
    ensures WordEnds(s, p)
  {
    HasAt(s, p + |before|, "=", 0);
    if before != "" {
      HasAt(s, p, before, 0);
    }
  }

  // ---------- Documents with a tag that breaks off ----------

  /** The start of a tag up to the end of the text. */
  function SpellFault(lead: string, name: string, ws: seq<Written>, u: Unfinished, blank: string, rest: string): string
  {
    "<" + (lead + (name + SpellBroken(ws, u, blank, rest)))
  }

  predicate GoodFault(lead: string, name: string, ws: seq<Written>, u: Unfinished, blank: string, rest: string) {
    && Spaces(lead) && IsName(name) && GoodBroken(ws, u, blank, rest, true)
    && (u.Nothing? && rest != "" ==> rest[0] != '>')
  }

  lemma FaultParts(s: string, p: nat, lead: string, name: string, ws: seq<Written>, u: Unfinished,
                   blank: string, rest: string)
    requires Has(s, p, SpellFault(lead, name, ws, u, blank, rest))
    requires p + |SpellFault(lead, name, ws, u, blank, rest)| == |s| && GoodFault(lead, name, ws, u, blank, rest)
    ensures
      var q := p + 1 + |lead|;
      var e := q + |name|;
      && Has(s, p, "<") && Has(s, p + 1, lead) && Has(s, q, name) && BrokenAt(s, e, ws, u, blank, rest)
      && Blank(s, e, FirstAt(e, ws, u, blank))
      && (FirstAt(e, ws, u, blank) < |s| ==> !IsSpace(s[FirstAt(e, ws, u, blank)])) && WordEnds(s, e)
  {
    hide Has, SpellBroken, GoodBroken, WordEnds;
    var w := SpellBroken(ws, u, blank, rest);
    HasParts(s, p, "<", lead + (name + w));
    HasParts(s, p + 1, lead, name + w);
    HasParts(s, p + 1 + |lead|, name, w);
    BrokenFirst(s, p + 1 + |lead| + |name|, ws, u, blank, rest, true);
  }

  /** No angle bracket closes the tag right behind its name. */
  lemma NotClosed(s: string, e: nat, ws: seq<Written>, u: Unfinished, blank: string, rest: string)
    requires BrokenAt(s, e, ws, u, blank, rest) && GoodBroken(ws, u, blank, rest, true)
    requires u.Nothing? && rest != "" ==> rest[0] != '>'
    ensures At(s, e) != '>'
  {
    hide Has;
    if ws != [] {
      BrokenParts(s, e, ws, u, blank, rest);
      HasAt(s, e, ws[0].blank, 0);
    } else {
      UnfinishedParts(s, e, u, blank, rest);
      if u.Nothing? {
        BlankFirst(s, e, blank, rest, true);
      } else {
        HasAt(s, e, u.blank, 0);
      }
    }
  }

  lemma FaultIsNotPre(s: string, p: nat, lead: string, name: string, e: nat)
    requires Has(s, p, "<") && Has(s, p + 1, lead) && Has(s, p + 1 + |lead|, name) && e == p + 1 + |lead| + |name|
    requires Spaces(lead) && IsName(name) && WordEnds(s, e) && At(s, e) != '>'
    ensures !Has(s, p, "<PRE>")
  {
    hide Has;
    if Has(s, p, "<PRE>") {
      HasAt(s, p, "<PRE>", 1);
      HasAt(s, p, "<PRE>", 2);
      HasAt(s, p, "<PRE>", 3);
      HasAt(s, p, "<PRE>", 4);
      if lead != "" {
        HasAt(s, p + 1, lead, 0);
      } else if |name| > 3 {
        HasAt(s, p + 1, name, 3);
      }
    }
  }

  /** The name of the tag is read. */
  lemma FaultOpens(s: string, p: nat, lead: string, name: string, ws: seq<Written>, u: Unfinished, blank: string,
                   rest: string, y: Cursor, d0: Node, d: Node, depth: nat) returns (x: Cursor)
    requires Has(s, p, SpellFault(lead, name, ws, u, blank, rest))
    requires p + |SpellFault(lead, name, ws, u, blank, rest)| == |s| && GoodFault(lead, name, ws, u, blank, rest)
    requires Good(s, y) && y.index == p && MaybeAddText(s, y, d0, p) == Outcome(true, y.(text := None), d)
    ensures
      var e := p + 1 + |lead| + |name|;
      && Good(s, x) && x.text.None? && Blank(s, x.index, FirstAt(e, ws, u, blank)) && BrokenAt(s, e, ws, u, blank, rest)
    ensures
      var r := Parse(s, x, Node(Some(name), false, [], []), depth + 1, AttribName);
      !r.more ==> Parse(s, y, d0, depth, Outside) == Outcome(false, r.x, AddChild(d, r.d))
  {
    hide Parse, Has, MaybeAddText, NextToken, TokenAt, SpellFault, BrokenAt, GoodBroken, WordEnds, IsName, FirstAt;
    FaultParts(s, p, lead, name, ws, u, blank, rest);
    var q := p + 1 + |lead|;
    var e := q + |name|;
    NotClosed(s, e, ws, u, blank, rest);
    FaultIsNotPre(s, p, lead, name, e);
    NameIsWord(name);
    FaultToken(s, p, lead, name);
    SpacesBlank(s, p + 1, lead);
    WordNextToken(s, p + 1, q, name, FirstAt(e, ws, u, blank));
    ParseOpens(s, y, d0, depth, NextToken(s, p));
    MaybeAnywhere(s, y, d0, p, p + 1, d);
    ParseChildStages(s, y.(index := p + 1), d0, depth, NextToken(s, p), false,
      Outcome(true, y.(index := p + 1, text := None), d));
    x := y.(index := NextToken(s, p + 1).next, text := None);
  }

  lemma FaultToken(s: string, p: nat, lead: string, name: string)
    requires Has(s, p, "<") && Has(s, p + 1, lead) && Has(s, p + 1 + |lead|, name) && Spaces(lead) && IsName(name)
    requires !Has(s, p, "<PRE>")
    ensures NextToken(s, p) == Token(TagStart, p, 1, p + 1, 0) && p + 1 <= |s|
  {
    HasAt(s, p, "<", 0);
    if lead != "" {
      HasAt(s, p + 1, lead, 0);
    } else {
      HasAt(s, p + 1, name, 0);
    }
    NoOpening(s, p);
    SkipBlank(s, p, p);
  }

  /** The element of a tag that breaks off, with its complete attributes. */
  function Partial(name: string, ws: seq<Written>): Node
    requires GoodTag(ws, true)
  {
    Node(Some(name), false, AttributesOf(false, ws, true), [])
  }

  /** Within a tag comes what cannot stand there, or the text ends; complete attributes in front of it are kept. */
  lemma BrokenTag(way: seq<Opened>, items: seq<Item>, lead: string, name: string, ws: seq<Written>, u: Unfinished,
                  blank: string, rest: string)
    requires GoodWay(way) && GoodItems(items) && GoodFault(lead, name, ws, u, blank, rest) && BadSign(u, rest)
    ensures GoodTag(ws, true)
    ensures ParseString(SpellWay(way) + (SpellItems(items) + SpellFault(lead, name, ws, u, blank, rest)))
      == Judged(ReadUpTo(way, AddChild(Filled(way, items), Partial(name, ws))),
                if rest == "" then MissingEndTag else UnexpectedToken)
  {
    hide Parse, Has, MaybeAddText, ParseString, SpellWay, SpellItems, GoodWay, GoodItems, Stopped, Filled, Judged;
    hide NextToken, GoodBroken, BrokenAt, IsName, SpellTag, Spaces, BadSign, GoodUnfinished, AttributesOf;
    BrokenIsGood(ws, u, blank, rest, true);
    LastIsGood(ws, u, blank, rest, true);
    var tail := SpellFault(lead, name, ws, u, blank, rest);
    var s := SpellWay(way) + (SpellItems(items) + tail);
    var y, d0 := Reach(way, items, tail);
    var e := y.index + 1 + |lead| + |name|;
    var d := Node(Some(name), false, [], []);
    var x := FaultOpens(s, y.index, lead, name, ws, u, blank, rest, y, d0, Filled(way, items), |way|);
    var j := PassNames(s, e, ws, u, blank, rest, true, x, d, |way| + 1);
    BrokenRest(s, e, ws, u, blank, rest);
    assert d.attributes + AttributesOf(false, ws, true) == AttributesOf(false, ws, true);
    var p := e + |SpellTag(ws)|;
    UnfinishedFails(s, p, u, blank, rest, NeedsBlank(ws, true), x.(index := j), Partial(name, ws), |way| + 1);
    Verdict(s, way, items, Parse(s, y, d0, |way|, Outside));
  }

  function NeedsBlank(ws: seq<Written>, needsBlank: bool): bool {
    if ws == [] then needsBlank else NeedsBlank(ws[1..], !EndsInQuote(ws[0]))
  }

  lemma {:induction false} LastIsGood(ws: seq<Written>, u: Unfinished, blank: string, rest: string, needsBlank: bool)
    requires GoodBroken(ws, u, blank, rest, needsBlank)
    ensures GoodUnfinished(u, blank, rest, NeedsBlank(ws, needsBlank))
  {
    hide GoodWritten;
    if ws != [] {
      LastIsGood(ws[1..], u, blank, rest, !EndsInQuote(ws[0]));
    }
  }

  lemma BrokenRest(s: string, p: nat, ws: seq<Written>, u: Unfinished, blank: string, rest: string)
    requires BrokenAt(s, p, ws, u, blank, rest)
    ensures BrokenAt(s, p + |SpellTag(ws)|, [], u, blank, rest)
  {
    HasParts(s, p, SpellTag(ws), SpellUnfinished(u) + (blank + rest));
  }

  // ---------- Values that cannot be decoded ----------

  /** The text of the value cannot be decoded; what follows a bare value ends it. */
  predicate BadGiven(quote: Option<char>, text: string, more: string) {
    && Decode(text).Failed? && (quote.Some? ==> Quotable(quote.value, text))
    && (quote.None? ==> IsWord(text) && (more == "" || White(more[0]) || NoWord(more)))
  }

  lemma StepBadValue(s: string, x: Cursor, d: Node, depth: nat, start: nat, len: nat)
    requires Good(s, x) && start + len <= |s| && len >= 1
    requires NextToken(s, x.index).kind == TextToken || NextToken(s, x.index).kind == QuotedText
    requires Decode(AttributeText(s, d, NextToken(s, x.index))).Failed?
    ensures
      var r := Parse(s, x, d, depth, AttribValue(start, len));
      && !r.more && r.d == d
      && r.x.error == EntityError(Decode(AttributeText(s, d, NextToken(s, x.index))).error)
  {
    hide TokenAt, SkipSpaces, MaybeAddText, ParseChild, CloseTagBehind, ParseEndTag, ParseClear, Decode, AttributeText;
  }

  /** The value is the next token. */
  lemma BadValueToken(s: string, j: nat, q: nat, quote: Option<char>, text: string, more: string, d: Node)
    requires Blank(s, j, q) && Has(s, q, Quoted(quote, text) + more) && q + |Quoted(quote, text) + more| == |s|
    requires BadGiven(quote, text, more) && !d.isDeclaration
    ensures
      var t := NextToken(s, j);
      (t.kind == TextToken || t.kind == QuotedText) && AttributeText(s, d, t) == text
  {
    hide TokenAt, Decode, Has;
    var e := q + |Quoted(quote, text)|;
    HasParts(s, q, Quoted(quote, text), more);
    HasFits(s, q, Quoted(quote, text));
    if quote.Some? {
      QuotationIsToken(s, q, quote.value, text);
    } else {
      if more != "" {
        HasAt(s, e, more, 0);
        if |more| > 1 {
          HasAt(s, e, more, 1);
        }
      }
      WordIsToken(s, q, text);
    }
    TokenBehind(s, j, q);
  }

  lemma QuotedStarts(quote: Option<char>, text: string, more: string)
    requires BadGiven(quote, text, more)
    ensures var w := Quoted(quote, text) + more; w != "" && !IsSpace(w[0])
  {
    hide Decode;
  }

  /** A value with a reference that stands for nothing. */
  lemma BadValue(way: seq<Opened>, items: seq<Item>, lead: string, name: string, ws: seq<Written>, u: Unfinished,
                 blank: string, quote: Option<char>, text: string, more: string)
    requires GoodWay(way) && GoodItems(items) && u.Valueless? && BadGiven(quote, text, more)
    requires GoodFault(lead, name, ws, u, blank, Quoted(quote, text) + more)
    ensures GoodTag(ws, true)
    ensures ParseString(SpellWay(way) + (SpellItems(items)
                          + SpellFault(lead, name, ws, u, blank, Quoted(quote, text) + more)))
      == Judged(ReadUpTo(way, AddChild(Filled(way, items), Partial(name, ws))), EntityError(Decode(text).error))
  {
    hide Parse, Has, MaybeAddText, ParseString, SpellWay, SpellItems, GoodWay, GoodItems, Stopped, Filled, Judged;
    hide NextToken, GoodBroken, BrokenAt, IsName, SpellTag, Spaces, GoodUnfinished, AttributesOf, Quoted, BadGiven;
    hide AttributeText, Decode;
    var rest := Quoted(quote, text) + more;
    BrokenIsGood(ws, u, blank, rest, true);
    LastIsGood(ws, u, blank, rest, true);
    var tail := SpellFault(lead, name, ws, u, blank, rest);
    var s := SpellWay(way) + (SpellItems(items) + tail);
    var y, d0 := Reach(way, items, tail);
    var e := y.index + 1 + |lead| + |name|;
    var d := Node(Some(name), false, [], []);
    var x := FaultOpens(s, y.index, lead, name, ws, u, blank, rest, y, d0, Filled(way, items), |way|);
    var j := PassNames(s, e, ws, u, blank, rest, true, x, d, |way| + 1);
    BrokenRest(s, e, ws, u, blank, rest);
    assert d.attributes + AttributesOf(false, ws, true) == AttributesOf(false, ws, true);
    var p := e + |SpellTag(ws)|;
    ValueFails(s, p, u, blank, quote, text, more, NeedsBlank(ws, true), x.(index := j), Partial(name, ws), |way| + 1);
    Verdict(s, way, items, Parse(s, y, d0, |way|, Outside));
  }

  lemma ValueFails(s: string, p: nat, u: Unfinished, blank: string, quote: Option<char>, text: string, more: string,
                   needsBlank: bool, x: Cursor, d: Node, depth: nat)
    requires u.Valueless? && BadGiven(quote, text, more) && BrokenAt(s, p, [], u, blank, Quoted(quote, text) + more)
    requires GoodUnfinished(u, blank, Quoted(quote, text) + more, needsBlank)
    requires Good(s, x) && !d.isDeclaration && Blank(s, x.index, FirstAt(p, [], u, blank))
    ensures
      var r := Parse(s, x, d, depth, AttribName);
      !r.more && r.d == d && r.x.error == EntityError(Decode(text).error)
  {
    hide Parse, Has, NextToken, BrokenAt, Quoted, BadGiven, Spaces, IsWord, AttributeText, Decode;
    var rest := Quoted(quote, text) + more;
    UnfinishedParts(s, p, u, blank, rest);
    var x2 := EqualsReached(s, p, u, blank, rest, x, d, depth);
    BadValueToken(s, x2.index, x2.index + |blank|, quote, text, more, d);
    GivenFails(quote, text, more);
    StepBadValue(s, x2, d, depth, p + |u.blank|, |u.name|);
  }

  lemma GivenFails(quote: Option<char>, text: string, more: string)
    requires BadGiven(quote, text, more)
    ensures Decode(text).Failed?
  {
  }
}
