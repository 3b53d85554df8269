/**
 Declarations and processing instructions: "<?name ... ?>". The outermost one is read as an open element that holds the
 document; further inside, a question mark at the end of the last word closes it, and without one it stays open.
 */
module XmlDeclarations {

  import opened Options
  import opened XmlText
  import opened XmlTokens
  import opened XmlPrinter
  import opened XmlParser
  import opened XmlRoundTrip
  import opened XmlReading
  import opened XmlFaults

  // ---------- Declarations as they are written ----------

  /** "<?" and a name, attributes, blanks, and the end of the tag; its question mark belongs to the last word. */
  datatype Instruction = Instruction(lead: string, name: string, ws: seq<Written>, tail: string, close: string)

  function SpellInstruction(i: Instruction): string {
    "<?" + (i.lead + (i.name + (SpellTag(i.ws) + (i.tail + i.close))))
  }

  predicate GoodInstruction(i: Instruction) {
    && Spaces(i.lead) && IsWord(i.name) && GoodTag(i.ws, true) && Spaces(i.tail)
    && (i.close == ">" || i.close == "/>")
  }

  /** What it declares. */
  function Declared(i: Instruction): Node
    requires GoodTag(i.ws, true)
  {
    Node(Some(i.name), true, TagAttributes(true, i.ws, true), [])
  }

  /** Whether it is complete at the end of its tag; the outermost elements have depth 1. */
  predicate EndsItself(i: Instruction, depth: nat) {
    i.close == "/>" || (Asks(i.ws) && depth >= 2)
  }

  // ---------- Declarations as they are read ----------

  function TagEndIn(p: nat, i: Instruction): nat {
    p + 2 + |i.lead| + |i.name| + |SpellTag(i.ws)| + |i.tail|
  }

  lemma InstructionParts(s: string, p: nat, i: Instruction)
    requires Has(s, p, SpellInstruction(i))
    ensures
      var q, e := p + 2 + |i.lead|, TagEndIn(p, i);
      && Has(s, p, "<?") && Has(s, p + 2, i.lead) && Has(s, q, i.name) && Has(s, q + |i.name|, SpellTag(i.ws))
      && Has(s, e - |i.tail|, i.tail) && Has(s, e, i.close) && p + |SpellInstruction(i)| == e + |i.close|
  {
    hide Has, SpellTag;
    var q := p + 2 + |i.lead|;
    var r := q + |i.name|;
    HasParts(s, p, "<?", i.lead + (i.name + (SpellTag(i.ws) + (i.tail + i.close))));
    HasParts(s, p + 2, i.lead, i.name + (SpellTag(i.ws) + (i.tail + i.close)));
    HasParts(s, q, i.name, SpellTag(i.ws) + (i.tail + i.close));
    HasParts(s, r, SpellTag(i.ws), i.tail + i.close);
    HasParts(s, r + |SpellTag(i.ws)|, i.tail, i.close);
  }

  /** The attributes stand behind the name, and the end of the tag behind them. */
  lemma InstructionTag(s: string, p: nat, i: Instruction)
    requires Has(s, p, SpellInstruction(i)) && GoodInstruction(i)
    ensures
      var e := TagEndIn(p, i);
      && TagAt(s, p + 2 + |i.lead| + |i.name|, i.ws, e)
      && p + |SpellInstruction(i)| == e + |i.close| <= |s| && (s[e] == '>' <==> i.close == ">")
  {
    hide Has, SpellInstruction, SpellTag, GoodTag, IsWord, Spaces;
    InstructionParts(s, p, i);
    var e := TagEndIn(p, i);
    SpacesBlank(s, e - |i.tail|, i.tail);
    HasFits(s, e, i.close);
    HasAt(s, e, i.close, 0);
    if i.close == "/>" {
      HasAt(s, e, i.close, 1);
    }
  }

  lemma InstructionTokens(s: string, p: nat, i: Instruction)
    requires Has(s, p, SpellInstruction(i)) && GoodInstruction(i)
    ensures
      var q, n := p + 2 + |i.lead|, |i.name|;
      && NextToken(s, p) == Token(Declaration, p, 2, p + 2, 0) && p + 2 <= |s|
      && NextToken(s, p + 2) == WordToken(s, q, n) && q + n <= |s| && s[q..q + n] == i.name && n >= 1
      && q + n <= WordToken(s, q, n).next <= |s|
      && Blank(s, WordToken(s, q, n).next, Lead(i.ws, q + n, TagEndIn(p, i)))
  {
    hide Has, TokenAt, TagAt, SpellInstruction, IsWord, GoodTag;
    var q, n, e := p + 2 + |i.lead|, |i.name|, TagEndIn(p, i);
    InstructionParts(s, p, i);
    InstructionTag(s, p, i);
    TagFollows(s, q + n, i.ws, e);
    TagLeads(s, q + n, i.ws, e, true);
    SpacesBlank(s, p + 2, i.lead);
    WordIsToken(s, q, i.name);
    TokenBehind(s, p + 2, q);
    HasFits(s, q, i.name);
    BlankMeets(s, q + n, WordToken(s, q, n).next, Lead(i.ws, q + n, e));
    InstructionToken(s, p);
  }

  lemma InstructionToken(s: string, p: nat)
    requires Has(s, p, "<?")
    ensures NextToken(s, p) == Token(Declaration, p, 2, p + 2, 0) && p + 2 <= |s|
  {
    HasAt(s, p, "<?", 0);
    HasAt(s, p, "<?", 1);
    NoOpening(s, p);
    SkipBlank(s, p, p);
  }

  /** A declaration is read: it is complete, or open like an element behind its start tag. */
  lemma InstructionOpens(s: string, p: nat, i: Instruction, x: Cursor, d0: Node, d: Node, depth: nat)
    requires Has(s, p, SpellInstruction(i)) && GoodInstruction(i) && Good(s, x) && x.index == p
    requires MaybeAddText(s, x, d0, p) == Outcome(true, x.(text := None), d)
    ensures
      var q := p + |SpellInstruction(i)|;
      var x' := x.(index := q, text := Some(q));
      && p + 2 < q <= |s| && Good(s, x')
      && var r := if EndsItself(i, depth + 1) then Outcome(true, x', Declared(i))
                  else Parse(s, x', Declared(i), depth + 1, Outside);
         Parse(s, x, d0, depth, Outside) == AfterChild(s, r, d, depth, p + 2)
  {
    hide Parse, Has, MaybeAddText, NextToken, SpellInstruction, AfterChild, TagAt, IsWord, GoodTag;
    hide TagAttributes, Asks;
    InstructionTokens(s, p, i);
    InstructionTag(s, p, i);
    ParseOpens(s, x, d0, depth, NextToken(s, p));
    MaybeAnywhere(s, x, d0, p, p + 2, d);
    var x1 := x.(index := p + 2);
    ParseChildStages(s, x1, d0, depth, NextToken(s, p), true, Outcome(true, x1.(text := None), d));
    var q, e := p + 2 + |i.lead|, TagEndIn(p, i);
    var y := x1.(text := None, index := NextToken(s, p + 2).next);
    var node := Node(Some(i.name), true, [], []);
    ReadNames(s, q + |i.name|, i.ws, e, true, y, node, depth + 1);
    AfterDeclared(s, y, i, depth + 1, e);
  }

  lemma AfterDeclared(s: string, y: Cursor, i: Instruction, depth: nat, e: nat)
    requires TagEndsAt(s, e) && GoodTag(i.ws, true) && (i.close == ">" || i.close == "/>")
    requires s[e] == '>' <==> i.close == ">"
    ensures
      var q := e + |i.close|;
      var x := y.(index := q, text := Some(q));
      AfterTag(s, y, Node(Some(i.name), true, [], []), i.ws, true, depth, e) ==
        if EndsItself(i, depth) then Outcome(true, x, Declared(i)) else Parse(s, x, Declared(i), depth, Outside)
  {
    hide Parse, TagAttributes, Asks;
    assert [] + TagAttributes(true, i.ws, true) == TagAttributes(true, i.ws, true);
  }

  lemma DeclaredIs(i: Instruction)
    requires GoodInstruction(i)
    ensures Declared(i).name == Some(i.name) && Declared(i).isDeclaration && Declared(i).content == Merged([])
  {
  }

  /** The contents of the head when an outermost declaration is read. */
  function DeclaredContents(front: seq<Item>, i: Instruction, items: seq<Item>): seq<Content>
    requires GoodItems(front) && GoodInstruction(i) && GoodItems(items)
  {
    if EndsItself(i, 1) then Merged(RawOf(front) + [ChildNode(Declared(i))] + RawOf(items))
    else Merged(RawOf(front)) + [ChildNode(Declared(i).(content := Merged(RawOf(items))))]
  }

  /** An outermost declaration holds all that follows it; one that is closed like an element does not. */
  lemma ReadDeclared(front: seq<Item>, i: Instruction, items: seq<Item>)
    requires GoodItems(front) && GoodInstruction(i) && GoodItems(items)
    ensures ParseString(SpellItems(front) + (SpellInstruction(i) + SpellItems(items)))
      == Judged(DeclaredContents(front, i, items), NoError)
  {
    hide Parse, Has, MaybeAddText, SpellItems, SpellInstruction, GoodItems, GoodTag, RawOf, Merged, Judged;
    hide Declared, AfterChild, ParseString, HEAD, IsWord, Spaces;
    var s := SpellItems(front) + (SpellInstruction(i) + SpellItems(items));
    HasAll(s);
    HasParts(s, 0, SpellItems(front), SpellInstruction(i) + SpellItems(items));
    var p := |SpellItems(front)|;
    HasParts(s, p, SpellInstruction(i), SpellItems(items));
    InstructionStarts(s, p, i);
    HeadIs();
    var y, d0 := ContentsPass(s, 0, front, BEGIN, HEAD, 0, []);
    assert [] + RawOf(front) == RawOf(front);
    var d := HEAD.(content := Merged(RawOf(front)));
    InstructionOpens(s, p, i, y, d0, d, 0);
    var q := p + |SpellInstruction(i)|;
    var x := BEGIN.(index := q, text := Some(q));
    if EndsItself(i, 1) {
      var all := ClosedPasses(s, q, i, items, x, RawOf(front), d, 0, p + 2);
      TextEnds(s, all.x, all.d, d.(content := DeclaredContents(front, i, items)), 0);
    } else {
      DeclaredHolds(s, q, i, items, x, d, p + 2);
    }
    TopIs(s, Parse(s, BEGIN, HEAD, 0, Outside), DeclaredContents(front, i, items));
  }

  lemma DeclaredHolds(s: string, q: nat, i: Instruction, items: seq<Item>, x: Cursor, d: Node, from: nat)
    requires GoodInstruction(i) && GoodItems(items) && Has(s, q, SpellItems(items)) && q + |SpellItems(items)| == |s|
    requires x == BEGIN.(index := q, text := Some(q)) && from < q
    ensures
      var r := AfterChild(s, Parse(s, x, Declared(i), 1, Outside), d, 0, from);
      r.d == AddChild(d, Declared(i).(content := Merged(RawOf(items)))) && r.x.error == NoError
  {
    hide Parse, Has, MaybeAddText, SpellItems, GoodItems, RawOf, Merged, Declared, AfterChild;
    DeclaredIs(i);
    var z, c0 := ContentsPass(s, q, items, x, Declared(i), 1, []);
    assert [] + RawOf(items) == RawOf(items);
    TextEnds(s, z, c0, Declared(i).(content := Merged(RawOf(items))), 1);
    NotMore(s, Parse(s, x, Declared(i), 1, Outside), d, 0, from);
  }

  lemma InstructionStarts(s: string, p: nat, i: Instruction)
    requires Has(s, p, SpellInstruction(i))
    ensures p < |s| && s[p] == '<'
  {
    HasAt(s, p, SpellInstruction(i), 0);
  }

  lemma NotMore(s: string, r: Outcome, d: Node, depth: nat, from: nat)
    requires Good(s, r.x) && r.x.index > from && from <= |s| && !r.more
    ensures AfterChild(s, r, d, depth, from) == Outcome(false, r.x, AddChild(d, r.d))
  {
  }

  /** Behind a complete declaration the contents go on. */
  lemma ClosedPasses(s: string, q: nat, i: Instruction, items: seq<Item>, x: Cursor, done: seq<Content>, d: Node,
                     depth: nat, from: nat) returns (all: Outcome)
    requires GoodInstruction(i) && GoodItems(items) && Has(s, q, SpellItems(items))
    requires q + |SpellItems(items)| < |s| ==> s[q + |SpellItems(items)|] == '<'
    requires Good(s, x) && x.index == q && x.text == Some(q) && x.endLen == 0 && from < q && from <= |s|
    requires d.content == Merged(done)
    ensures
      var e := q + |SpellItems(items)|;
      && e <= |s| && Good(s, all.x) && all.x.text.Some? && all.x == x.(index := e, text := all.x.text)
      && MaybeAddText(s, all.x, all.d, e) == Outcome(true, all.x.(text := None),
           d.(content := Merged(done + [ChildNode(Declared(i))] + RawOf(items))))
      && all.d.isDeclaration == d.isDeclaration
      && AfterChild(s, Outcome(true, x, Declared(i)), d, depth, from) == Parse(s, all.x, all.d, depth, Outside)
  {
    hide Parse, Has, MaybeAddText, SpellItems, GoodItems, RawOf, Merged, Declared, AfterChild;
    ChildIsAdded(s, Outcome(true, x, Declared(i)), d, depth, from);
    MarkupMerges(done, ChildNode(Declared(i)));
    var done' := done + [ChildNode(Declared(i))];
    var y, d0 := ContentsPass(s, q, items, x, d.(content := Merged(done')), depth, done');
    all := Outcome(true, y, d0);
  }

  // ---------- Instructions within an element ----------

  /** An element that holds an instruction among its contents. */
  function SpellHolder(start: Start, front: seq<Item>, i: Instruction, after: seq<Item>, b: Ending): string {
    SpellStart(start, ">") + SpellHeld(front, i, after, b)
  }

  function SpellHeld(front: seq<Item>, i: Instruction, after: seq<Item>, b: Ending): string {
    SpellItems(front) + (SpellInstruction(i) + (SpellItems(after) + SpellEnd(b)))
  }

  predicate GoodHolder(start: Start, front: seq<Item>, i: Instruction, after: seq<Item>, b: Ending) {
    && GoodStart(start, ">") && GoodItems(front) && GoodInstruction(i) && GoodItems(after)
    && GoodEnding(b, start.name)
  }

  /** The contents of the element: an instruction that does not end itself holds all that follows. */
  function HolderContents(front: seq<Item>, i: Instruction, after: seq<Item>): seq<Content>
    requires GoodItems(front) && GoodInstruction(i) && GoodItems(after)
  {
    if EndsItself(i, 2) then Merged(RawOf(front) + [ChildNode(Declared(i))] + RawOf(after))
    else Merged(RawOf(front)) + [ChildNode(Declared(i).(content := Merged(RawOf(after))))]
  }

  lemma HeldParts(s: string, p: nat, front: seq<Item>, i: Instruction, after: seq<Item>, b: Ending)
    requires Has(s, p, SpellHeld(front, i, after, b))
    ensures
      var q := p + |SpellItems(front)|;
      var r := q + |SpellInstruction(i)|;
      var e := r + |SpellItems(after)|;
      && Has(s, p, SpellItems(front)) && Has(s, q, SpellInstruction(i)) && q < |s| && s[q] == '<'
      && Has(s, r, SpellItems(after) + SpellEnd(b)) && Has(s, r, SpellItems(after)) && Has(s, e, SpellEnd(b))
      && e < |s| && s[e] == '<' && p + |SpellHeld(front, i, after, b)| == e + |SpellEnd(b)| <= |s|
  {
    hide Has, SpellItems, SpellInstruction, SpellEnd;
    HasFits(s, p, SpellHeld(front, i, after, b));
    var q := p + |SpellItems(front)|;
    var r := q + |SpellInstruction(i)|;
    HasParts(s, p, SpellItems(front), SpellInstruction(i) + (SpellItems(after) + SpellEnd(b)));
    HasParts(s, q, SpellInstruction(i), SpellItems(after) + SpellEnd(b));
    HasParts(s, r, SpellItems(after), SpellEnd(b));
    InstructionStarts(s, q, i);
    EndParts(s, r + |SpellItems(after)|, b);
    HasAt(s, r + |SpellItems(after)|, "</", 0);
  }

  /** From the contents of the element on. */
  lemma HeldIsRead(s: string, p: nat, start: Start, front: seq<Item>, i: Instruction, after: seq<Item>, b: Ending,
                   x: Cursor, depth: nat)
    requires Has(s, p, SpellHeld(front, i, after, b)) && GoodHolder(start, front, i, after, b) && depth >= 1
    requires EndsItself(i, 2) || !Closes(b.name, i.name)
    requires Good(s, x) && x.index == p && x.text == Some(p) && x.endLen == 0 && x.error == NoError
    ensures
      var r, e := Parse(s, x, Named(start), depth, Outside), p + |SpellHeld(front, i, after, b)|;
      && r.more && r.x.index == e <= |s| && r.x.text == Some(e) && r.x.endLen == 0
      && r.x.error == (if EndsItself(i, 2) then NoError else MissingEndTag)
      && r.d == Named(start).(content := HolderContents(front, i, after))
  {
    hide Parse, Has, MaybeAddText, SpellItems, SpellInstruction, SpellEnd, SpellHeld, GoodItems, GoodTag;
    hide RawOf, Declared, Asks, Named, AfterChild, IsWord, Spaces, Closes, Merged, Readable;
    HeldParts(s, p, front, i, after, b);
    NamedIs(start);
    var q := p + |SpellItems(front)|;
    var r := q + |SpellInstruction(i)|;
    var y, d0 := ContentsPass(s, p, front, x, Named(start), depth, []);
    assert [] + RawOf(front) == RawOf(front);
    var d := Named(start).(content := Merged(RawOf(front)));
    InstructionOpens(s, q, i, y, d0, d, depth);
    var x' := x.(index := r, text := Some(r));
    if EndsItself(i, 2) {
      var all := ClosedPasses(s, r, i, after, x', RawOf(front), d, depth, q + 2);
      EndIsRead(s, r + |SpellItems(after)|, b, start.name, all.x, all.d,
                d.(content := HolderContents(front, i, after)), depth);
    } else {
      OpenIsHeld(s, r, start, i, after, b, x', d, depth, q + 2);
    }
  }

  /** An open instruction ends at the end tag of the element around it. */
  lemma OpenIsHeld(s: string, p: nat, start: Start, i: Instruction, after: seq<Item>, b: Ending, x: Cursor, d: Node,
                   depth: nat, from: nat)
    requires Has(s, p, SpellItems(after) + SpellEnd(b)) && GoodInstruction(i) && GoodItems(after)
    requires GoodStart(start, ">") && GoodEnding(b, start.name) && !Closes(b.name, i.name)
    requires d.name == Some(start.name)
    requires Good(s, x) && x.index == p && x.text == Some(p) && x.endLen == 0 && from < p
    ensures
      var r := AfterChild(s, Parse(s, x, Declared(i), depth + 1, Outside), d, depth, from);
      var e := p + |SpellItems(after) + SpellEnd(b)|;
      && r.more && r.x.index == e && r.x.text == Some(e) && r.x.endLen == 0 && r.x.error == MissingEndTag
      && r.d == AddChild(d, Declared(i).(content := Merged(RawOf(after))))
  {
    hide Parse, Has, SpellItems, SpellEnd, GoodItems, GoodTag, RawOf, Merged, SameTag, Closes, IsWord;
    hide Declared, Asks, Spaces;
    HasFits(s, p, SpellItems(after) + SpellEnd(b));
    HasParts(s, p, SpellItems(after), SpellEnd(b));
    var q := p + |SpellItems(after)|;
    NameIsWord(start.name);
    EndSame(s, q, b, start.name);
    EndSame(s, q, b, i.name);
    DeclaredIs(i);
    WordIsLong(b);
    WrongEndIsRead(s, p, after, b, x, Declared(i), depth + 1);
  }

  /**
   An instruction within an element: it is one of its contents exactly if a question mark ends its last word or a slash
   its tag; otherwise it takes in what follows, and a missing end tag is reported.
   */
  lemma InstructionInside(start: Start, front: seq<Item>, i: Instruction, after: seq<Item>, b: Ending)
    requires GoodHolder(start, front, i, after, b) && (EndsItself(i, 2) || !Closes(b.name, i.name))
    ensures ParseString(SpellHolder(start, front, i, after, b))
      == Result(Some(Named(start).(content := HolderContents(front, i, after))),
                if EndsItself(i, 2) then NoError else MissingEndTag)
  {
    hide Parse, Has, MaybeAddText, SpellStart, SpellHeld, GoodItems, GoodTag, HolderContents, HEAD;
    hide Asks, Named, AfterChild, IsWord, Spaces, Closes, ParseString;
    var s := SpellHolder(start, front, i, after, b);
    HasAll(s);
    HasParts(s, 0, SpellStart(start, ">"), SpellHeld(front, i, after, b));
    HeadIs();
    MaybeBlank(s, BEGIN, HEAD, 0);
    StartOpens(s, 0, start, ">", BEGIN, HEAD, HEAD, 0);
    var p := |SpellStart(start, ">")|;
    var x := BEGIN.(index := p, text := Some(p));
    HeldIsRead(s, p, start, front, i, after, b, x, 1);
    var r := Parse(s, x, Named(start), 1, Outside);
    ChildIsAdded(s, r, HEAD, 0, 1);
    var d := HEAD.(content := HEAD.content + [ChildNode(r.d)]);
    OneElementEnds(s, r.x, r.d, d);
    TopIs(s, Parse(s, BEGIN, HEAD, 0, Outside), [ChildNode(r.d)]);
  }

  /** The head with one element, at the end of the text. */
  lemma OneElementEnds(s: string, x: Cursor, node: Node, d: Node)
    requires Good(s, x) && x.index == |s| && x.text == Some(|s|)
    requires d == HEAD.(content := HEAD.content + [ChildNode(node)])
    ensures Parse(s, x, d, 0, Outside) == Outcome(false, x.(text := None), HEAD.(content := [ChildNode(node)]))
    ensures x.error == NoError || x.error == MissingEndTag ==>
      Judged([ChildNode(node)], x.error) == Result(Some(node), x.error)
  {
    hide Parse, MaybeAddText;
    assert d.content == [ChildNode(node)];
    MaybeBlank(s, x, d, |s|);
    TextEnds(s, x, d, d, 0);
    assert [ChildNode(node)][0].ChildNode?;
  }

  // ---------- Declarations as they are rendered ----------

  /** An attribute as the renderer writes it. */
  function WrittenOf(a: Attribute): Written {
    Written(" ", a.name, if a.value.None? then None else Some(Given("", "", Some('\"'), Escape(a.value.value))))
  }

  function AllWritten(attributes: seq<Attribute>): seq<Written> {
    if attributes == [] then []
    else AllWritten(attributes[..|attributes| - 1]) + [WrittenOf(attributes[|attributes| - 1])]
  }

  /** With the question mark of the declaration, which becomes the end of the last word. */
  function Asking(attributes: seq<Attribute>): seq<Written>
    requires attributes != []
  {
    var n := |attributes| - 1;
    var a := attributes[n];
    if a.value.Some? then AllWritten(attributes) + [Written("", "?", None)]
    else AllWritten(attributes[..n]) + [Written(" ", a.name + "?", None)]
  }

  lemma {:induction false} SpellMore(ws: seq<Written>, w: Written)
    ensures SpellTag(ws + [w]) == SpellTag(ws) + SpellWritten(w)
  {
    hide SpellWritten;
    if ws == [] {
      assert [w][1..] == [];
    } else {
      assert (ws + [w])[1..] == ws[1..] + [w];
      SpellMore(ws[1..], w);
    }
  }

  lemma {:induction false} GoodMore(ws: seq<Written>, w: Written, needsBlank: bool)
    requires GoodTag(ws, needsBlank) && GoodWritten(w) && (w.blank == "" ==> !NeedsBlank(ws, needsBlank))
    ensures GoodTag(ws + [w], needsBlank)
    ensures AttributesOf(true, ws + [w], needsBlank) == AttributesOf(true, ws, needsBlank) + [AttributeOf(true, w)]
    ensures NeedsBlank(ws + [w], needsBlank) == !EndsInQuote(w)
  {
    hide GoodWritten, EndsInQuote, AttributeOf;
    if ws == [] {
      assert [w][1..] == [];
    } else {
      assert (ws + [w])[1..] == ws[1..] + [w];
      GoodMore(ws[1..], w, !EndsInQuote(ws[0]));
    }
  }

  lemma WrittenIsGood(a: Attribute)
    requires NormalAttribute(a)
    ensures GoodWritten(WrittenOf(a)) && AttributeOf(true, WrittenOf(a)) == a && a.name != ""
    ensures EndsInQuote(WrittenOf(a)) <==> a.value.Some?
    ensures SpellWritten(WrittenOf(a)) == " " + RenderAttribute(a)
  {
    hide Escape, Decode, IsWord, IsName, Quotable, SpellWritten, RenderAttribute;
    NameIsWord(a.name);
    NameIsThere(a.name);
    if a.value.Some? {
      DecodeEscape(a.value.value);
      EscapeQuotable(a.value.value);
    }
    WrittenSpelled(a);
  }

  lemma NameIsThere(name: string)
    requires IsName(name)
    ensures name != ""
  {
  }

  lemma EscapeQuotable(v: string)
    requires '\0' !in v
    ensures Quotable('\"', Escape(v))
  {
    hide Escape;
    EscapePlain(v);
  }

  lemma WrittenSpelled(a: Attribute)
    ensures SpellWritten(WrittenOf(a)) == " " + RenderAttribute(a)
  {
    hide Escape, RenderAttribute;
    AttributeIs(a);
    if a.value.Some? {
      var e := Escape(a.value.value);
      assert ['\"'] + e + ['\"'] == "\"" + e + "\"";
      assert "" + ("=" + ("" + ("\"" + e + "\""))) == "=" + ("\"" + e + "\"");
    }
  }

  /** The attributes of a rendered tag. */
  lemma {:induction false} AllWrittenIs(attributes: seq<Attribute>)
    requires NormalAttributes(attributes)
    ensures
      var ws := AllWritten(attributes);
      && GoodTag(ws, true) && SpellTag(ws) == RenderAttributes(attributes) && AttributesOf(true, ws, true) == attributes
      && (NeedsBlank(ws, true) <==> attributes == [] || attributes[|attributes| - 1].value.None?)
    decreases |attributes|
  {
    hide GoodWritten, EndsInQuote, AttributeOf, SpellWritten, RenderAttribute, NormalAttribute, WrittenOf;
    if attributes != [] {
      var n := |attributes| - 1;
      var front, w := AllWritten(attributes[..n]), WrittenOf(attributes[n]);
      AllWrittenIs(attributes[..n]);
      WrittenIsGood(attributes[n]);
      WrittenBlank(attributes[n]);
      GoodMore(front, w, true);
      SpellMore(front, w);
      LastAttribute(attributes);
    }
  }

  lemma WrittenBlank(a: Attribute)
    ensures WrittenOf(a).blank == " "
  {
  }

  lemma AskingIs(attributes: seq<Attribute>)
    requires NormalAttributes(attributes) && attributes != []
    ensures
      var ws := Asking(attributes);
      && GoodTag(ws, true) && Asks(ws) && SpellTag(ws) == RenderAttributes(attributes) + "?"
      && TagAttributes(true, ws, true) == attributes
  {
    hide GoodWritten, EndsInQuote, SpellWritten, RenderAttribute, NormalAttribute, GoodTag, AttributesOf, SpellTag;
    hide RenderAttributes, NeedsBlank;
    var n := |attributes| - 1;
    var a := attributes[n];
    AllWrittenIs(attributes);
    if a.value.Some? {
      LoneMark();
      GoodMore(AllWritten(attributes), Written("", "?", None), true);
      SpellMore(AllWritten(attributes), Written("", "?", None));
      assert attributes + [] == attributes;
    } else {
      AllWrittenIs(attributes[..n]);
      LastAttribute(attributes);
      MarkedName(a);
      var w := Written(" ", a.name + "?", None);
      GoodMore(AllWritten(attributes[..n]), w, true);
      SpellMore(AllWritten(attributes[..n]), w);
      assert w.name[..|w.name| - 1] == a.name;
      assert attributes == attributes[..n] + [a];
    }
  }

  lemma LoneMark()
    ensures GoodWritten(Written("", "?", None)) && SpellWritten(Written("", "?", None)) == "?"
  {
  }

  lemma MarkedName(a: Attribute)
    requires NormalAttribute(a) && a.value.None?
    ensures GoodWritten(Written(" ", a.name + "?", None)) && a.name != ""
    ensures SpellWritten(Written(" ", a.name + "?", None)) == " " + RenderAttribute(a) + "?"
  {
    NameIsWord(a.name);
    MarkedWord(a.name);
  }

  lemma MarkedWord(name: string)
    requires IsWord(name)
    ensures IsWord(name + "?")
  {
  }

  /** A rendered declaration as it is read: without attributes the question mark goes to its name. */
  function Rendered(name: string, attributes: seq<Attribute>): Instruction {
    if attributes == [] then Instruction("", name + "?", [], "", ">")
    else Instruction("", name, Asking(attributes), "", ">")
  }

  lemma RenderedIs(name: string, attributes: seq<Attribute>)
    requires IsName(name) && NormalAttributes(attributes)
    ensures
      var i := Rendered(name, attributes);
      && GoodInstruction(i) && SpellInstruction(i) == "<?" + name + RenderAttributes(attributes) + "?>"
      && !EndsItself(i, 1)
      && Declared(i) == Node(Some(if attributes == [] then name + "?" else name), true, attributes, [])
  {
    hide IsWord, RenderAttributes, NormalAttribute, Asking, TagAttributes;
    NameIsWord(name);
    if attributes == [] {
      MarkedWord(name);
      NoAttributes();
      NothingDeclared();
    } else {
      AskingIs(attributes);
    }
  }

  lemma NothingDeclared()
    ensures GoodTag([], true) && TagAttributes(true, [], true) == [] && SpellTag([]) == ""
  {
  }

  /**
   Parsing undoes the rendering of a document with a declaration exactly if the declaration has attributes: without any,
   the question mark that ends it is read as part of its name.
   */
  lemma DeclarationRoundTrip(name: string, attributes: seq<Attribute>, t: Node, f: int)
    requires f >= -1 && IsName(name) && NormalAttributes(attributes) && Regular(t) && NoPre(t)
    ensures ParseString(Render(Node(Some(name), true, attributes, [ChildNode(t)]), f))
      == Result(Some(Node(Some(if attributes == [] then name + "?" else name), true, attributes, [ChildNode(t)])),
                NoError)
  {
    hide Parse, Render, Regular, NoPre, NormalAttributes, SpellInstruction, HEAD, ParseString;
    hide GoodTag, IsWord, Spaces, Rendered, Declared, EndsItself, IsName, Judged;
    var i := Rendered(name, attributes);
    RenderedIs(name, attributes);
    DeclarationRendered(name, attributes, t, f);
    var s := Tabs(f) + (SpellInstruction(i) + (NewLine(f) + Render(t, f)));
    DeclaredIs(i);
    DeclarationParsed(s, i, t, f);
    var node := AddChild(Declared(i), t);
    assert Declared(i).content + [ChildNode(t)] == [ChildNode(t)] by {
      NoItems();
    }
    TopIs(s, Parse(s, BEGIN, HEAD, 0, Outside), [ChildNode(node)]);
    OneIsTop(node);
  }

  /** Blanks, a declaration and an element. */
  lemma DeclarationParsed(s: string, i: Instruction, t: Node, f: int)
    requires s == Tabs(f) + (SpellInstruction(i) + (NewLine(f) + Render(t, f)))
    requires f >= -1 && GoodInstruction(i) && !EndsItself(i, 1) && Regular(t) && NoPre(t)
    ensures
      var r := Parse(s, BEGIN, HEAD, 0, Outside);
      r.d == HEAD.(content := [ChildNode(AddChild(Declared(i), t))]) && r.x.error == NoError
  {
    hide Parse, Has, MaybeAddText, Render, Regular, NoPre, SpellInstruction, HEAD, Tabs, NewLine;
    hide Declared, AfterChild, Blank, GoodTag, IsWord, Spaces;
    var p, q := |Tabs(f)|, |Tabs(f)| + |SpellInstruction(i)|;
    var e := q + |NewLine(f)|;
    RenderedDocument(s, SpellInstruction(i), t, f);
    InstructionStarts(s, p, i);
    ReadOverBlank(s, BEGIN, HEAD, 0, p);
    HeadIs();
    InstructionOpens(s, p, i, BEGIN.(index := p), HEAD, HEAD, 0);
    DeclaredIs(i);
    var x := BEGIN.(index := q, text := Some(q));
    var x' := ElementAdded(s, t, f, e, x, Declared(i), 1);
    DeclaredEnds(s, x', AddChild(Declared(i), t), p + 2);
    var node := AddChild(Declared(i), t);
    assert HEAD.content + [ChildNode(node)] == [ChildNode(node)] by {
      NoItems();
    }
  }

  lemma RenderedDocument(s: string, o: string, t: Node, f: int)
    requires s == Tabs(f) + (o + (NewLine(f) + Render(t, f)))
    ensures
      var p, q, e := |Tabs(f)|, |Tabs(f)| + |o|, |Tabs(f)| + |o| + |NewLine(f)|;
      && Has(s, p, o) && Has(s, e, Render(t, f)) && Blank(s, 0, p) && Blank(s, q, e)
      && e + |Render(t, f)| == |s|
  {
    hide Has, Render, NewLine;
    var p, q := |Tabs(f)|, |Tabs(f)| + |o|;
    HasAll(s);
    HasParts(s, 0, Tabs(f), o + (NewLine(f) + Render(t, f)));
    HasParts(s, p, o, NewLine(f) + Render(t, f));
    HasParts(s, q, NewLine(f), Render(t, f));
    TabsBlank(s, 0, f);
    NewLineBlank(s, q, f);
  }

  lemma OneIsTop(node: Node)
    ensures Judged([ChildNode(node)], NoError) == Result(Some(node), NoError)
  {
    assert [ChildNode(node)][0].ChildNode?;
  }

  lemma ReadOverBlank(s: string, x: Cursor, d: Node, depth: nat, p: nat)
    requires Good(s, x) && x.text == Some(x.index) && Blank(s, x.index, p) && p < |s| && s[p] == '<'
    ensures Parse(s, x, d, depth, Outside) == Parse(s, x.(index := p), d, depth, Outside)
    ensures MaybeAddText(s, x.(index := p), d, p) == Outcome(true, x.(index := p, text := None), d)
  {
    hide Parse, MaybeAddText;
    ReadOver(s, x, d, depth, p);
    MaybeBlank(s, x.(index := p), d, p);
  }

  /** The end of the text behind the element of a declaration. */
  lemma DeclaredEnds(s: string, x: Cursor, d: Node, from: nat)
    requires Good(s, x) && x.text == Some(x.index) && Blank(s, x.index, |s|) && d.isDeclaration && from < x.index
    ensures
      var r := AfterChild(s, Parse(s, x, d, 1, Outside), HEAD, 0, from);
      r.d == AddChild(HEAD, d) && r.x.error == x.error
  {
    hide Parse, MaybeAddText, AfterChild;
    ReadOver(s, x, d, 1, |s|);
    MaybeBlank(s, x.(index := |s|), d, |s|);
    TextEnds(s, x.(index := |s|), d, d, 1);
    NotMore(s, Parse(s, x, d, 1, Outside), HEAD, 0, from);
  }

  lemma DeclarationRendered(name: string, attributes: seq<Attribute>, t: Node, f: int)
    requires IsName(name) && NormalAttributes(attributes)
    ensures Render(Node(Some(name), true, attributes, [ChildNode(t)]), f)
      == Tabs(f) + (SpellInstruction(Rendered(name, attributes)) + (NewLine(f) + Render(t, f)))
  {
    hide RenderAttributes, NormalAttributes, Rendered, SpellInstruction, Tabs, NewLine, Render, RenderOpen, IsName;
    RenderedIs(name, attributes);
    NameIsThere(name);
    DeclarationIs(Node(Some(name), true, attributes, [ChildNode(t)]), t, f);
    DeclarationOpens(Node(Some(name), true, attributes, [ChildNode(t)]), f);
    Inward(Tabs(f), SpellInstruction(Rendered(name, attributes)), NewLine(f), Render(t, f));
  }

  lemma Inward(a: string, b: string, c: string, d: string)
    ensures a + (b + c) + d == a + (b + (c + d))
  {
  }

  lemma DeclarationIs(decl: Node, t: Node, f: int)
    requires decl.isDeclaration && decl.content == [ChildNode(t)]
    ensures Render(decl, f) == RenderOpen(decl, f) + Render(t, f)
  {
    hide Render, RenderOpen, RenderContents;
    RenderIs(decl, f);
    OneChildRendered(t, f);
  }

  lemma DeclarationOpens(decl: Node, f: int)
    requires decl.isDeclaration && decl.name.Some? && decl.name.value != ""
    ensures RenderOpen(decl, f)
      == Tabs(f) + ("<?" + decl.name.value + RenderAttributes(decl.attributes) + "?>" + NewLine(f))
  {
    hide RenderAttributes, Tabs, NewLine;
  }

  lemma OneChildRendered(t: Node, f: int)
    ensures RenderContents([ChildNode(t)], f, f) == Render(t, f)
  {
    assert [ChildNode(t)][..0] == [];
    NoContents(f, f);
  }
}
