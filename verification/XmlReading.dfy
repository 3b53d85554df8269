/**
 What the parser makes of a document as others write it: values in either quote or bare, blanks around names and equals
 signs, end tags in any case, comments within a text, short end tags. A document is given by how it is spelled, and
 parseString reads the tree that this means.
 */
module XmlReading {

  import opened Options
  import opened XmlText
  import opened XmlReferences
  import opened XmlTokens
  import opened XmlPrinter
  import opened XmlParser
  import opened XmlRoundTrip

  // ---------- Words and quotations ----------

  /** The blanks of section 2.3 of XML 1.0. */
  predicate White(c: char) {
    c == ' ' || c == '\t' || c == '\r' || c == '\n'
  }

  predicate Spaces(w: string) {
    forall j :: 0 <= j < |w| ==> White(w[j])
  }

  predicate WordChar(c: char) {
    !White(c) && c != '\0' && c != '<' && c != '>' && c != '=' && c != '/'
  }

  /** A word is one token; quotes and slashes may only stand inside it. */
  predicate IsWord(w: string) {
    && w != "" && w[0] != '\'' && w[0] != '\"' && w[|w| - 1] != '/'
    && forall j :: 0 <= j < |w| ==> WordChar(w[j]) || w[j] == '/'
  }

  /** In quotes of either kind stand any characters but that quote and the start of a tag. */
  predicate Quotable(quote: char, w: string) {
    && (quote == '\'' || quote == '\"')
    && forall j :: 0 <= j < |w| ==> w[j] != quote && w[j] != '<' && w[j] != '\0'
  }

  lemma SpacesBlank(s: string, p: nat, w: string)
    requires Has(s, p, w) && Spaces(w)
    ensures Blank(s, p, p + |w|)
  {
    forall j | p <= j < p + |w| ensures IsSpace(s[j]) {
      HasAt(s, p, w, j - p);
    }
  }

  /** The token behind blanks is the one at their end. */
  lemma TokenBehind(s: string, j: nat, q: nat)
    requires Blank(s, j, q) && q < |s| && !IsSpace(s[q])
    ensures NextToken(s, j) == TokenAt(s, q)
  {
    SkipBlank(s, j, q);
  }

  /** What ends a word. */
  predicate WordEnds(s: string, i: nat) {
    i <= |s| && (i < |s| && s[i] != '<' ==> NameEnds(s, i))
  }

  lemma {:induction false} WordStops(s: string, i: nat, e: nat)
    requires i <= e && WordEnds(s, e) && (i < e ==> s[e - 1] != '/')
    requires forall j :: i <= j < e ==> WordChar(s[j]) || s[j] == '/'
    ensures TextStop(s, i) == e
    decreases e - i
  {
    if i < e {
      WordStops(s, i + 1, e);
    }
  }

  function WordToken(s: string, p: nat, n: nat): Token {
    Token(TextToken, p, n, if IsSpace(At(s, p + n)) then p + n + 1 else p + n, 0)
  }

  /** A word is read as a whole; a space behind it is read over. */
  lemma WordIsToken(s: string, p: nat, w: string)
    requires IsWord(w) && Has(s, p, w) && WordEnds(s, p + |w|)
    ensures TokenAt(s, p) == WordToken(s, p, |w|) && s[p..p + |w|] == w && !IsSpace(s[p])
  {
    forall j | p <= j < p + |w| ensures s[j] == w[j - p] {
      HasAt(s, p, w, j - p);
    }
    WordStops(s, p + 1, p + |w|);
    NoClearTag(s, p);
  }

  lemma {:induction false} QuotationEnds(s: string, i: nat, e: nat, quote: char)
    requires i <= e < |s| && s[e] == quote != '\0'
    requires forall j :: i <= j < e ==> s[j] != quote && s[j] != '<' && s[j] != '\0'
    ensures QuoteEnd(s, i, quote) == Some(e + 1)
    decreases e - i
  {
    if i < e {
      QuotationEnds(s, i + 1, e, quote);
    }
  }

  /** A quotation is one token, in quotes of either kind, whatever stands behind it. */
  lemma QuotationIsToken(s: string, p: nat, quote: char, w: string)
    requires Quotable(quote, w) && Has(s, p, [quote] + w + [quote])
    ensures TokenAt(s, p) == Token(QuotedText, p, |w| + 2, p + |w| + 2, 0)
    ensures p + |w| + 2 <= |s| && s[p + 1..p + |w| + 1] == w && !IsSpace(s[p])
  {
    HasParts(s, p, [quote] + w, [quote]);
    HasParts(s, p, [quote], w);
    HasAt(s, p, [quote], 0);
    HasAt(s, p + 1 + |w|, [quote], 0);
    forall j | p + 1 <= j < p + 1 + |w| ensures s[j] != quote && s[j] != '<' && s[j] != '\0' {
      HasAt(s, p + 1, w, j - p - 1);
    }
    QuotationEnds(s, p + 1, p + 1 + |w|, quote);
    NoClearTag(s, p);
  }

  // ---------- Attributes as they are written ----------

  /** A value with the blanks around the equals sign, in quotes of some kind or bare. */
  datatype Given = Given(before: string, after: string, quote: Option<char>, text: string)

  datatype Written = Written(blank: string, name: string, value: Option<Given>)

  predicate GoodGiven(v: Given) {
    && Spaces(v.before) && Spaces(v.after) && Decode(v.text).Text?
    && (v.quote.None? ==> IsWord(v.text)) && (v.quote.Some? ==> Quotable(v.quote.value, v.text))
  }

  predicate GoodWritten(a: Written) {
    Spaces(a.blank) && IsWord(a.name) && (a.value.Some? ==> GoodGiven(a.value.value))
  }

  predicate EndsInQuote(a: Written) {
    a.value.Some? && a.value.value.quote.Some?
  }

  /** Blanks stand between two attributes, but behind a quote they need not. */
  predicate GoodTag(ws: seq<Written>, needsBlank: bool) {
    ws == [] ||
    (GoodWritten(ws[0]) && (needsBlank ==> ws[0].blank != "") && GoodTag(ws[1..], !EndsInQuote(ws[0])))
  }

  function Quoted(quote: Option<char>, text: string): string {
    if quote.Some? then [quote.value] + text + [quote.value] else text
  }

  function SpellGiven(v: Given): string {
    v.before + ("=" + (v.after + Quoted(v.quote, v.text)))
  }

  function SpellWritten(a: Written): string {
    a.blank + (a.name + if a.value.Some? then SpellGiven(a.value.value) else "")
  }

  function SpellTag(ws: seq<Written>): string {
    if ws == [] then "" else SpellWritten(ws[0]) + SpellTag(ws[1..])
  }

  /** In a declaration a bare value ends in front of a question mark at its end. */
  predicate Marked(isDeclaration: bool, v: Given) {
    isDeclaration && v.quote.None? && v.text != "" && v.text[|v.text| - 1] == '?'
  }

  /** The text that the characters of a value stand for, without that question mark. */
  function ValueText(isDeclaration: bool, v: Given): string
    requires Decode(v.text).Text?
  {
    var w := Decode(v.text).s;
    if Marked(isDeclaration, v) && w != "" then w[..|w| - 1] else w
  }

  /** The attribute that is meant. */
  function AttributeOf(isDeclaration: bool, a: Written): Attribute
    requires GoodWritten(a)
  {
    Attribute(a.name, if a.value.Some? then Some(ValueText(isDeclaration, a.value.value)) else None)
  }

  function AttributesOf(isDeclaration: bool, ws: seq<Written>, needsBlank: bool): (r: seq<Attribute>)
    requires GoodTag(ws, needsBlank)
    ensures |r| == |ws|
  {
    if ws == [] then []
    else [AttributeOf(isDeclaration, ws[0])] + AttributesOf(isDeclaration, ws[1..], !EndsInQuote(ws[0]))
  }

  /** A question mark at the end of the last name asks for the end of a declaration. */
  predicate Asks(ws: seq<Written>) {
    ws != [] && ws[|ws| - 1].value.None? && ws[|ws| - 1].name != ""
    && ws[|ws| - 1].name[|ws[|ws| - 1].name| - 1] == '?'
  }

  /** In a declaration that question mark is no part of the name, and alone it is no name. */
  function TagAttributes(isDeclaration: bool, ws: seq<Written>, needsBlank: bool): seq<Attribute>
    requires GoodTag(ws, needsBlank)
  {
    var all := AttributesOf(isDeclaration, ws, needsBlank);
    if isDeclaration && Asks(ws) then
      var name := ws[|ws| - 1].name;
      all[..|all| - 1] + if |name| == 1 then [] else [Attribute(name[..|name| - 1], None)]
    else all
  }

  /** Blanks and the end of the tag at `e`. */
  predicate Tail(s: string, p: nat, e: nat) {
    Blank(s, p, e) && TagEndsAt(s, e)
  }

  function Lead(ws: seq<Written>, p: nat, e: nat): nat {
    if ws == [] then e else p + |ws[0].blank|
  }

  /** The attributes stand at `p`, and the tag ends at `e`. */
  predicate TagAt(s: string, p: nat, ws: seq<Written>, e: nat) {
    Has(s, p, SpellTag(ws)) && Tail(s, p + |SpellTag(ws)|, e)
  }

  function SpellValue(a: Written): string {
    if a.value.Some? then SpellGiven(a.value.value) else ""
  }

  lemma SpellTagIs(ws: seq<Written>)
    requires ws != []
    ensures SpellTag(ws) == ws[0].blank + (ws[0].name + SpellValue(ws[0])) + SpellTag(ws[1..])
  {
    hide SpellGiven;
  }

  lemma WrittenParts(s: string, p: nat, ws: seq<Written>, e: nat)
    requires TagAt(s, p, ws, e) && ws != []
    ensures
      var a, q := ws[0], p + |ws[0].blank|;
      && Has(s, p, a.blank) && Has(s, q, a.name) && Has(s, q + |a.name|, SpellValue(a))
      && TagAt(s, q + |a.name| + |SpellValue(a)|, ws[1..], e)
      && Lead(ws, p, e) == q
  {
    hide Has, SpellTag, SpellValue, Tail;
    var a := ws[0];
    SpellTagIs(ws);
    HasParts(s, p, a.blank + (a.name + SpellValue(a)), SpellTag(ws[1..]));
    HasParts(s, p, a.blank, a.name + SpellValue(a));
    HasParts(s, p + |a.blank|, a.name, SpellValue(a));
  }

  lemma GoodFirst(ws: seq<Written>, needsBlank: bool)
    requires GoodTag(ws, needsBlank) && ws != []
    ensures Spaces(ws[0].blank) && IsWord(ws[0].name) && (needsBlank ==> ws[0].blank != "")
    ensures GoodTag(ws[1..], !EndsInQuote(ws[0])) && (ws[0].value.Some? ==> GoodGiven(ws[0].value.value))
    ensures ws[0].name != "" && !IsSpace(ws[0].name[0])
  {
    hide GoodGiven, GoodTag;
    GoodUnfolds(ws, needsBlank);
    assert WordChar(ws[0].name[0]) || ws[0].name[0] == '/';
  }

  lemma GoodUnfolds(ws: seq<Written>, needsBlank: bool)
    requires GoodTag(ws, needsBlank) && ws != []
    ensures GoodWritten(ws[0]) && (needsBlank ==> ws[0].blank != "") && GoodTag(ws[1..], !EndsInQuote(ws[0]))
  {
    hide GoodWritten;
  }

  lemma NoTagLeft(s: string, p: nat, e: nat)
    requires TagAt(s, p, [], e)
    ensures Blank(s, p, e) && TagEndsAt(s, e) && e < |s| && !IsSpace(s[e]) && NameEnds(s, p)
  {
  }

  /** What follows a word that stands at the end of what was read. */
  lemma TagFollows(s: string, p: nat, ws: seq<Written>, e: nat)
    requires TagAt(s, p, ws, e) && GoodTag(ws, true)
    ensures NameEnds(s, p) && Blank(s, p, Lead(ws, p, e))
  {
    hide Has, TagAt, GoodTag, IsWord, GoodGiven;
    if ws == [] {
      NoTagLeft(s, p, e);
    } else {
      WrittenParts(s, p, ws, e);
      GoodFirst(ws, true);
      SpacesBlank(s, p, ws[0].blank);
      HasAt(s, p, ws[0].blank, 0);
    }
  }

  lemma TagLeads(s: string, p: nat, ws: seq<Written>, e: nat, needsBlank: bool)
    requires TagAt(s, p, ws, e) && GoodTag(ws, needsBlank)
    ensures Blank(s, p, Lead(ws, p, e)) && Lead(ws, p, e) < |s| && !IsSpace(s[Lead(ws, p, e)])
    ensures ws == [] ==> TagEndsAt(s, e)
  {
    hide Has, TagAt, GoodTag, IsWord, GoodGiven, TagEndsAt;
    if ws == [] {
      NoTagLeft(s, p, e);
    } else {
      WrittenParts(s, p, ws, e);
      GoodFirst(ws, needsBlank);
      SpacesBlank(s, p, ws[0].blank);
      HasAt(s, p + |ws[0].blank|, ws[0].name, 0);
    }
  }

  /** What follows the name of an attribute. */
  lemma ValueFollows(s: string, p: nat, ws: seq<Written>, e: nat, needsBlank: bool)
    requires TagAt(s, p, ws, e) && GoodTag(ws, needsBlank) && ws != []
    ensures NameEnds(s, Lead(ws, p, e) + |ws[0].name|)
  {
    hide Has, NameEnds, TagAt, GoodTag, GoodGiven, IsWord;
    WrittenParts(s, p, ws, e);
    GoodFirst(ws, needsBlank);
    GivenBlank(ws[0]);
    var a := ws[0];
    var q := Lead(ws, p, e) + |a.name|;
    if a.value.Some? {
      GivenFollows(s, q, a.value.value);
    } else {
      TagFollows(s, q, ws[1..], e);
    }
  }

  lemma GivenBlank(a: Written)
    requires a.value.Some? ==> GoodGiven(a.value.value)
    ensures a.value.Some? ==> Spaces(a.value.value.before)
  {
  }

  lemma GivenFollows(s: string, p: nat, v: Given)
    requires Has(s, p, SpellGiven(v)) && Spaces(v.before)
    ensures NameEnds(s, p)
  {
    HasAt(s, p, SpellGiven(v), 0);
    assert v.before != "" ==> SpellGiven(v)[0] == v.before[0];
    assert v.before == "" ==> SpellGiven(v)[0] == '=';
  }

  lemma EndsToo(s: string, e: nat)
    ensures NameEnds(s, e) ==> WordEnds(s, e)
  {
  }

  /** The name of the first attribute is the next token. */
  lemma NameIsRead(s: string, p: nat, ws: seq<Written>, e: nat, needsBlank: bool, j: nat)
    requires TagAt(s, p, ws, e) && GoodTag(ws, needsBlank) && ws != [] && Blank(s, j, Lead(ws, p, e))
    ensures
      var q, n := Lead(ws, p, e), |ws[0].name|;
      && q + n <= |s| && s[q..q + n] == ws[0].name && n >= 1 && NextToken(s, j) == WordToken(s, q, n)
      && (n < |s| ==> WordToken(s, q, n).next <= |s|) && Blank(s, q + n, WordToken(s, q, n).next)
  {
    hide Has, TagAt, SpellTag, TokenAt, GoodTag, GoodGiven, IsWord, Spaces, SpellValue, SpellGiven;
    WrittenParts(s, p, ws, e);
    GoodFirst(ws, needsBlank);
    EndsToo(s, Lead(ws, p, e) + |ws[0].name|);
    ValueFollows(s, p, ws, e, needsBlank);
    WordIsToken(s, Lead(ws, p, e), ws[0].name);
    TokenBehind(s, j, Lead(ws, p, e));
    HasFits(s, Lead(ws, p, e), ws[0].name);
  }

  lemma HasFits(s: string, p: nat, w: string)
    requires Has(s, p, w)
    ensures p + |w| <= |s| && s[p..p + |w|] == w
  {
  }

  // ---------- Attributes as they are read ----------

  /** A value of either kind. */
  lemma StepAnyValue(s: string, x: Cursor, d: Node, depth: nat, start: nat, len: nat)
    requires Good(s, x) && start + len <= |s| && len >= 1
    requires NextToken(s, x.index).kind == TextToken || NextToken(s, x.index).kind == QuotedText
    requires Decode(AttributeText(s, d, NextToken(s, x.index))).Text?
    ensures
      var t := NextToken(s, x.index);
      Parse(s, x, d, depth, AttribValue(start, len)) ==
      Parse(s, x.(index := t.next),
        AddAttribute(d, s[start..start + len], Some(Decode(AttributeText(s, d, t)).s)), depth, AttribName)
  {
    hide TokenAt, SkipSpaces, MaybeAddText, ParseChild, CloseTagBehind, ParseEndTag, ParseClear, Decode, AttributeText;
  }

  /** The token of a value. */
  predicate ValueToken(s: string, t: Token, v: Given) {
    && t.start + t.len <= |s| && t.len >= 1 && t.next <= |s|
    && (if v.quote.Some? then t.kind == QuotedText && t.len >= 2 && s[t.start + 1..t.start + t.len - 1] == v.text
        else t.kind == TextToken && s[t.start..t.start + t.len] == v.text)
  }

  lemma ValueOfToken(s: string, d: Node, t: Token, v: Given)
    requires ValueToken(s, t, v) && Decode(v.text).Text?
    ensures Decode(AttributeText(s, d, t)) == Text(ValueText(d.isDeclaration, v))
  {
    hide Decode;
    if Marked(d.isDeclaration, v) {
      MarkedText(s, t, v);
      DecodeMore(v.text[..|v.text| - 1], '?');
    } else if v.quote.None? {
      assert s[t.start + t.len - 1] == s[t.start..t.start + t.len][t.len - 1];
    }
  }

  lemma MarkedText(s: string, t: Token, v: Given)
    requires ValueToken(s, t, v) && v.quote.None? && v.text[|v.text| - 1] == '?'
    ensures
      var w := v.text[..|v.text| - 1];
      s[t.start + t.len - 1] == '?' && s[t.start..t.start + t.len - 1] == w && v.text == w + ['?']
  {
    assert s[t.start + t.len - 1] == s[t.start..t.start + t.len][t.len - 1];
    assert s[t.start..t.start + t.len][..t.len - 1] == s[t.start..t.start + t.len - 1];
  }

  lemma GivenParts(s: string, p: nat, v: Given)
    requires Has(s, p, SpellGiven(v))
    ensures
      var q := p + |v.before|;
      && Has(s, p, v.before) && Has(s, q, "=") && Has(s, q + 1, v.after)
      && Has(s, q + 1 + |v.after|, Quoted(v.quote, v.text))
      && p + |SpellGiven(v)| == q + 1 + |v.after| + |Quoted(v.quote, v.text)|
  {
    hide Has;
    var w, q := Quoted(v.quote, v.text), p + |v.before|;
    HasParts(s, p, v.before, "=" + (v.after + w));
    HasParts(s, q, "=", v.after + w);
    HasParts(s, q + 1, v.after, w);
  }

  /** The equals sign and the value, with the blanks around them. */
  lemma GivenIsRead(s: string, p: nat, v: Given, j: nat)
    requires Has(s, p, SpellGiven(v)) && GoodGiven(v) && p <= j <= p + |v.before|
    requires v.quote.None? ==> WordEnds(s, p + |SpellGiven(v)|)
    ensures
      var t, e := NextToken(s, j), p + |SpellGiven(v)|;
      var u := NextToken(s, t.next);
      && t.kind == Equals && t.next <= |s| && ValueToken(s, u, v)
      && e <= u.next && Blank(s, e, u.next) && (v.quote.Some? ==> u.next == e)
  {
    hide Has, SpellGiven, NextToken, ValueToken, Decode, Quotable;
    GivenParts(s, p, v);
    EqualsIsRead(s, p, v.before, j);
    ValueIsRead(s, p + |v.before| + 1, v);
  }

  lemma EqualsIsRead(s: string, p: nat, before: string, j: nat)
    requires Has(s, p, before) && Spaces(before) && Has(s, p + |before|, "=") && p <= j <= p + |before|
    ensures NextToken(s, j) == Token(Equals, p + |before|, 1, p + |before| + 1, 0)
    ensures p + |before| + 1 <= |s|
  {
    var q := p + |before|;
    SpacesBlank(s, p, before);
    HasAt(s, q, "=", 0);
    NoClearTag(s, q);
    TokenBehind(s, j, q);
  }

  lemma ValueIsRead(s: string, p: nat, v: Given)
    requires GoodGiven(v) && Has(s, p, v.after) && Has(s, p + |v.after|, Quoted(v.quote, v.text))
    requires v.quote.None? ==> WordEnds(s, p + |v.after| + |Quoted(v.quote, v.text)|)
    ensures
      var u, e := NextToken(s, p), p + |v.after| + |Quoted(v.quote, v.text)|;
      && ValueToken(s, u, v) && e <= u.next && Blank(s, e, u.next) && (v.quote.Some? ==> u.next == e)
  {
    hide Decode, TokenAt, Has, Quotable, IsWord, Spaces, WordEnds;
    var q := p + |v.after|;
    SpacesBlank(s, p, v.after);
    HasFits(s, q, Quoted(v.quote, v.text));
    if v.quote.Some? {
      QuotationIsToken(s, q, v.quote.value, v.text);
    } else {
      WordIsToken(s, q, v.text);
    }
    TokenBehind(s, p, q);
  }

  /** From the name of an attribute on: its value, and the place behind it. */
  lemma ReadValue(s: string, p: nat, v: Given, x: Cursor, d: Node, depth: nat, start: nat, len: nat) returns (j: nat)
    requires Has(s, p, SpellGiven(v)) && GoodGiven(v) && p <= x.index <= p + |v.before| && Good(s, x)
    requires v.quote.None? ==> WordEnds(s, p + |SpellGiven(v)|)
    requires start + len <= |s| && len >= 1
    ensures
      var e := p + |SpellGiven(v)|;
      e <= j && Blank(s, e, j) && (v.quote.Some? ==> j == e) && x.index <= j <= |s|
    ensures Parse(s, x, d, depth, AttribEquals(start, len)) ==
      Parse(s, x.(index := j), AddAttribute(d, s[start..start + len], Some(ValueText(d.isDeclaration, v))), depth,
            AttribName)
  {
    hide Has, SpellGiven, NextToken, Parse, Decode, Spaces, Quotable, NameEnds, AttributeText, ValueToken, ValueText;
    GivenIsRead(s, p, v, x.index);
    var t := NextToken(s, x.index);
    var u := NextToken(s, t.next);
    TokenFits(s, u, v);
    ValueOfToken(s, d, u, v);
    StepEquals(s, x, d, depth, start, len);
    StepAnyValue(s, x.(index := t.next), d, depth, start, len);
    j := u.next;
  }

  lemma TokenFits(s: string, t: Token, v: Given)
    requires ValueToken(s, t, v)
    ensures t.next <= |s| && (t.kind == TextToken || t.kind == QuotedText)
    ensures t.start + t.len <= |s| && t.len >= 1 && (t.kind == QuotedText ==> t.len >= 2)
  {
  }

  /** The parse of `d` from the end of its tag on: a declaration that asks for its end has it, but for the outermost. */
  function AfterTag(s: string, x: Cursor, d: Node, ws: seq<Written>, needsBlank: bool, depth: nat, e: nat): Outcome
    requires TagEndsAt(s, e) && GoodTag(ws, needsBlank)
  {
    var d' := Attributed(d, TagAttributes(d.isDeclaration, ws, needsBlank));
    if d.isDeclaration && Asks(ws) && depth >= 2 && s[e] == '>' then
      Outcome(true, x.(index := e + 1, text := Some(e + 1)), d')
    else FromTagEnd(s, x, d', depth, e)
  }

  lemma AfterNothing(s: string, x: Cursor, d: Node, needsBlank: bool, depth: nat, e: nat)
    requires TagEndsAt(s, e)
    ensures AfterTag(s, x, d, [], needsBlank, depth, e) == FromTagEnd(s, x, d, depth, e)
  {
    hide FromTagEnd;
    assert d.attributes + [] == d.attributes;
  }

  lemma AfterAnywhere(s: string, x: Cursor, j: nat, d: Node, ws: seq<Written>, needsBlank: bool, depth: nat, e: nat)
    requires TagEndsAt(s, e) && GoodTag(ws, needsBlank)
    ensures AfterTag(s, x.(index := j), d, ws, needsBlank, depth, e) == AfterTag(s, x, d, ws, needsBlank, depth, e)
  {
    hide FromTagEnd, TagAttributes, Asks;
    FromAnywhere(s, x, j, Attributed(d, TagAttributes(d.isDeclaration, ws, needsBlank)), depth, e);
  }

  /** The first attribute may be added to the element first, unless it is the last name. */
  lemma AfterFirst(s: string, x: Cursor, d: Node, ws: seq<Written>, needsBlank: bool, depth: nat, e: nat)
    requires TagEndsAt(s, e) && GoodTag(ws, needsBlank) && ws != [] && (|ws| > 1 || ws[0].value.Some?)
    ensures
      var b := AttributeOf(d.isDeclaration, ws[0]);
      AfterTag(s, x, AddAttribute(d, b.name, b.value), ws[1..], !EndsInQuote(ws[0]), depth, e)
      == AfterTag(s, x, d, ws, needsBlank, depth, e)
  {
    hide FromTagEnd, GoodWritten, EndsInQuote, TagAttributes, Asks;
    var b := AttributeOf(d.isDeclaration, ws[0]);
    AskedFirst(d.isDeclaration, ws, needsBlank);
    var rest := TagAttributes(d.isDeclaration, ws[1..], !EndsInQuote(ws[0]));
    assert d.attributes + [b] + rest == d.attributes + ([b] + rest);
  }

  lemma AskedFirst(isDeclaration: bool, ws: seq<Written>, needsBlank: bool)
    requires GoodTag(ws, needsBlank) && ws != [] && (|ws| > 1 || ws[0].value.Some?)
    ensures Asks(ws[1..]) == Asks(ws)
    ensures TagAttributes(isDeclaration, ws, needsBlank)
      == [AttributeOf(isDeclaration, ws[0])] + TagAttributes(isDeclaration, ws[1..], !EndsInQuote(ws[0]))
  {
    hide GoodWritten, EndsInQuote, AttributeOf;
    if |ws| > 1 {
      assert ws[|ws| - 1] == ws[1..][|ws[1..]| - 1];
      var all := AttributesOf(isDeclaration, ws, needsBlank);
      var first, rest := AttributeOf(isDeclaration, ws[0]), AttributesOf(isDeclaration, ws[1..], !EndsInQuote(ws[0]));
      assert all == [first] + rest && all[..|all| - 1] == [first] + rest[..|rest| - 1];
    }
  }

  /** What CloseAttribute makes of a last name. */
  lemma LastName(s: string, d: Node, depth: nat, start: nat, len: nat, kind: Kind, a: Written, needsBlank: bool)
    requires start + len <= |s| && len >= 1 && s[start..start + len] == a.name && a.value.None?
    requires GoodTag([a], needsBlank)
    ensures CloseAttribute(s, d, depth, start, len, kind) ==
      (Attributed(d, TagAttributes(d.isDeclaration, [a], needsBlank)),
       kind == ShortHandClose || (d.isDeclaration && Asks([a]) && depth >= 2))
  {
    assert [a][1..] == [] && a.name[len - 1] == s[start + len - 1];
    assert a.name[..len - 1] == s[start..start + (len - 1)];
    var all := AttributesOf(d.isDeclaration, [a], needsBlank);
    assert all == [Attribute(a.name, None)];
    if d.isDeclaration && Asks([a]) {
      var shorter := [Attribute(a.name[..len - 1], None)];
      assert all[..0] + shorter == shorter && all[..0] + [] == [];
      assert d.attributes + [] == d.attributes;
    }
  }

  /** The end of the tag behind a last name. */
  lemma StepAfterName(s: string, x: Cursor, d: Node, depth: nat, e: nat, start: nat, len: nat, a: Written,
                      needsBlank: bool)
    requires Good(s, x) && TagEndsAt(s, e) && NextToken(s, x.index) == TokenAt(s, e)
    requires start + len <= |s| && len >= 1 && s[start..start + len] == a.name && a.value.None?
    requires GoodTag([a], needsBlank)
    ensures Parse(s, x, d, depth, AttribEquals(start, len)) == AfterTag(s, x, d, [a], needsBlank, depth, e)
  {
    hide Parse, TokenAt, NextToken, CloseAttribute, TagAttributes, Asks, Attributed, GoodTag;
    EndToken(s, e);
    StepEndBehind(s, x, d, depth, start, len);
    LastName(s, d, depth, start, len, TokenAt(s, e).kind, a, needsBlank);
  }

  // A name is looked for, a name was read, a name without value is pending.

  lemma {:induction false} ReadNames(s: string, p: nat, ws: seq<Written>, e: nat, needsBlank: bool,
                                     x: Cursor, d: Node, depth: nat)
    requires TagAt(s, p, ws, e) && GoodTag(ws, needsBlank) && Good(s, x)
    requires Blank(s, x.index, Lead(ws, p, e))
    ensures TagEndsAt(s, e) && Parse(s, x, d, depth, AttribName) == AfterTag(s, x, d, ws, needsBlank, depth, e)
    decreases |ws|, 1
  {
    hide Parse, FromTagEnd, TagAt, NextToken, TokenAt, GoodWritten, AfterTag;
    TagLeads(s, p, ws, e, needsBlank);
    TagIsOver(s, p, ws, e);
    if ws == [] {
      TokenBehind(s, x.index, e);
      StepTagEnd(s, x, d, depth, e);
      AfterNothing(s, x, d, needsBlank, depth, e);
    } else {
      NameIsRead(s, p, ws, e, needsBlank, x.index);
      var t := NextToken(s, x.index);
      StepName(s, x, d, depth);
      ReadNamed(s, p, ws, e, needsBlank, x.(index := t.next), d, depth);
      AfterAnywhere(s, x, t.next, d, ws, needsBlank, depth, e);
    }
  }

  lemma TagIsOver(s: string, p: nat, ws: seq<Written>, e: nat)
    requires TagAt(s, p, ws, e)
    ensures TagEndsAt(s, e)
  {
  }

  lemma {:induction false} ReadNamed(s: string, p: nat, ws: seq<Written>, e: nat, needsBlank: bool,
                                     x: Cursor, d: Node, depth: nat)
    requires TagAt(s, p, ws, e) && GoodTag(ws, needsBlank) && Good(s, x) && ws != []
    requires x.index == WordToken(s, Lead(ws, p, e), |ws[0].name|).next
    ensures
      var q, n := Lead(ws, p, e), |ws[0].name|;
      && q + n <= |s| && n >= 1 && TagEndsAt(s, e)
      && Parse(s, x, d, depth, AttribEquals(q, n)) == AfterTag(s, x, d, ws, needsBlank, depth, e)
    decreases |ws|, 0
  {
    hide Parse, FromTagEnd, TagAt, NextToken, TokenAt, Has, NameEnds, SpellGiven, AfterTag;
    var a, q, n, rest := ws[0], Lead(ws, p, e), |ws[0].name|, ws[1..];
    TagIsOver(s, p, ws, e);
    TagLeads(s, p, ws, e, needsBlank);
    NameIsRead(s, p, ws, e, needsBlank, q);
    WrittenParts(s, p, ws, e);
    if a.value.None? {
      TagLeads(s, q + n, rest, e, true);
      ReadPending(s, q + n, ws, e, needsBlank, x, d, depth, q, n);
    } else {
      var v := a.value.value;
      var p' := q + n + |SpellGiven(v)|;
      ValueEnds(s, p', rest, e, v);
      WordNext(s, q, n, v);
      var j := ReadValue(s, q + n, v, x, d, depth, q, n);
      TagLeads(s, p', rest, e, !EndsInQuote(a));
      BlankMeets(s, p', j, Lead(rest, p', e));
      var d' := AddAttribute(d, a.name, Some(ValueText(d.isDeclaration, v)));
      ReadNames(s, p', rest, e, !EndsInQuote(a), x.(index := j), d', depth);
      AfterFirst(s, x, d, ws, needsBlank, depth, e);
      AfterAnywhere(s, x, j, d', rest, !EndsInQuote(a), depth, e);
    }
  }

  /** The first name of `ws` was read and has no value; the others stand at `p`. */
  lemma {:induction false} ReadPending(s: string, p: nat, ws: seq<Written>, e: nat, needsBlank: bool,
                                       x: Cursor, d: Node, depth: nat, start: nat, len: nat)
    requires ws != [] && TagAt(s, p, ws[1..], e) && GoodTag(ws, needsBlank) && ws[0].value.None? && Good(s, x)
    requires Blank(s, x.index, Lead(ws[1..], p, e))
    requires start + len <= |s| && len >= 1 && s[start..start + len] == ws[0].name
    ensures TagEndsAt(s, e)
    ensures Parse(s, x, d, depth, AttribEquals(start, len)) == AfterTag(s, x, d, ws, needsBlank, depth, e)
    decreases |ws|, 0, 0
  {
    hide Parse, FromTagEnd, TagAt, NextToken, TokenAt, GoodWritten, AfterTag;
    var a, rest := ws[0], ws[1..];
    var d' := AddAttribute(d, a.name, None);
    TagLeads(s, p, rest, e, true);
    TagIsOver(s, p, rest, e);
    if rest == [] {
      assert ws == [a];
      TokenBehind(s, x.index, e);
      StepAfterName(s, x, d, depth, e, start, len, a, needsBlank);
    } else {
      NameIsRead(s, p, rest, e, true, x.index);
      var t := NextToken(s, x.index);
      StepUnvalued(s, x, d, depth, start, len);
      ReadNamed(s, p, rest, e, true, x.(index := t.next), d', depth);
      AfterFirst(s, x, d, ws, needsBlank, depth, e);
      AfterAnywhere(s, x, t.next, d', rest, true, depth, e);
    }
  }

  /** A bare value ends in front of what follows. */
  lemma ValueEnds(s: string, p: nat, rest: seq<Written>, e: nat, v: Given)
    requires TagAt(s, p, rest, e) && GoodTag(rest, v.quote.None?)
    ensures v.quote.None? ==> WordEnds(s, p)
  {
    if v.quote.None? {
      TagFollows(s, p, rest, e);
    }
  }

  /** A space behind a word that was read over belongs to the blanks in front of the equals sign. */
  lemma WordNext(s: string, q: nat, n: nat, v: Given)
    requires Has(s, q + n, SpellGiven(v))
    ensures q + n <= WordToken(s, q, n).next <= q + n + |v.before|
  {
    HasAt(s, q + n, SpellGiven(v), 0);
    assert v.before == "" ==> SpellGiven(v)[0] == '=';
  }

  lemma BlankMeets(s: string, p: nat, j: nat, q: nat)
    requires Blank(s, p, j) && Blank(s, p, q) && (q < |s| ==> !IsSpace(s[q]))
    ensures Blank(s, j, q)
  {
  }

  // ---------- Elements as they are written ----------

  /** Between two tags stand blanks, a text with blanks around it, a child, or something marked by a clear tag. */
  datatype Item =
    | Blanks(w: string)
    | Chars(before: string, core: string, after: string)
    | Child(element: Element)
    | Marked(k: nat, value: string, close: string)

  /** A start tag with its blanks and attributes. */
  datatype Start = Start(lead: string, name: string, ws: seq<Written>, tail: string)

  /** An end tag with the blanks around its name. */
  datatype Ending = Ending(before: string, name: string, after: string)

  /** An element that is closed at once, or has contents and an end tag. */
  datatype Element = Short(start: Start) | Full(start: Start, items: seq<Item>, ending: Ending)

  /** CDATA sections, document types, comments and preformatted texts. */
  function OpenOf(k: nat): string {
    if k == 0 then "<![CDATA[" else if k == 1 then "<!DOCTYPE" else if k == 2 then "<!--" else "<PRE>"
  }

  /** They go up to the first closing string; a document type with a bracket inside ends differently. */
  predicate GoodMark(k: nat, value: string, close: string) {
    && k < 4 && '\0' !in value
    && (k == 0 ==> close == "]]>" && !Contains(value, close))
    && (k == 2 ==> close == "-->" && !Contains(value, close))
    && (k == 3 ==> close == "</PRE>" && !Contains(value, close))
    && (k == 1 ==>
          || ('<' !in value && '>' !in value && close == ">")
          || (close == "]>" && !Contains(value, close)
              && exists i :: 0 <= i < |value| && value[i] == '<' && '<' !in value[..i] && '>' !in value[..i]))
  }

  lemma MarkCloses(k: nat, value: string, close: string)
    requires GoodMark(k, value, close)
    ensures k < |CLEAR_TAGS| && OpenOf(k) == CLEAR_TAGS[k].open && ClosesOnce(k, value, close)
  {
    if k == 1 {
      if '<' !in value && '>' !in value {
        NoBracket(value, 0);
      } else {
        var i :| 0 <= i < |value| && value[i] == '<' && '<' !in value[..i] && '>' !in value[..i];
        FirstBracket(value, 0, i);
      }
    }
  }

  lemma {:induction false} NoBracket(s: string, i: nat)
    requires '<' !in s && '>' !in s && '\0' !in s && i <= |s|
    ensures FindBracket(s, i).None?
    decreases |s| - i
  {
    if i < |s| {
      assert s[i] in s;
      NoBracket(s, i + 1);
    }
  }

  lemma {:induction false} FirstBracket(s: string, i: nat, e: nat)
    requires i <= e < |s| && s[e] == '<' && '<' !in s[..e] && '>' !in s[..e] && '\0' !in s
    ensures FindBracket(s, i) == Some(e)
    decreases e - i
  {
    assert s[i] in s;
    if i < e {
      assert s[..e][i] in s[..e];
      FirstBracket(s, i + 1, e);
    }
  }

  predicate IsText(i: Item) {
    i.Blanks? || i.Chars?
  }

  function SpellEnd(b: Ending): string {
    "</" + (b.before + (b.name + (b.after + ">")))
  }

  function SpellStart(t: Start, close: string): string {
    "<" + (t.lead + (t.name + (SpellTag(t.ws) + (t.tail + close))))
  }

  function SpellItem(i: Item): string {
    match i
    case Blanks(w) => w
    case Chars(before, core, after) => before + (core + after)
    case Child(e) => SpellElement(e)
    case Marked(k, value, close) => OpenOf(k) + value + close
  }

  function SpellItems(items: seq<Item>): string {
    if items == [] then "" else SpellItem(items[0]) + SpellItems(items[1..])
  }

  function SpellElement(e: Element): string {
    match e
    case Short(start) => SpellStart(start, "/>")
    case Full(start, items, ending) => SpellStart(start, ">") + (SpellItems(items) + SpellEnd(ending))
  }

  predicate SameName(a: string, b: string) {
    |a| == |b| && forall j :: 0 <= j < |a| ==> SameLetter(a[j], b[j])
  }

  /** The name `w` in an end tag closes an element if it is its name, in any case, as a whole or up to a slash. */
  predicate Closes(w: string, name: string) {
    |name| <= |w| && SameName(w[..|name|], name) && (|name| < |w| ==> w[|name|] == '/')
  }

  predicate Readable(w: string) {
    && w != "" && !White(w[0]) && !White(w[|w| - 1]) && Decode(w).Text?
    && forall j :: 0 <= j < |w| ==> w[j] != '<' && w[j] != '\0'
  }

  predicate GoodItem(i: Item) {
    match i
    case Blanks(w) => Spaces(w)
    case Chars(before, core, after) => Spaces(before) && Spaces(after) && Readable(core)
    case Child(e) => GoodElement(e)
    case Marked(k, value, close) => GoodMark(k, value, close)
  }

  predicate GoodItems(items: seq<Item>) {
    items == [] ||
    (GoodItem(items[0]) && GoodItems(items[1..]) && !(|items| > 1 && IsText(items[0]) && IsText(items[1])))
  }

  /** With an angle bracket behind it, the start tag must not be the clear tag "<PRE>". */
  predicate GoodStart(t: Start, close: string) {
    && Spaces(t.lead) && IsName(t.name) && GoodTag(t.ws, true) && Spaces(t.tail)
    && (close == "/>" || (close == ">" && (t.name == "PRE" ==> t.lead != "" || t.ws != [] || t.tail != "")))
  }

  predicate GoodEnding(b: Ending, name: string) {
    Spaces(b.before) && Spaces(b.after) && IsWord(b.name) && Closes(b.name, name)
  }

  predicate GoodElement(e: Element) {
    match e
    case Short(start) => GoodStart(start, "/>")
    case Full(start, items, ending) => GoodStart(start, ">") && GoodItems(items) && GoodEnding(ending, start.name)
  }

  // ---------- What they mean ----------

  /** The contents as they stand there, with all comments. */
  function RawOf(items: seq<Item>): seq<Content>
    requires GoodItems(items)
  {
    if items == [] then [] else ContentOf(items[0]) + RawOf(items[1..])
  }

  function ContentOf(i: Item): seq<Content>
    requires GoodItem(i)
  {
    match i
    case Blanks(_) => []
    case Chars(_, core, _) => [TextNode(Decode(core).s)]
    case Child(e) => [ChildNode(NodeOf(e))]
    case Marked(k, value, close) => [ClearNode(OpenOf(k), value, close)]
  }

  predicate IsRemark(c: Content) {
    c.ClearNode? && c.open == "<!--"
  }

  /** A comment between two texts is dropped, and the second text joined to the first one. */
  function Merged(cs: seq<Content>): seq<Content>
    decreases |cs|
  {
    if cs == [] then []
    else if |cs| >= 3 && cs[0].TextNode? && IsRemark(cs[1]) && cs[2].TextNode? then
      Merged([TextNode(cs[0].text + cs[2].text)] + cs[3..])
    else [cs[0]] + Merged(cs[1..])
  }

  /** The element of a start tag, without contents. */
  function Named(t: Start): Node
    requires GoodTag(t.ws, true)
  {
    Node(Some(t.name), false, AttributesOf(false, t.ws, true), [])
  }

  function NodeOf(e: Element): Node
    requires GoodElement(e)
  {
    match e
    case Short(start) => Named(start)
    case Full(start, items, _) => Named(start).(content := Merged(RawOf(items)))
  }

  /** A comment stands between the first two texts. */
  predicate Joins(cs: seq<Content>) {
    |cs| >= 3 && cs[0].TextNode? && IsRemark(cs[1]) && cs[2].TextNode?
  }

  lemma MergedIs(cs: seq<Content>)
    ensures cs == [] ==> Merged(cs) == []
    ensures Joins(cs) ==> Merged(cs) == Merged([TextNode(cs[0].text + cs[2].text)] + cs[3..])
    ensures cs != [] && !Joins(cs) ==> Merged(cs) == [cs[0]] + Merged(cs[1..])
  {
  }

  lemma {:induction false} MergedMore(cs: seq<Content>, c: Content)
    ensures
      var m := Merged(cs);
      Merged(cs + [c]) ==
        if c.TextNode? && |m| >= 2 && IsRemark(m[|m| - 1]) && m[|m| - 2].TextNode?
        then m[..|m| - 2] + [TextNode(m[|m| - 2].text + c.text)]
        else m + [c]
    decreases |cs|
  {
    hide Merged;
    MergedIs(cs);
    MergedIs(cs + [c]);
    if cs == [] {
      MergedOne(c);
      assert cs + [c] == [c];
    } else if Joins(cs) {
      var first := [TextNode(cs[0].text + cs[2].text)];
      assert first + (cs + [c])[3..] == first + cs[3..] + [c];
      MergedMore(first + cs[3..], c);
    } else if |cs| == 2 {
      MergedTwo(cs, c);
    } else {
      MergedMore(cs[1..], c);
      MergedFirst(cs[1..]);
      assert (cs + [c])[1..] == cs[1..] + [c];
    }
  }

  /** Something that is merged to one comment was that comment. */
  lemma MergedFirst(cs: seq<Content>)
    ensures cs == [] <==> Merged(cs) == []
    ensures |Merged(cs)| == 1 && !Merged(cs)[0].TextNode? ==> |cs| == 1
    decreases |cs|
  {
    if |cs| >= 3 && cs[0].TextNode? && IsRemark(cs[1]) && cs[2].TextNode? {
      MergedText([TextNode(cs[0].text + cs[2].text)] + cs[3..]);
    } else if cs != [] {
      MergedFirst(cs[1..]);
    }
  }

  lemma {:induction false} MergedText(cs: seq<Content>)
    requires cs != [] && cs[0].TextNode?
    ensures Merged(cs) != [] && Merged(cs)[0].TextNode?
    decreases |cs|
  {
    if |cs| >= 3 && cs[0].TextNode? && IsRemark(cs[1]) && cs[2].TextNode? {
      MergedText([TextNode(cs[0].text + cs[2].text)] + cs[3..]);
    }
  }

  lemma MergedOne(c: Content)
    ensures Merged([c]) == [c]
  {
    assert [c][1..] == [];
  }

  lemma MergedPair(a: Content, b: Content)
    ensures Merged([a, b]) == [a, b]
  {
    assert [a, b][1..] == [b];
    MergedOne(b);
  }

  lemma MergedTriple(a: Content, b: Content, c: Content)
    ensures Merged([a, b, c]) ==
      if a.TextNode? && IsRemark(b) && c.TextNode? then [TextNode(a.text + c.text)] else [a, b, c]
  {
    var cs := [a, b, c];
    if a.TextNode? && IsRemark(b) && c.TextNode? {
      MergedOne(TextNode(a.text + c.text));
      assert [TextNode(a.text + c.text)] + cs[3..] == [TextNode(a.text + c.text)];
    } else {
      assert cs[1..] == [b, c];
      MergedPair(b, c);
    }
  }

  lemma MergedTwo(cs: seq<Content>, c: Content)
    requires |cs| == 2
    ensures Merged(cs) == cs
    ensures Merged(cs + [c]) ==
      if cs[0].TextNode? && IsRemark(cs[1]) && c.TextNode? then [TextNode(cs[0].text + c.text)] else cs + [c]
  {
    hide Merged;
    MergedPair(cs[0], cs[1]);
    MergedTriple(cs[0], cs[1], c);
    assert cs == [cs[0], cs[1]] && cs + [c] == [cs[0], cs[1], c];
  }

  /** What the parser does with a text is that. */
  lemma AddTextMerges(d: Node, cs: seq<Content>, text: string)
    requires d.content == Merged(cs)
    ensures AddText(d, text) == d.(content := Merged(cs + [TextNode(text)]))
  {
    assert CLEAR_TAGS[COMMENT].open == "<!--";
    MergedMore(cs, TextNode(text));
  }

  // ---------- Texts as they are read ----------

  /** No tag starts in front of `p`, where one starts or the text ends. */
  predicate NoTag(s: string, i: nat, p: nat) {
    && i <= p <= |s| && (p < |s| ==> s[p] == '<')
    && forall j :: i <= j < p ==> s[j] != '<' && s[j] != '\0'
  }

  lemma {:induction false} SpacesWithin(s: string, i: nat, p: nat)
    requires NoTag(s, i, p)
    ensures SkipSpaces(s, i) <= p
    decreases p - i
  {
    if i < p {
      SpacesWithin(s, i + 1, p);
    }
  }

  lemma {:induction false} WordWithin(s: string, i: nat, p: nat)
    requires NoTag(s, i, p)
    ensures TextStop(s, i) <= p && (TextStop(s, i) == p < |s| ==> !IsSpace(s[p]))
    decreases p - i
  {
    if i < p {
      WordWithin(s, i + 1, p);
    }
  }

  lemma {:induction false} QuotationWithin(s: string, i: nat, p: nat, quote: char)
    requires NoTag(s, i, p) && quote != '<'
    ensures QuoteEnd(s, i, quote).Some? ==> QuoteEnd(s, i, quote).value <= p
    decreases p - i
  {
    if i < p {
      QuotationWithin(s, i + 1, p, quote);
    }
  }

  predicate Skipped(k: Kind) {
    k == TextToken || k == QuotedText || k == Equals || k == CloseTag || k == ShortHandClose
  }

  lemma TokenInText(s: string, i: nat, p: nat)
    requires NoTag(s, i, p)
    ensures
      var t := NextToken(s, i);
      t.start == p || (Skipped(t.kind) && i < t.next <= p)
  {
    SpacesWithin(s, i, p);
    var q := SkipSpaces(s, i);
    if q < p {
      NoClearTag(s, q);
      WordWithin(s, q + 1, p);
      QuotationWithin(s, q + 1, p, s[q]);
    }
  }

  lemma StepSkipped(s: string, x: Cursor, d: Node, depth: nat)
    requires Good(s, x) && Skipped(NextToken(s, x.index).kind)
    ensures Parse(s, x, d, depth, Outside) == Parse(s, x.(index := NextToken(s, x.index).next), d, depth, Outside)
  {
    hide TokenAt, SkipSpaces, MaybeAddText, ParseChild, CloseTagBehind, ParseEndTag, ParseClear;
  }

  /** Whatever stands in a text, the parse goes on at the next tag, or at the end. */
  lemma {:induction false} ReadOver(s: string, x: Cursor, d: Node, depth: nat, p: nat)
    requires Good(s, x) && NoTag(s, x.index, p)
    ensures Parse(s, x, d, depth, Outside) == Parse(s, x.(index := p), d, depth, Outside)
    decreases p - x.index
  {
    hide Parse, TokenAt;
    var t := NextToken(s, x.index);
    TokenInText(s, x.index, p);
    if t.start == p {
      SkipBlank(s, p, p);
      StepSame(s, x, d, depth, p);
    } else {
      StepSkipped(s, x, d, depth);
      ReadOver(s, x.(index := t.next), d, depth, p);
    }
  }

  /** The text in front of a tag, which is nothing, blanks, or something readable. */
  predicate TextAt(s: string, p: nat, items: seq<Item>, q: nat) {
    if items == [] || !IsText(items[0]) then q == p
    else GoodItem(items[0]) && Has(s, p, SpellItem(items[0])) && q == p + |SpellItem(items[0])|
  }

  function TextsOf(items: seq<Item>): seq<Content> {
    if items != [] && items[0].Chars? && GoodItem(items[0]) then ContentOf(items[0]) else []
  }

  lemma TextIsRead(s: string, p: nat, items: seq<Item>, q: nat, x: Cursor, d: Node, depth: nat, done: seq<Content>)
    requires TextAt(s, p, items, q) && q <= |s| && (q < |s| ==> s[q] == '<') && Good(s, x)
    requires x.index == p && x.text == Some(p) && d.content == Merged(done)
    ensures Parse(s, x, d, depth, Outside) == Parse(s, x.(index := q), d, depth, Outside)
    ensures MaybeAddText(s, x.(index := q), d, q)
      == Outcome(true, x.(index := q, text := None), d.(content := Merged(done + TextsOf(items))))
  {
    hide Parse, Merged, AddText, Decode, Has;
    assert done + [] == done;
    if items == [] || items[0].Blanks? || !IsText(items[0]) {
      if q != p {
        SpacesBlank(s, p, items[0].w);
      }
      ReadOver(s, x, d, depth, q);
      MaybeBlank(s, x.(index := q), d, q);
    } else {
      CharsAt(s, p, items[0], q);
      ReadOver(s, x, d, depth, q);
      MaybeReadable(s, x.(index := q), d, q, p + |items[0].before|, items[0].core);
      AddTextMerges(d, done, Decode(items[0].core).s);
    }
  }

  lemma CharsAt(s: string, p: nat, i: Item, q: nat)
    requires i.Chars? && GoodItem(i) && Has(s, p, SpellItem(i)) && q == p + |SpellItem(i)|
    requires q < |s| ==> s[q] == '<'
    ensures NoTag(s, p, q)
    ensures
      var a := p + |i.before|;
      Blank(s, p, a) && Has(s, a, i.core) && Blank(s, a + |i.core|, q)
  {
    hide Decode;
    var a := p + |i.before|;
    HasParts(s, p, i.before, i.core + i.after);
    HasParts(s, a, i.core, i.after);
    SpacesBlank(s, p, i.before);
    SpacesBlank(s, a + |i.core|, i.after);
    forall j | a <= j < a + |i.core| ensures s[j] != '<' && s[j] != '\0' {
      HasAt(s, a, i.core, j - a);
    }
  }

  lemma MaybeReadable(s: string, x: Cursor, d: Node, p: nat, a: nat, w: string)
    requires x.text.Some? && Readable(w) && Blank(s, x.text.value, a) && Has(s, a, w) && Blank(s, a + |w|, p)
    ensures MaybeAddText(s, x, d, p) == Outcome(true, x.(text := None), AddText(d, Decode(w).s))
  {
    hide Decode, AddText;
    HasAt(s, a, w, 0);
    HasAt(s, a, w, |w| - 1);
    HasFits(s, a, w);
    TrimStartIs(s, x.text.value, a, p);
    TrimEndIs(s, a, a + |w|, p);
  }

  // ---------- End tags as they are read ----------

  /** The end tag of an element, with its name in any case and blanks around it. */
  lemma EndIsRead(s: string, p: nat, b: Ending, name: string, x: Cursor, d0: Node, d: Node, depth: nat)
    requires Has(s, p, SpellEnd(b)) && GoodEnding(b, name) && IsName(name)
    requires Good(s, x) && x.index == p && d.name == Some(name)
    requires MaybeAddText(s, x, d0, p) == Outcome(true, x.(text := None), d)
    ensures
      var e := p + |SpellEnd(b)|;
      Parse(s, x, d0, depth, Outside) == Outcome(true, x.(index := e, text := Some(e)), d)
  {
    hide Parse, Has, TokenAt, MaybeAddText, SameTag, SpellEnd, NextToken;
    EndTokens(s, p, b);
    NameIsWord(name);
    EndSame(s, p, b, name);
    StepEndTag(s, x, d0, d, depth, p);
  }

  lemma EndParts(s: string, p: nat, b: Ending)
    requires Has(s, p, SpellEnd(b))
    ensures
      var q := p + 2 + |b.before|;
      var r := q + |b.name|;
      && Has(s, p, "</") && Has(s, p + 2, b.before) && Has(s, q, b.name) && Has(s, r, b.after)
      && Has(s, r + |b.after|, ">") && p + |SpellEnd(b)| == r + |b.after| + 1
  {
    hide Has;
    var q := p + 2 + |b.before|;
    HasParts(s, p, "</", b.before + (b.name + (b.after + ">")));
    HasParts(s, p + 2, b.before, b.name + (b.after + ">"));
    HasParts(s, q, b.name, b.after + ">");
    HasParts(s, q + |b.name|, b.after, ">");
  }

  lemma EndTokens(s: string, p: nat, b: Ending)
    requires Has(s, p, SpellEnd(b)) && Spaces(b.before) && Spaces(b.after) && IsWord(b.name)
    ensures
      var q, n, e := p + 2 + |b.before|, |b.name|, p + |SpellEnd(b)|;
      && NextToken(s, p) == Token(TagEnd, p, 2, p + 2, 0) && p + 2 <= |s|
      && NextToken(s, p + 2) == WordToken(s, q, n) && WordToken(s, q, n).next <= e <= |s|
      && NextToken(s, WordToken(s, q, n).next) == Token(CloseTag, e - 1, 1, e, 0)
  {
    hide Has, TokenAt, SpellEnd, IsWord, Spaces;
    EndParts(s, p, b);
    var q, n, e := p + 2 + |b.before|, |b.name|, p + |SpellEnd(b)|;
    HasAt(s, p, "</", 0);
    HasAt(s, p, "</", 1);
    HasAt(s, e - 1, ">", 0);
    EndTagStart(s, p);
    SpacesBlank(s, p + 2, b.before);
    SpacesBlank(s, q + n, b.after);
    WordIsToken(s, q, b.name);
    TokenBehind(s, p + 2, q);
    EndToken(s, e - 1);
    BlankMeets(s, q + n, WordToken(s, q, n).next, e - 1);
    TokenBehind(s, WordToken(s, q, n).next, e - 1);
  }

  /** The name in an end tag is the same tag as that of an element exactly if it closes it. */
  lemma EndSame(s: string, p: nat, b: Ending, name: string)
    requires Has(s, p, SpellEnd(b)) && Spaces(b.after) && IsWord(b.name) && IsWord(name)
    ensures SameTag(Some(name), s, p + 2 + |b.before|) <==> Closes(b.name, name)
  {
    hide Has, SpellEnd, IsWord;
    EndParts(s, p, b);
    var q, n, e := p + 2 + |b.before|, |b.name|, p + |SpellEnd(b)|;
    HasAt(s, e - 1, ">", 0);
    SpacesBlank(s, q + n, b.after);
    forall j | 0 <= j < n ensures s[q + j] == b.name[j] {
      HasAt(s, q, b.name, j);
    }
    if Closes(b.name, name) {
      forall j | 0 <= j < |name| ensures Lower(s[q + j]) == Lower(name[j]) {
        SameLower(b.name[..|name|][j], name[j]);
      }
    }
    if SameTag(Some(name), s, q) {
      SameLength(s, q, b.name, name);
      forall j | 0 <= j < |name| ensures SameLetter(b.name[..|name|][j], name[j]) {
        LowerIsSame(b.name[j], name[j]);
      }
    }
  }

  lemma LowerIsSame(a: char, b: char)
    requires Lower(a) == Lower(b)
    ensures SameLetter(a, b)
  {
  }

  /** A longer name is not the same tag, and a shorter one only in front of a slash. */
  lemma SameLength(s: string, q: nat, w: string, name: string)
    requires Has(s, q, w) && IsWord(w) && q + |w| < |s| && (IsSpace(s[q + |w|]) || s[q + |w|] == '>')
    requires SameTag(Some(name), s, q) && IsWord(name)
    ensures |name| <= |w| && (|name| < |w| ==> w[|name|] == '/')
  {
    hide IsWord;
    if |name| < |w| {
      HasAt(s, q, w, |name|);
      CharOfWord(w, |name|);
    } else if |name| > |w| {
      CharOfWord(name, |w|);
      LowerIsSame(s[q + |w|], name[|w|]);
    }
  }

  lemma CharOfWord(w: string, j: nat)
    requires IsWord(w) && j < |w|
    ensures WordChar(w[j]) || w[j] == '/'
  {
  }

  // ---------- Start tags as they are read ----------

  lemma StartParts(s: string, p: nat, t: Start, close: string)
    requires Has(s, p, SpellStart(t, close))
    ensures
      var q := p + 1 + |t.lead|;
      var r := q + |t.name|;
      var e := r + |SpellTag(t.ws)| + |t.tail|;
      && Has(s, p, "<") && Has(s, p + 1, t.lead) && Has(s, q, t.name) && Has(s, r, SpellTag(t.ws))
      && Has(s, e - |t.tail|, t.tail) && Has(s, e, close) && p + |SpellStart(t, close)| == e + |close|
  {
    hide Has;
    var q := p + 1 + |t.lead|;
    var r := q + |t.name|;
    HasParts(s, p, "<", t.lead + (t.name + (SpellTag(t.ws) + (t.tail + close))));
    HasParts(s, p + 1, t.lead, t.name + (SpellTag(t.ws) + (t.tail + close)));
    HasParts(s, q, t.name, SpellTag(t.ws) + (t.tail + close));
    HasParts(s, r, SpellTag(t.ws), t.tail + close);
    HasParts(s, r + |SpellTag(t.ws)|, t.tail, close);
  }

  function TagEndOf(p: nat, t: Start): nat {
    p + 1 + |t.lead| + |t.name| + |SpellTag(t.ws)| + |t.tail|
  }

  /** The attributes stand behind the name, and the end of the tag behind them. */
  lemma TagOfStart(s: string, p: nat, t: Start, close: string)
    requires Has(s, p, SpellStart(t, close)) && GoodStart(t, close)
    ensures TagAt(s, p + 1 + |t.lead| + |t.name|, t.ws, TagEndOf(p, t))
    ensures TagEndOf(p, t) + |close| <= |s| && (s[TagEndOf(p, t)] == '>' <==> close == ">")
  {
    hide Has;
    StartParts(s, p, t, close);
    var e := TagEndOf(p, t);
    SpacesBlank(s, e - |t.tail|, t.tail);
    HasFits(s, e, close);
    HasAt(s, e, close, 0);
    if close == "/>" {
      HasAt(s, e, close, 1);
    }
  }

  /** The start of the tag and its name as tokens. */
  lemma OpenTokens(s: string, p: nat, t: Start, close: string)
    requires Has(s, p, SpellStart(t, close)) && GoodStart(t, close)
    ensures
      var q, n := p + 1 + |t.lead|, |t.name|;
      && NextToken(s, p) == Token(TagStart, p, 1, p + 1, 0) && p + 1 <= |s|
      && NextToken(s, p + 1) == WordToken(s, q, n) && q + n <= |s| && s[q..q + n] == t.name && n >= 1
      && q + n <= WordToken(s, q, n).next <= |s|
      && Blank(s, WordToken(s, q, n).next, Lead(t.ws, q + n, TagEndOf(p, t)))
  {
    hide Has, TokenAt, TagAt, GoodTag, SpellTag, SpellStart, IsWord, IsName, Spaces, WordEnds;
    var q, n := p + 1 + |t.lead|, |t.name|;
    StartParts(s, p, t, close);
    TagOfStart(s, p, t, close);
    TagFollows(s, q + n, t.ws, TagEndOf(p, t));
    TagLeads(s, q + n, t.ws, TagEndOf(p, t), true);
    SpacesBlank(s, p + 1, t.lead);
    NameIsWord(t.name);
    EndsToo(s, q + n);
    WordIsToken(s, q, t.name);
    TokenBehind(s, p + 1, q);
    HasFits(s, q, t.name);
    BlankMeets(s, q + n, WordToken(s, q, n).next, Lead(t.ws, q + n, TagEndOf(p, t)));
    OpenToken(s, p, t, close);
  }

  lemma NameIsWord(w: string)
    requires IsName(w)
    ensures IsWord(w)
  {
  }

  lemma OpenToken(s: string, p: nat, t: Start, close: string)
    requires Has(s, p, SpellStart(t, close)) && GoodStart(t, close)
    ensures NextToken(s, p) == Token(TagStart, p, 1, p + 1, 0) && p + 1 <= |s|
  {
    hide GoodTag;
    StartParts(s, p, t, close);
    HasAt(s, p, "<", 0);
    NotPre(s, p, t, close);
    if t.lead != "" {
      HasAt(s, p + 1, t.lead, 0);
    } else {
      HasAt(s, p + 1, t.name, 0);
    }
    NoOpening(s, p);
    SkipBlank(s, p, p);
  }

  /** The tag is not taken for the clear tag "<PRE>". */
  lemma NotPre(s: string, p: nat, t: Start, close: string)
    requires Has(s, p, SpellStart(t, close)) && GoodStart(t, close)
    ensures !Has(s, p, "<PRE>")
  {
    hide GoodTag;
    if Has(s, p, "<PRE>") {
      TagOfStart(s, p, t, close);
      TagFollows(s, p + 1 + |t.lead| + |t.name|, t.ws, TagEndOf(p, t));
      PreLetters(s, p, t, close);
    }
  }

  lemma PreLetters(s: string, p: nat, t: Start, close: string)
    requires Has(s, p, "<PRE>") && Has(s, p, SpellStart(t, close)) && Spaces(t.lead) && IsName(t.name)
    requires NameEnds(s, p + 1 + |t.lead| + |t.name|)
    requires TagAt(s, p + 1 + |t.lead| + |t.name|, t.ws, TagEndOf(p, t)) && GoodTag(t.ws, true)
    requires s[TagEndOf(p, t)] == '>' ==> close == ">"
    ensures t.lead == "" && t.name == "PRE" && t.ws == [] && t.tail == "" && close == ">"
  {
    hide GoodTag, TagAt, NameEnds;
    StartParts(s, p, t, close);
    HasAt(s, p, "<PRE>", 1);
    HasAt(s, p, "<PRE>", 2);
    HasAt(s, p, "<PRE>", 3);
    HasAt(s, p, "<PRE>", 4);
    if t.lead != "" {
      HasAt(s, p + 1, t.lead, 0);
    } else {
      NameIsPre(s, p, t.name);
      LeadIs(s, p + 4, t.ws, TagEndOf(p, t));
    }
  }

  lemma NameIsPre(s: string, p: nat, name: string)
    requires Has(s, p + 1, name) && IsName(name) && NameEnds(s, p + 1 + |name|) && p + 5 <= |s|
    requires s[p + 1] == 'P' && s[p + 2] == 'R' && s[p + 3] == 'E' && s[p + 4] == '>'
    ensures name == "PRE"
  {
    if |name| > 3 {
      HasAt(s, p + 1, name, 3);
    }
    forall j | 0 <= j < |name| ensures name[j] == s[p + 1 + j] {
      HasAt(s, p + 1, name, j);
    }
    assert name == s[p + 1..p + 1 + |name|];
  }

  /** An angle bracket right behind the name ends the tag. */
  lemma LeadIs(s: string, p: nat, ws: seq<Written>, e: nat)
    requires TagAt(s, p, ws, e) && GoodTag(ws, true) && p < |s| && s[p] == '>'
    ensures ws == [] && e == p
  {
    TagLeads(s, p, ws, e, true);
    assert ws == [];
  }

  /** From the name of a start tag on, the attributes are read, and what follows is that of the end of the tag. */
  lemma StartIsRead(s: string, p: nat, t: Start, close: string, x: Cursor, depth: nat)
    requires Has(s, p, SpellStart(t, close)) && GoodStart(t, close) && Good(s, x)
    requires x.index == WordToken(s, p + 1 + |t.lead|, |t.name|).next
    ensures
      var q := p + |SpellStart(t, close)|;
      var x' := x.(index := q, text := Some(q));
      p + 1 < x.index <= q <= |s| && Parse(s, x, Node(Some(t.name), false, [], []), depth, AttribName) ==
        if close == ">" then Parse(s, x', Named(t), depth, Outside) else Outcome(true, x', Named(t))
  {
    hide Parse, Has, NextToken, SpellTag, TagAt, SpellStart, Asks;
    var q, n, e := p + 1 + |t.lead|, |t.name|, TagEndOf(p, t);
    StartParts(s, p, t, close);
    TagOfStart(s, p, t, close);
    OpenTokens(s, p, t, close);
    ReadNames(s, q + n, t.ws, e, true, x, Node(Some(t.name), false, [], []), depth);
    assert [] + AttributesOf(false, t.ws, true) == AttributesOf(false, t.ws, true);
  }

  /** A start tag is read: its name, and then the new element from there on. */
  lemma StartOpens(s: string, p: nat, t: Start, close: string, x: Cursor, d0: Node, d: Node, depth: nat)
    requires Has(s, p, SpellStart(t, close)) && GoodStart(t, close) && Good(s, x) && x.index == p
    requires MaybeAddText(s, x, d0, p) == Outcome(true, x.(text := None), d)
    ensures
      var q := p + |SpellStart(t, close)|;
      var x' := x.(index := q, text := Some(q));
      && p + 1 < q <= |s| && Good(s, x')
      && var r := if close == ">" then Parse(s, x', Named(t), depth + 1, Outside) else Outcome(true, x', Named(t));
         Parse(s, x, d0, depth, Outside) == AfterChild(s, r, d, depth, p + 1)
  {
    hide Parse, Has, MaybeAddText, NextToken, SpellStart, GoodStart, AfterChild;
    OpenTokens(s, p, t, close);
    ParseOpens(s, x, d0, depth, NextToken(s, p));
    MaybeAnywhere(s, x, d0, p, p + 1, d);
    var x1 := x.(index := p + 1);
    ParseChildStages(s, x1, d0, depth, NextToken(s, p), false, Outcome(true, x1.(text := None), d));
    StartIsRead(s, p, t, close, x1.(text := None, index := NextToken(s, p + 1).next), depth + 1);
  }

  lemma NamedIs(t: Start)
    requires GoodStart(t, ">")
    ensures Named(t).name == Some(t.name) && Named(t).content == Merged([]) && !Named(t).isDeclaration
  {
  }

  // ---------- Elements as they are read ----------

  /** Contents that do not end in a text are read, and the parse goes on behind them. */
  lemma {:induction false} ItemsPass(s: string, p: nat, items: seq<Item>, x: Cursor, d: Node, depth: nat,
                                     done: seq<Content>)
    requires Has(s, p, SpellItems(items)) && GoodItems(items) && (items == [] || !IsText(items[|items| - 1]))
    requires Good(s, x) && x.index == p && x.text == Some(p) && x.endLen == 0 && d.content == Merged(done)
    ensures
      var q := p + |SpellItems(items)|;
      q <= |s| && Parse(s, x, d, depth, Outside)
        == Parse(s, x.(index := q, text := Some(q)), d.(content := Merged(done + RawOf(items))), depth, Outside)
    decreases items, 2
  {
    hide Parse, Has, MaybeAddText, Merged, SpellItem, SpellItems, GoodItem, GoodItems, RawOf, ContentOf;
    hide TextAt, TextsOf;
    HasFits(s, p, SpellItems(items));
    if items == [] {
      NoItems();
      assert done + [] == done;
    } else {
      var rest, q := items, p;
      if IsText(items[0]) {
        rest := items[1..];
        q := p + |SpellItem(items[0])|;
        TextInFront(s, p, items, q);
      } else {
        NoTextInFront(s, p, items);
      }
      MarkupFirst(s, q, rest);
      TextIsRead(s, p, items, q, x, d, depth, done);
      var d1 := d.(content := Merged(done + TextsOf(items)));
      MarkupPasses(s, q, rest, x.(index := q), d, d1, depth, done + TextsOf(items));
      assert done + TextsOf(items) + RawOf(rest) == done + RawOf(items);
    }
  }

  lemma NoItems()
    ensures SpellItems([]) == "" && RawOf([]) == [] && Merged([]) == []
  {
  }

  lemma MarkupFirst(s: string, q: nat, rest: seq<Item>)
    requires Has(s, q, SpellItems(rest)) && GoodItems(rest) && rest != [] && !IsText(rest[0])
    ensures q < |s| && s[q] == '<'
  {
    HasParts(s, q, SpellItem(rest[0]), SpellItems(rest[1..]));
    TagStartsItem(rest[0]);
    HasAt(s, q, SpellItem(rest[0]), 0);
  }

  lemma {:induction false} MarkupPasses(s: string, p: nat, items: seq<Item>, x: Cursor, d0: Node, d: Node, depth: nat,
                                        done: seq<Content>)
    requires Has(s, p, SpellItems(items)) && GoodItems(items) && items != []
    requires !IsText(items[0]) && !IsText(items[|items| - 1])
    requires Good(s, x) && x.index == p && x.endLen == 0 && d.content == Merged(done)
    requires MaybeAddText(s, x, d0, p) == Outcome(true, x.(text := None), d)
    ensures
      var q := p + |SpellItems(items)|;
      q <= |s| && Parse(s, x, d0, depth, Outside)
        == Parse(s, x.(index := q, text := Some(q)), d.(content := Merged(done + RawOf(items))), depth, Outside)
    decreases items, 1
  {
    hide Parse, Has, MaybeAddText, Merged, SpellItem, GoodItem, ContentOf;
    ItemsSplit(items);
    HasParts(s, p, SpellItem(items[0]), SpellItems(items[1..]));
    MarkupIsRead(s, p, items[0], x, d0, d, depth);
    var c := ContentOf(items[0])[0];
    assert ContentOf(items[0]) == [c];
    MarkupMerges(done, c);
    var q := p + |SpellItem(items[0])|;
    ItemsPass(s, q, items[1..], x.(index := q, text := Some(q)), d.(content := d.content + [c]), depth, done + [c]);
    assert done + [c] + RawOf(items[1..]) == done + RawOf(items);
  }

  lemma TextInFront(s: string, p: nat, items: seq<Item>, q: nat)
    requires Has(s, p, SpellItems(items)) && GoodItems(items) && items != [] && IsText(items[0])
    requires q == p + |SpellItem(items[0])|
    ensures q + |SpellItems(items[1..])| == p + |SpellItems(items)|
    ensures TextAt(s, p, items, q) && p <= q && Has(s, q, SpellItems(items[1..])) && GoodItems(items[1..])
    ensures items[1..] == [] || !IsText(items[1..][0])
    ensures RawOf(items) == TextsOf(items) + RawOf(items[1..])
  {
    hide Has, GoodItem, SpellItem, SpellItems, ContentOf, RawOf, GoodItems, TextsOf;
    ItemsSplit(items);
    HasParts(s, p, SpellItem(items[0]), SpellItems(items[1..]));
    TextsAre(items);
  }

  lemma NoTextInFront(s: string, p: nat, items: seq<Item>)
    requires GoodItems(items) && (items == [] || !IsText(items[0]))
    ensures TextAt(s, p, items, p) && RawOf(items) == TextsOf(items) + RawOf(items)
  {
    hide RawOf, GoodItems;
  }

  lemma ItemsSplit(items: seq<Item>)
    requires items != [] && GoodItems(items)
    ensures SpellItems(items) == SpellItem(items[0]) + SpellItems(items[1..])
    ensures GoodItem(items[0]) && GoodItems(items[1..])
    ensures RawOf(items) == ContentOf(items[0]) + RawOf(items[1..])
    ensures |items| > 1 && IsText(items[0]) ==> !IsText(items[1])
  {
  }

  lemma TagStartsItem(i: Item)
    requires !IsText(i)
    ensures SpellItem(i) != "" && SpellItem(i)[0] == '<'
  {
    if i.Marked? {
      assert OpenOf(i.k)[0] == '<';
    }
  }

  lemma TextsAre(items: seq<Item>)
    requires items != [] && GoodItem(items[0]) && IsText(items[0])
    ensures ContentOf(items[0]) == TextsOf(items)
  {
  }

  lemma MarkupMerges(done: seq<Content>, c: Content)
    requires !c.TextNode?
    ensures Merged(done + [c]) == Merged(done) + [c]
  {
    MergedMore(done, c);
  }

  /** One child or clear tag. */
  lemma {:induction false} MarkupIsRead(s: string, p: nat, i: Item, x: Cursor, d0: Node, d: Node, depth: nat)
    requires Has(s, p, SpellItem(i)) && GoodItem(i) && !IsText(i) && Good(s, x) && x.index == p && x.endLen == 0
    requires MaybeAddText(s, x, d0, p) == Outcome(true, x.(text := None), d)
    ensures |ContentOf(i)| == 1 && !ContentOf(i)[0].TextNode?
    ensures
      var q := p + |SpellItem(i)|;
      q <= |s| && Parse(s, x, d0, depth, Outside)
        == Parse(s, x.(index := q, text := Some(q)), d.(content := d.content + ContentOf(i)), depth, Outside)
    decreases i, 1
  {
    hide Parse, Has, MaybeAddText, SpellElement, GoodElement, GoodMark;
    match i {
      case Child(e) => ChildRead(s, p, e, x, d0, d, depth);
      case Marked(k, value, close) =>
        MarkCloses(k, value, close);
        assert NormalClear(OpenOf(k), value, close);
        ParseClearNode(s, x, d0, d, depth, p, OpenOf(k), value, close);
      case _ =>
    }
  }

  /** The last text of an element, if there is one, and its end tag. */
  function LastText(items: seq<Item>): (k: nat)
    ensures k <= |items| <= k + 1 && (k < |items| ==> IsText(items[k]))
  {
    if items != [] && IsText(items[|items| - 1]) then |items| - 1 else |items|
  }

  /** An element is read, and its parent goes on behind it. */
  lemma {:induction false} ChildRead(s: string, p: nat, e: Element, x: Cursor, d0: Node, d: Node, depth: nat)
    requires Has(s, p, SpellElement(e)) && GoodElement(e) && Good(s, x) && x.index == p && x.endLen == 0
    requires MaybeAddText(s, x, d0, p) == Outcome(true, x.(text := None), d)
    ensures
      var q := p + |SpellElement(e)|;
      q <= |s| && Parse(s, x, d0, depth, Outside)
        == Parse(s, x.(index := q, text := Some(q)), d.(content := d.content + [ChildNode(NodeOf(e))]), depth, Outside)
    decreases e, 1
  {
    hide Parse, Has, MaybeAddText, SpellStart, SpellItems, SpellEnd, GoodTag, GoodItems, GoodEnding, Merged;
    HasFits(s, p, SpellElement(e));
    var q := p + |SpellElement(e)|;
    var x' := x.(index := q, text := Some(q));
    match e {
      case Short(start) =>
        StartOpens(s, p, start, "/>", x, d0, d, depth);
      case Full(start, items, ending) =>
        HasParts(s, p, SpellStart(start, ">"), SpellItems(items) + SpellEnd(ending));
        StartOpens(s, p, start, ">", x, d0, d, depth);
        var r := p + |SpellStart(start, ">")|;
        NoItems();
        InsideIsRead(s, r, items, ending, start.name, x.(index := r, text := Some(r)), Named(start), depth + 1);
    }
    ChildIsAdded(s, Outcome(true, x', NodeOf(e)), d, depth, p + 1);
  }

  lemma ChildIsAdded(s: string, r: Outcome, d: Node, depth: nat, from: nat)
    requires Good(s, r.x) && r.x.index > from && from <= |s| && r.more && r.x.endLen == 0
    ensures AfterChild(s, r, d, depth, from)
      == Parse(s, r.x, d.(content := d.content + [ChildNode(r.d)]), depth, Outside)
  {
    hide Parse;
  }

  lemma ItemsMade(items: seq<Item>)
    requires items != [] && GoodItem(items[0]) && GoodItems(items[1..])
    requires |items| > 1 ==> !(IsText(items[0]) && IsText(items[1]))
    ensures GoodItems(items) && RawOf(items) == ContentOf(items[0]) + RawOf(items[1..])
    ensures SpellItems(items) == SpellItem(items[0]) + SpellItems(items[1..])
  {
    hide GoodItem, SpellItem, ContentOf;
  }

  lemma {:induction false} ItemsFront(items: seq<Item>, k: nat)
    requires GoodItems(items) && k <= |items|
    ensures GoodItems(items[..k]) && GoodItems(items[k..])
    ensures SpellItems(items) == SpellItems(items[..k]) + SpellItems(items[k..])
    ensures RawOf(items) == RawOf(items[..k]) + RawOf(items[k..])
    decreases k
  {
    hide GoodItem, SpellItem, ContentOf, GoodItems, SpellItems, RawOf;
    if k == 0 {
      NoItems();
      NoneGood();
      assert items[..0] == [] && items[0..] == items;
      assert SpellItems([]) + SpellItems(items) == SpellItems(items) && RawOf([]) + RawOf(items) == RawOf(items);
    } else {
      ItemsSplit(items);
      ItemsFront(items[1..], k - 1);
      var front, rest := items[..k], items[1..][..k - 1];
      assert front[1..] == rest && items[1..][k - 1..] == items[k..] && front[0] == items[0];
      ItemsMade(front);
      JoinFirst(SpellItem(items[0]), SpellItems(rest), SpellItems(items[k..]));
      JoinFirst(ContentOf(items[0]), RawOf(rest), RawOf(items[k..]));
    }
  }

  lemma NoneGood()
    ensures GoodItems([])
  {
  }

  lemma JoinFirst<T>(a: seq<T>, b: seq<T>, c: seq<T>)
    ensures a + (b + c) == a + b + c
  {
  }

  lemma {:induction false} NoTwoTexts(items: seq<Item>, k: nat)
    requires GoodItems(items) && k + 1 < |items|
    ensures !(IsText(items[k]) && IsText(items[k + 1]))
  {
    hide GoodItem;
    if k > 0 {
      NoTwoTexts(items[1..], k - 1);
    }
  }

  /** Any contents are read up to the tag or the end of the text behind them; a last text may still be pending there. */
  lemma {:induction false} ContentsPass(s: string, p: nat, items: seq<Item>, x: Cursor, d: Node, depth: nat,
                                        done: seq<Content>) returns (y: Cursor, d0: Node)
    requires Has(s, p, SpellItems(items)) && GoodItems(items)
    requires p + |SpellItems(items)| < |s| ==> s[p + |SpellItems(items)|] == '<'
    requires Good(s, x) && x.index == p && x.text == Some(p) && x.endLen == 0 && d.content == Merged(done)
    ensures
      var q := p + |SpellItems(items)|;
      && q <= |s| && Good(s, y) && y.text.Some? && y == x.(index := q, text := y.text)
      && MaybeAddText(s, y, d0, q) == Outcome(true, y.(text := None), d.(content := Merged(done + RawOf(items))))
    ensures d0.isDeclaration == d.isDeclaration && Parse(s, x, d, depth, Outside) == Parse(s, y, d0, depth, Outside)
    decreases items, 3
  {
    hide Parse, Has, MaybeAddText, Merged, SpellEnd, SpellItems, SpellItem, GoodItem, GoodItems, GoodEnding, RawOf;
    hide TextAt, TextsOf;
    HasFits(s, p, SpellItems(items));
    var k := LastText(items);
    if 0 < k < |items| {
      NoTwoTexts(items, k - 1);
    }
    ItemsFront(items, k);
    HasParts(s, p, SpellItems(items[..k]), SpellItems(items[k..]));
    var q := p + |SpellItems(items[..k])|;
    if k == |items| {
      assert items[..k] == items;
      ItemsPass(s, p, items, x, d, depth, done);
    } else {
      ItemsPass(s, p, items[..k], x, d, depth, done);
    }
    var raw := done + RawOf(items[..k]);
    assert raw + RawOf(items[k..]) == done + RawOf(items);
    d0 := d.(content := Merged(raw));
    y := x.(index := p + |SpellItems(items)|, text := Some(q));
    LastPasses(s, q, items[k..], x.(index := q, text := Some(q)), d0, depth, raw);
  }

  lemma LastPasses(s: string, p: nat, last: seq<Item>, x: Cursor, d: Node, depth: nat, done: seq<Content>)
    requires Has(s, p, SpellItems(last)) && GoodItems(last) && |last| <= 1 && (last != [] ==> IsText(last[0]))
    requires p + |SpellItems(last)| < |s| ==> s[p + |SpellItems(last)|] == '<'
    requires Good(s, x) && x.index == p && x.text == Some(p) && d.content == Merged(done)
    ensures
      var y := x.(index := p + |SpellItems(last)|);
      && Good(s, y) && Parse(s, x, d, depth, Outside) == Parse(s, y, d, depth, Outside)
      && MaybeAddText(s, y, d, y.index)
         == Outcome(true, y.(text := None), d.(content := Merged(done + RawOf(last))))
  {
    hide Parse, Has, MaybeAddText, Merged, SpellItem, GoodItem, ContentOf, TextAt, TextsOf, RawOf;
    var q := p + |SpellItems(last)|;
    HasFits(s, p, SpellItems(last));
    NoItems();
    if last != [] {
      HasParts(s, p, SpellItem(last[0]), SpellItems(last[1..]));
      TextInFront(s, p, last, q);
      assert last[1..] == [] && TextsOf(last) + [] == TextsOf(last);
    } else {
      NoTextInFront(s, p, last);
      assert TextsOf(last) + [] == TextsOf(last);
    }
    TextIsRead(s, p, last, q, x, d, depth, done);
  }

  /** The contents of an element and its end tag. */
  lemma {:induction false} InsideIsRead(s: string, p: nat, items: seq<Item>, b: Ending, name: string,
                                        x: Cursor, d: Node, depth: nat)
    requires Has(s, p, SpellItems(items) + SpellEnd(b)) && GoodItems(items) && GoodEnding(b, name) && IsName(name)
    requires Good(s, x) && x.index == p && x.text == Some(p) && x.endLen == 0
    requires d.name == Some(name) && d.content == Merged([])
    ensures
      var e := p + |SpellItems(items) + SpellEnd(b)|;
      Parse(s, x, d, depth, Outside)
      == Outcome(true, x.(index := e, text := Some(e)), d.(content := Merged(RawOf(items))))
    decreases items, 4
  {
    hide Parse, Has, MaybeAddText, Merged, SpellEnd, SpellItems, GoodItems, GoodEnding, RawOf;
    HasParts(s, p, SpellItems(items), SpellEnd(b));
    var q := p + |SpellItems(items)|;
    EndParts(s, q, b);
    HasAt(s, q, "</", 0);
    var y, d0 := ContentsPass(s, p, items, x, d, depth, []);
    assert [] + RawOf(items) == RawOf(items);
    EndIsRead(s, q, b, name, y, d0, d.(content := Merged(RawOf(items))), depth);
  }

  // ---------- Documents as they are read ----------

  /** The text ends: only the head of a document and a declaration may be open then. */
  lemma TextEnds(s: string, x: Cursor, d0: Node, d: Node, depth: nat)
    requires Good(s, x) && x.index == |s| && d0.isDeclaration == d.isDeclaration
    requires MaybeAddText(s, x, d0, |s|) == Outcome(true, x.(text := None), d)
    ensures Parse(s, x, d0, depth, Outside) == Outcome(false, x.(text := None,
      error := if d.isDeclaration || depth == 0 then x.error else MissingEndTag), d)
  {
    SkipBlank(s, |s|, |s|);
    MaybeAnyError(s, x, d0, |s|, MissingEndTag, d);
  }

  lemma MaybeAnyError(s: string, x: Cursor, d0: Node, p: nat, e: XmlError, d: Node)
    requires p <= |s| && Good(s, x) && x.index <= p && MaybeAddText(s, x, d0, p) == Outcome(true, x.(text := None), d)
    ensures MaybeAddText(s, x.(error := e), d0, p) == Outcome(true, x.(error := e, text := None), d)
  {
    hide AddText, Decode, TrimStart, TrimEnd;
    var x' := x.(error := e);
    assert x'.text == x.text;
    if x.text.Some? {
      var a := TrimStart(s, x.text.value, p);
      if a != p {
        assert !Decode(s[a..TrimEnd(s, a, p)]).Failed?;
      }
    }
  }

  const BEGIN := Cursor(0, Some(0), NoError, 0, 0)

  lemma HeadIs()
    ensures HEAD.content == Merged([]) && !HEAD.isDeclaration && HEAD.name == None && HEAD.attributes == []
  {
  }

  predicate HasChild(cs: seq<Content>) {
    exists k :: 0 <= k < |cs| && cs[k].ChildNode?
  }

  lemma {:induction false} ChildCounts(cs: seq<Content>)
    ensures ChildCount(cs) > 0 <==> HasChild(cs)
  {
    if cs != [] {
      ChildCounts(cs[1..]);
      assert HasChild(cs[1..]) ==> HasChild(cs) by {
        if HasChild(cs[1..]) {
          var k :| 0 <= k < |cs[1..]| && cs[1..][k].ChildNode?;
          assert cs[k + 1].ChildNode?;
        }
      }
      assert HasChild(cs) && !cs[0].ChildNode? ==> HasChild(cs[1..]) by {
        if HasChild(cs) && !cs[0].ChildNode? {
          var k :| 0 <= k < |cs| && cs[k].ChildNode?;
          assert cs[1..][k - 1].ChildNode?;
        }
      }
    }
  }

  /** A document that is one element is that element; anything else stands below a head without name. */
  function TopOf(cs: seq<Content>): Node {
    if |cs| == 1 && cs[0].ChildNode? then cs[0].node else Node(None, false, [], cs)
  }

  /** What parseString makes of the contents of the head and an error: some errors leave the tree. */
  function Judged(cs: seq<Content>, e: XmlError): Result {
    if !HasChild(cs) then Result(Some(TopOf(cs)), NoXmlTagFound)
    else if e == NoError || e == MissingEndTag || e == NoXmlTagFound then Result(Some(TopOf(cs)), e)
    else Result(None, e)
  }

  lemma TopIs(s: string, r: Outcome, cs: seq<Content>)
    requires r == Parse(s, BEGIN, HEAD, 0, Outside) && r.d == HEAD.(content := cs)
    ensures ParseString(s) == Judged(cs, r.x.error)
  {
    hide Parse;
    ChildCounts(cs);
    if |cs| == 1 {
      assert ChildCount(cs[1..]) == 0;
    }
  }

  /** parseString reads any contents: texts, elements, comments and marked sections in any number. */
  lemma ReadContents(items: seq<Item>)
    requires GoodItems(items)
    ensures
      var cs := Merged(RawOf(items));
      ParseString(SpellItems(items)) == Result(Some(TopOf(cs)), if HasChild(cs) then NoError else NoXmlTagFound)
  {
    hide Parse, Has, MaybeAddText, SpellItems, GoodItems, RawOf, TopOf, HasChild;
    var s := SpellItems(items);
    HasAll(s);
    NoItems();
    var y, d0 := ContentsPass(s, 0, items, BEGIN, HEAD, 0, []);
    assert [] + RawOf(items) == RawOf(items);
    var cs := Merged(RawOf(items));
    TextEnds(s, y, d0, HEAD.(content := cs), 0);
    TopIs(s, Parse(s, BEGIN, HEAD, 0, Outside), cs);
  }

  lemma HasAll(s: string)
    ensures Has(s, 0, s)
  {
  }

  /** parseString reads the element that a document means, with any blanks around it. */
  lemma ReadDocument(before: string, e: Element, after: string)
    requires Spaces(before) && GoodElement(e) && Spaces(after)
    ensures ParseString(before + (SpellElement(e) + after)) == Result(Some(NodeOf(e)), NoError)
  {
    hide SpellElement, GoodElement, NodeOf, ParseString;
    var items := [Blanks(before), Child(e), Blanks(after)];
    OneElement(before, e, after);
    ReadContents(items);
    assert HasChild([ChildNode(NodeOf(e))]) by {
      assert [ChildNode(NodeOf(e))][0].ChildNode?;
    }
  }

  lemma OneElement(before: string, e: Element, after: string)
    requires Spaces(before) && GoodElement(e) && Spaces(after)
    ensures
      var items := [Blanks(before), Child(e), Blanks(after)];
      && GoodItems(items) && SpellItems(items) == before + (SpellElement(e) + after)
      && Merged(RawOf(items)) == [ChildNode(NodeOf(e))]
  {
    hide SpellElement, GoodElement, NodeOf, Spaces, Merged;
    var last, rest := [Blanks(after)], [Child(e), Blanks(after)];
    var items := [Blanks(before)] + rest;
    assert last[1..] == [] && rest[1..] == last && items[1..] == rest;
    NoItems();
    assert GoodItems(last) && SpellItems(last) == after && RawOf(last) == [];
    assert GoodItems(rest) && SpellItems(rest) == SpellElement(e) + after && RawOf(rest) == [ChildNode(NodeOf(e))];
    assert items == [Blanks(before), Child(e), Blanks(after)] && RawOf(items) == [ChildNode(NodeOf(e))];
    MergedOne(ChildNode(NodeOf(e)));
  }
}
