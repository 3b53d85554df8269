/**
 Parsing undoes rendering: for every element tree in normal form, parseString gives back the tree that
 createXMLString rendered, with and without formatting.
 */
module XmlRoundTrip {

  import opened Options
  import opened XmlText
  import opened XmlTokens
  import opened XmlPrinter
  import opened XmlParser

  // ---------- Places in a text ----------

  lemma HasParts(s: string, i: nat, a: string, b: string)
    requires Has(s, i, a + b)
    ensures Has(s, i, a) && Has(s, i + |a|, b)
  {
    var w := a + b;
    assert s[i..i + |w|][..|a|] == s[i..i + |a|];
    assert s[i..i + |w|][|a|..] == s[i + |a|..i + |a| + |b|];
  }

  lemma HasAt(s: string, i: nat, w: string, j: nat)
    requires Has(s, i, w) && j < |w|
    ensures i + j < |s| && s[i + j] == w[j]
  {
    assert s[i..i + |w|][j] == s[i + j];
  }

  /** Every character from `a` to `b` is a space. */
  predicate Blank(s: string, a: nat, b: nat) {
    a <= b <= |s| && forall j :: a <= j < b ==> IsSpace(s[j])
  }

  lemma {:induction false} SkipBlank(s: string, a: nat, b: nat)
    requires Blank(s, a, b) && (b == |s| || !IsSpace(s[b]))
    ensures SkipSpaces(s, a) == b
    decreases b - a
  {
    if a < b {
      SkipBlank(s, a + 1, b);
    }
  }

  // ---------- Names and values ----------

  predicate NameChar(c: char) {
    && !IsSpace(c) && c != '\0' && c != '<' && c != '>' && c != '=' && c != '/'
    && c != '\'' && c != '\"' && c != '?' && c != '!'
  }

  predicate IsName(w: string) {
    w != "" && forall j :: 0 <= j < |w| ==> NameChar(w[j])
  }

  /** What may follow a name. */
  predicate NameEnds(s: string, i: nat) {
    var c := At(s, i);
    i < |s| && (IsSpace(c) || c == '>' || c == '=' || (c == '/' && At(s, i + 1) == '>'))
  }

  lemma {:induction false} NameStops(s: string, i: nat, e: nat)
    requires i <= e && NameEnds(s, e) && forall j :: i <= j < e ==> NameChar(s[j])
    ensures TextStop(s, i) == e
    decreases e - i
  {
    if i < e {
      NameStops(s, i + 1, e);
    }
  }

  lemma NameToken(s: string, p: nat, w: string)
    requires IsName(w) && Has(s, p, w) && NameEnds(s, p + |w|)
    ensures TokenAt(s, p) ==
      Token(TextToken, p, |w|, if IsSpace(s[p + |w|]) then p + |w| + 1 else p + |w|, 0)
  {
    forall j | p <= j < p + |w| ensures NameChar(s[j]) {
      HasAt(s, p, w, j - p);
    }
    NameStops(s, p + 1, p + |w|);
    NoClearTag(s, p);
  }

  /** All clear tags open with an angle bracket. */
  lemma NoClearTag(s: string, p: nat)
    requires p < |s| && s[p] != '<'
    ensures ClearTagAt(s, p) == |CLEAR_TAGS|
  {
    forall k | 0 <= k < |CLEAR_TAGS| ensures !Has(s, p, CLEAR_TAGS[k].open) {
      if Has(s, p, CLEAR_TAGS[k].open) {
        HasAt(s, p, CLEAR_TAGS[k].open, 0);
      }
    }
  }

  predicate Plain(w: string) {
    forall j :: 0 <= j < |w| ==> w[j] != '<' && w[j] != '>' && w[j] != '\"' && w[j] != '\'' && w[j] != '\0'
  }

  lemma {:induction false} EscapePlain(v: string)
    requires '\0' !in v
    ensures Plain(Escape(v))
  {
    if v != "" {
      EscapePlain(v[1..]);
      var e, r := EscapeChar(v[0]), Escape(v[1..]);
      assert v[0] != '\0';
      forall j | 0 <= j < |e + r|
        ensures (e + r)[j] != '<' && (e + r)[j] != '>' && (e + r)[j] != '\"' && (e + r)[j] != '\'' && (e + r)[j] != '\0'
      {
        assert (e + r)[j] == if j < |e| then e[j] else r[j - |e|];
      }
    }
  }

  lemma {:induction false} QuoteEnds(s: string, i: nat, e: nat)
    requires i <= e < |s| && s[e] == '\"'
    requires forall j :: i <= j < e ==> s[j] != '\"' && s[j] != '<' && s[j] != '\0'
    ensures QuoteEnd(s, i, '\"') == Some(e + 1)
    decreases e - i
  {
    if i < e {
      QuoteEnds(s, i + 1, e);
    }
  }

  lemma QuotedToken(s: string, p: nat, w: string)
    requires Has(s, p, "\"" + w + "\"") && Plain(w)
    ensures TokenAt(s, p) == Token(QuotedText, p, |w| + 2, p + |w| + 2, 0)
    ensures s[p + 1..p + |w| + 1] == w
  {
    HasParts(s, p, "\"" + w, "\"");
    HasParts(s, p, "\"", w);
    HasAt(s, p, "\"", 0);
    HasAt(s, p + 1 + |w|, "\"", 0);
    forall j | p + 1 <= j < p + 1 + |w| ensures s[j] != '\"' && s[j] != '<' && s[j] != '\0' {
      HasAt(s, p + 1, w, j - p - 1);
    }
    QuoteEnds(s, p + 1, p + 1 + |w|);
    NoClearTag(s, p);
  }

  // ---------- The attributes of a tag ----------

  predicate NormalAttribute(a: Attribute) {
    IsName(a.name) && (a.value.Some? ==> '\0' !in a.value.value)
  }

  predicate NormalAttributes(attributes: seq<Attribute>) {
    forall k :: 0 <= k < |attributes| ==> NormalAttribute(attributes[k])
  }

  /** The tag ends at `e`. */
  predicate TagEndsAt(s: string, e: nat) {
    At(s, e) == '>' || (At(s, e) == '/' && At(s, e + 1) == '>')
  }

  /** What a parse does from the end of a start tag on. */
  function FromTagEnd(s: string, x: Cursor, d: Node, depth: nat, e: nat): Outcome
    requires TagEndsAt(s, e)
  {
    if s[e] == '>' then Parse(s, x.(index := e + 1, text := Some(e + 1)), d, depth, Outside)
    else Outcome(true, x.(index := e + 2, text := Some(e + 2)), d)
  }

  function Attributed(d: Node, attributes: seq<Attribute>): Node {
    d.(attributes := d.attributes + attributes)
  }

  lemma EndToken(s: string, e: nat)
    requires TagEndsAt(s, e)
    ensures TokenAt(s, e) ==
      if s[e] == '>' then Token(CloseTag, e, 1, e + 1, 0) else Token(ShortHandClose, e, 2, e + 2, 0)
  {
    NoClearTag(s, e);
  }

  /** Where attribute `k` stands when the attributes stand at `i`. */
  function AttributeAt(i: nat, attributes: seq<Attribute>, k: nat): nat
    requires k <= |attributes|
  {
    i + |RenderAttributes(attributes[..k])|
  }

  lemma {:induction false} AttributeStands(s: string, i: nat, attributes: seq<Attribute>, k: nat)
    requires NormalAttributes(attributes) && k < |attributes| && Has(s, i, RenderAttributes(attributes))
    ensures
      var p := AttributeAt(i, attributes, k);
      && Has(s, p, " " + RenderAttribute(attributes[k]))
      && AttributeAt(i, attributes, k + 1) == p + 1 + |RenderAttribute(attributes[k])|
  {
    hide NormalAttributes, RenderAttributes, RenderAttribute, Has;
    var n := |attributes| - 1;
    assert attributes[..|attributes|] == attributes;
    LastAttribute(attributes);
    HasParts(s, i, RenderAttributes(attributes[..n]), " " + RenderAttribute(attributes[n]));
    if k < n {
      assert attributes[..n][..k] == attributes[..k] && attributes[..n][..k + 1] == attributes[..k + 1];
      AttributeStands(s, i, attributes[..n], k);
    }
  }

  lemma LastAttribute(attributes: seq<Attribute>)
    requires NormalAttributes(attributes) && attributes != []
    ensures
      var n := |attributes| - 1;
      && NormalAttributes(attributes[..n])
      && RenderAttributes(attributes) == RenderAttributes(attributes[..n]) + (" " + RenderAttribute(attributes[n]))
  {
  }

  /** Attribute `k` is looked for at `j`: at the space in front of it or behind that space. */
  predicate LookingAt(s: string, i: nat, attributes: seq<Attribute>, k: nat, j: nat) {
    && k <= |attributes|
    && var p := AttributeAt(i, attributes, k);
    j == p || (j == p + 1 && p < |s| && IsSpace(s[p]))
  }

  predicate Tag(s: string, i: nat, attributes: seq<Attribute>, e: nat) {
    && NormalAttributes(attributes) && Has(s, i, RenderAttributes(attributes))
    && e == i + |RenderAttributes(attributes)| && TagEndsAt(s, e)
  }

  /** The name of attribute `k` as a token. */
  function NameTokenOf(s: string, i: nat, attributes: seq<Attribute>, k: nat): Token
    requires k < |attributes|
  {
    var p := AttributeAt(i, attributes, k) + 1;
    var n := |attributes[k].name|;
    Token(TextToken, p, n, if IsSpace(At(s, p + n)) then p + n + 1 else p + n, 0)
  }

  lemma TokenLookedFor(s: string, i: nat, attributes: seq<Attribute>, k: nat, j: nat, e: nat)
    requires Tag(s, i, attributes, e) && LookingAt(s, i, attributes, k, j)
    ensures k < |attributes| ==> NextToken(s, j) == NameTokenOf(s, i, attributes, k)
    ensures k == |attributes| ==> NextToken(s, j) == TokenAt(s, e)
  {
    hide RenderAttribute, Escape, TokenAt, RenderAttributes;
    var p := AttributeAt(i, attributes, k);
    if k == |attributes| {
      assert attributes[..k] == attributes;
      SkipBlank(s, j, e);
    } else {
      var a := attributes[k];
      AttributeStands(s, i, attributes, k);
      AttributeName(s, i, attributes, k, e);
      SkipBlank(s, j, p + 1);
      NameToken(s, p + 1, a.name);
    }
  }

  /** The name of attribute `k`, and what stands behind it. */
  lemma AttributeName(s: string, i: nat, attributes: seq<Attribute>, k: nat, e: nat)
    requires Tag(s, i, attributes, e) && k < |attributes|
    ensures
      var p, a := AttributeAt(i, attributes, k), attributes[k];
      && p < |s| && s[p] == ' ' && Has(s, p + 1, a.name) && IsName(a.name) && NameChar(s[p + 1])
      && NameEnds(s, p + 1 + |a.name|)
      && (a.value.None? ==> LookingAt(s, i, attributes, k + 1, NameTokenOf(s, i, attributes, k).next))
      && (a.value.Some? ==>
            && s[p + 1 + |a.name|] == '=' && Plain(Escape(a.value.value))
            && Has(s, p + 2 + |a.name|, "\"" + Escape(a.value.value) + "\"")
            && AttributeAt(i, attributes, k + 1) == p + 2 + |a.name| + |Escape(a.value.value)| + 2)
  {
    hide RenderAttribute, Escape, RenderAttributes;
    var p, a := AttributeAt(i, attributes, k), attributes[k];
    AttributeStands(s, i, attributes, k);
    HasAt(s, p, " " + RenderAttribute(a), 0);
    HasParts(s, p, " ", RenderAttribute(a));
    AttributeValue(s, p + 1, a);
    HasAt(s, p + 1, a.name, 0);
    if a.value.None? {
      if k + 1 < |attributes| {
        AttributeStands(s, i, attributes, k + 1);
        HasAt(s, p + 1 + |a.name|, " " + RenderAttribute(attributes[k + 1]), 0);
      } else {
        assert attributes[..k + 1] == attributes;
      }
    }
  }

  lemma AttributeValue(s: string, p: nat, a: Attribute)
    requires Has(s, p, RenderAttribute(a)) && NormalAttribute(a)
    ensures Has(s, p, a.name)
    ensures a.value.None? ==> |RenderAttribute(a)| == |a.name|
    ensures a.value.Some? ==>
      && |RenderAttribute(a)| == |a.name| + |Escape(a.value.value)| + 3
      && p + |a.name| < |s| && s[p + |a.name|] == '=' && Plain(Escape(a.value.value))
      && Has(s, p + 1 + |a.name|, "\"" + Escape(a.value.value) + "\"")
  {
    hide Has, RenderAttribute, Escape, Plain;
    AttributeIs(a);
    if a.value.Some? {
      var v := Escape(a.value.value);
      EscapePlain(a.value.value);
      HasParts(s, p, a.name, "=" + ("\"" + v + "\""));
      HasAt(s, p + |a.name|, "=" + ("\"" + v + "\""), 0);
      HasParts(s, p + |a.name|, "=", "\"" + v + "\"");
    }
  }

  lemma AttributeIs(a: Attribute)
    ensures a.value.None? ==> RenderAttribute(a) == a.name
    ensures a.value.Some? ==> RenderAttribute(a) == a.name + ("=" + ("\"" + Escape(a.value.value) + "\""))
  {
  }

  // One step of a parse inside a tag, for each kind of token.

  lemma StepName(s: string, x: Cursor, d: Node, depth: nat)
    requires Good(s, x) && NextToken(s, x.index).kind == TextToken
    ensures
      var t := NextToken(s, x.index);
      Parse(s, x, d, depth, AttribName) == Parse(s, x.(index := t.next), d, depth, AttribEquals(t.start, t.len))
  {
    hide TokenAt, SkipSpaces, MaybeAddText, ParseChild, CloseTagBehind, ParseEndTag, ParseClear;
  }

  lemma StepUnvalued(s: string, x: Cursor, d: Node, depth: nat, start: nat, len: nat)
    requires Good(s, x) && NextToken(s, x.index).kind == TextToken && start + len <= |s| && len >= 1
    ensures
      var t := NextToken(s, x.index);
      Parse(s, x, d, depth, AttribEquals(start, len))
      == Parse(s, x.(index := t.next), AddAttribute(d, s[start..start + len], None), depth,
               AttribEquals(t.start, t.len))
  {
    hide TokenAt, SkipSpaces, MaybeAddText, ParseChild, CloseTagBehind, ParseEndTag, ParseClear;
  }

  lemma StepEquals(s: string, x: Cursor, d: Node, depth: nat, start: nat, len: nat)
    requires Good(s, x) && NextToken(s, x.index).kind == Equals && start + len <= |s| && len >= 1
    ensures
      var t := NextToken(s, x.index);
      Parse(s, x, d, depth, AttribEquals(start, len))
      == Parse(s, x.(index := t.next), d, depth, AttribValue(start, len))
  {
    hide TokenAt, SkipSpaces, MaybeAddText, ParseChild, CloseTagBehind, ParseEndTag, ParseClear;
  }

  lemma StepValue(s: string, x: Cursor, d: Node, depth: nat, start: nat, len: nat, v: string)
    requires Good(s, x) && NextToken(s, x.index).kind == QuotedText && start + len <= |s| && len >= 1
    requires
      var t := NextToken(s, x.index);
      Decode(s[t.start + 1..t.start + t.len - 1]) == Text(v)
    ensures
      var t := NextToken(s, x.index);
      Parse(s, x, d, depth, AttribValue(start, len))
      == Parse(s, x.(index := t.next), AddAttribute(d, s[start..start + len], Some(v)), depth, AttribName)
  {
    hide TokenAt, SkipSpaces, MaybeAddText, ParseChild, CloseTagBehind, ParseEndTag, ParseClear;
  }

  /** The end of the tag without a pending attribute. */
  lemma StepTagEnd(s: string, x: Cursor, d: Node, depth: nat, e: nat)
    requires Good(s, x) && TagEndsAt(s, e) && NextToken(s, x.index) == TokenAt(s, e)
    ensures Parse(s, x, d, depth, AttribName) == FromTagEnd(s, x, d, depth, e)
  {
    hide TokenAt, SkipSpaces, MaybeAddText, ParseChild, ParseEndTag, ParseClear, CloseTagBehind;
    EndToken(s, e);
  }

  lemma StepEndBehind(s: string, x: Cursor, d: Node, depth: nat, start: nat, len: nat)
    requires Good(s, x) && start + len <= |s| && len >= 1
    requires NextToken(s, x.index).kind == CloseTag || NextToken(s, x.index).kind == ShortHandClose
    ensures
      var t := NextToken(s, x.index);
      Parse(s, x, d, depth, AttribEquals(start, len))
      == CloseTagBehind(s, x.(index := t.next), d, depth, start, len, t.kind)
  {
    hide TokenAt, SkipSpaces, MaybeAddText, ParseChild, ParseEndTag, ParseClear, CloseTagBehind;
  }

  lemma StepTagEndBehind(s: string, x: Cursor, d: Node, depth: nat, e: nat, start: nat, len: nat)
    requires Good(s, x) && TagEndsAt(s, e) && NextToken(s, x.index) == TokenAt(s, e)
    requires start + len <= |s| && len >= 1 && !d.isDeclaration
    ensures Parse(s, x, d, depth, AttribEquals(start, len))
      == FromTagEnd(s, x, AddAttribute(d, s[start..start + len], None), depth, e)
  {
    hide Parse, TokenAt, NextToken;
    EndToken(s, e);
    StepEndBehind(s, x, d, depth, start, len);
  }

  // The attributes one by one: a name is looked for, a name was read, a name without value is pending.

  lemma {:induction false} ParseNames(s: string, i: nat, attributes: seq<Attribute>, e: nat, k: nat,
                                      x: Cursor, d: Node, depth: nat)
    requires Tag(s, i, attributes, e) && LookingAt(s, i, attributes, k, x.index) && Good(s, x) && !d.isDeclaration
    ensures Parse(s, x, d, depth, AttribName) == FromTagEnd(s, x, Attributed(d, attributes[k..]), depth, e)
    decreases |attributes| - k, 1
  {
    hide Parse, FromTagEnd, Tag, TokenAt, SkipSpaces;
    TokenLookedFor(s, i, attributes, k, x.index, e);
    if k == |attributes| {
      TagIsEnded(s, i, attributes, e);
      StepTagEnd(s, x, d, depth, e);
      assert d.attributes + attributes[k..] == d.attributes;
    } else {
      StepName(s, x, d, depth);
      ParseNamed(s, i, attributes, e, k, x.(index := NameTokenOf(s, i, attributes, k).next), d, depth);
      TagIsEnded(s, i, attributes, e);
      FromAnywhere(s, x, NameTokenOf(s, i, attributes, k).next, Attributed(d, attributes[k..]), depth, e);
    }
  }

  lemma TagIsEnded(s: string, i: nat, attributes: seq<Attribute>, e: nat)
    requires Tag(s, i, attributes, e)
    ensures TagEndsAt(s, e)
  {
  }

  lemma {:induction false} ParsePending(s: string, i: nat, attributes: seq<Attribute>, e: nat, k: nat,
                                        x: Cursor, d: Node, depth: nat, start: nat, len: nat)
    requires Tag(s, i, attributes, e) && LookingAt(s, i, attributes, k, x.index) && Good(s, x) && !d.isDeclaration
    requires start + len <= |s| && len >= 1
    ensures Parse(s, x, d, depth, AttribEquals(start, len)) ==
      FromTagEnd(s, x, Attributed(AddAttribute(d, s[start..start + len], None), attributes[k..]), depth, e)
    decreases |attributes| - k, 1
  {
    hide Parse, FromTagEnd, Tag, TokenAt, SkipSpaces;
    var d' := AddAttribute(d, s[start..start + len], None);
    TokenLookedFor(s, i, attributes, k, x.index, e);
    if k == |attributes| {
      TagIsEnded(s, i, attributes, e);
      StepTagEndBehind(s, x, d, depth, e, start, len);
      assert d'.attributes + attributes[k..] == d'.attributes;
    } else {
      StepUnvalued(s, x, d, depth, start, len);
      ParseNamed(s, i, attributes, e, k, x.(index := NameTokenOf(s, i, attributes, k).next), d', depth);
      TagIsEnded(s, i, attributes, e);
      FromAnywhere(s, x, NameTokenOf(s, i, attributes, k).next, Attributed(d', attributes[k..]), depth, e);
    }
  }

  lemma {:induction false} ParseNamed(s: string, i: nat, attributes: seq<Attribute>, e: nat, k: nat,
                                      x: Cursor, d: Node, depth: nat)
    requires Tag(s, i, attributes, e) && k < |attributes| && Good(s, x) && !d.isDeclaration
    requires x.index == NameTokenOf(s, i, attributes, k).next
    ensures
      var t := NameTokenOf(s, i, attributes, k);
      && t.start + t.len <= |s| && t.len >= 1
      && Parse(s, x, d, depth, AttribEquals(t.start, t.len))
         == FromTagEnd(s, x, Attributed(d, attributes[k..]), depth, e)
    decreases |attributes| - k, 0
  {
    hide Parse, FromTagEnd, Tag, NextToken, LookingAt, NormalAttribute, RenderAttributes, NameEnds, IsName;
    var a := attributes[k];
    var t := NameTokenOf(s, i, attributes, k);
    AttributeName(s, i, attributes, k, e);
    OneMore(d, a, attributes, k);
    TagIsEnded(s, i, attributes, e);
    NameIs(s, t.start, a.name);
    if a.value.None? {
      ParsePending(s, i, attributes, e, k + 1, x, d, depth, t.start, t.len);
    } else {
      var j := AttributeAt(i, attributes, k + 1);
      ParseNamedValue(s, i, attributes, e, k, x, d, depth);
      ParseNames(s, i, attributes, e, k + 1, x.(index := j), AddAttribute(d, a.name, a.value), depth);
      FromAnywhere(s, x, j, Attributed(d, attributes[k..]), depth, e);
    }
  }

  /** The value of the attribute whose name was read. */
  lemma ParseNamedValue(s: string, i: nat, attributes: seq<Attribute>, e: nat, k: nat,
                        x: Cursor, d: Node, depth: nat)
    requires Tag(s, i, attributes, e) && k < |attributes| && Good(s, x) && attributes[k].value.Some?
    requires x.index == NameTokenOf(s, i, attributes, k).next
    ensures
      var t, a, j := NameTokenOf(s, i, attributes, k), attributes[k], AttributeAt(i, attributes, k + 1);
      && t.start + t.len <= |s| && t.len >= 1 && x.index <= j <= |s| && LookingAt(s, i, attributes, k + 1, j)
      && Parse(s, x, d, depth, AttribEquals(t.start, t.len))
         == Parse(s, x.(index := j), AddAttribute(d, a.name, a.value), depth, AttribName)
  {
    hide Parse, Tag, LookingAt, NormalAttribute, RenderAttributes, NameEnds;
    var a, t := attributes[k], NameTokenOf(s, i, attributes, k);
    AttributeName(s, i, attributes, k, e);
    NameIs(s, t.start, a.name);
    ParseValue(s, t.start + t.len, x, d, depth, t.start, t.len, a.value.value);
    LookingThere(s, i, attributes, k + 1);
  }

  lemma NameIs(s: string, p: nat, w: string)
    requires Has(s, p, w) && IsName(w)
    ensures p + |w| <= |s| && s[p..p + |w|] == w && |w| >= 1
  {
  }

  lemma LookingThere(s: string, i: nat, attributes: seq<Attribute>, k: nat)
    requires k <= |attributes|
    ensures LookingAt(s, i, attributes, k, AttributeAt(i, attributes, k))
  {
  }

  lemma FromAnywhere(s: string, x: Cursor, j: nat, d: Node, depth: nat, e: nat)
    requires TagEndsAt(s, e)
    ensures FromTagEnd(s, x.(index := j), d, depth, e) == FromTagEnd(s, x, d, depth, e)
  {
    hide Parse;
  }

  /** The equals sign and the value of an attribute. */
  lemma ParseValue(s: string, p: nat, x: Cursor, d: Node, depth: nat, start: nat, len: nat, value: string)
    requires Good(s, x) && x.index == p && start + len <= |s| && len >= 1
    requires p < |s| && s[p] == '=' && Has(s, p + 1, "\"" + Escape(value) + "\"") && Plain(Escape(value))
    ensures
      var j := p + 1 + |Escape(value)| + 2;
      && j <= |s|
      && Parse(s, x, d, depth, AttribEquals(start, len))
         == Parse(s, x.(index := j), AddAttribute(d, s[start..start + len], Some(value)), depth, AttribName)
  {
    hide Parse, NextToken, Has, Plain, Escape, Decode;
    ValueTokens(s, p, Escape(value));
    StepEquals(s, x, d, depth, start, len);
    DecodeEscape(value);
    StepValue(s, x.(index := p + 1), d, depth, start, len, value);
  }

  lemma OneMore(d: Node, a: Attribute, attributes: seq<Attribute>, k: nat)
    requires k < |attributes| && a == attributes[k]
    ensures Attributed(AddAttribute(d, a.name, a.value), attributes[k + 1..]) == Attributed(d, attributes[k..])
  {
    assert d.attributes + [a] + attributes[k + 1..] == d.attributes + attributes[k..];
  }

  /** The equals sign at `p` and the quoted value behind it. */
  lemma ValueTokens(s: string, p: nat, v: string)
    requires p < |s| && s[p] == '=' && Has(s, p + 1, "\"" + v + "\"") && Plain(v)
    ensures NextToken(s, p) == Token(Equals, p, 1, p + 1, 0)
    ensures NextToken(s, p + 1) == Token(QuotedText, p + 1, |v| + 2, p + 1 + |v| + 2, 0)
    ensures p + 2 + |v| <= |s| && s[p + 2..p + 2 + |v|] == v
  {
    NoClearTag(s, p);
    QuotedToken(s, p + 1, v);
    HasAt(s, p + 1, "\"" + v + "\"", 0);
    SkipBlank(s, p, p);
    SkipBlank(s, p + 1, p + 1);
  }

  // ---------- Pending texts ----------

  predicate Trimmed(w: string) {
    w != "" && !IsSpace(w[0]) && !IsSpace(w[|w| - 1]) && '\0' !in w
  }

  lemma EscapeTrimmed(w: string)
    requires Trimmed(w)
    ensures Escape(w) != "" && !IsSpace(Escape(w)[0]) && !IsSpace(Escape(w)[|Escape(w)| - 1])
  {
    hide Escape;
    var n := |w| - 1;
    EscapeMore(w, n);
    assert w[..n + 1] == w;
    EscapeFirst(w);
    EscapeLast(Escape(w[..n]), w[n]);
  }

  lemma EscapeFirst(w: string)
    requires w != ""
    ensures Escape(w) != "" && (IsSpace(Escape(w)[0]) ==> IsSpace(w[0]))
  {
    assert |EscapeChar(w[0])| > 0;
  }

  lemma EscapeLast(a: string, c: char)
    ensures IsSpace((a + EscapeChar(c))[|a + EscapeChar(c)| - 1]) ==> IsSpace(c)
  {
    var e := EscapeChar(c);
    assert (a + e)[|a + e| - 1] == e[|e| - 1];
  }

  lemma {:induction false} TrimStartIs(s: string, a: nat, m: nat, b: nat)
    requires Blank(s, a, m) && m <= b <= |s| && (m < b ==> !IsSpace(s[m]))
    ensures TrimStart(s, a, b) == m
    decreases m - a
  {
    if a < m {
      TrimStartIs(s, a + 1, m, b);
    }
  }

  lemma {:induction false} TrimEndIs(s: string, a: nat, e: nat, b: nat)
    requires a < e && Blank(s, e, b) && !IsSpace(s[e - 1])
    ensures TrimEnd(s, a, b) == e
    decreases b
  {
    if e < b {
      TrimEndIs(s, a, e, b - 1);
    }
  }

  lemma MaybeBlank(s: string, x: Cursor, d: Node, p: nat)
    requires x.text.Some? && Blank(s, x.text.value, p)
    ensures MaybeAddText(s, x, d, p) == Outcome(true, x.(text := None), d)
  {
    TrimStartIs(s, x.text.value, p, p);
  }

  lemma MaybeText(s: string, x: Cursor, d: Node, p: nat, a: nat, w: string)
    requires x.text.Some? && Trimmed(w) && Blank(s, x.text.value, a) && Has(s, a, Escape(w))
    requires Blank(s, a + |Escape(w)|, p)
    ensures MaybeAddText(s, x, d, p) == Outcome(true, x.(text := None), AddText(d, w))
  {
    hide Escape, CountFrom, StoreFrom, Find;
    var e := a + |Escape(w)|;
    EscapeTrimmed(w);
    HasAt(s, a, Escape(w), 0);
    HasAt(s, a, Escape(w), |Escape(w)| - 1);
    TrimStartIs(s, x.text.value, a, p);
    TrimEndIs(s, a, e, p);
    DecodeEscape(w);
  }

  /** The pending text does not depend on where the parse is. */
  lemma MaybeAnywhere(s: string, x: Cursor, d: Node, p: nat, j: nat, d': Node)
    requires (x.text.Some? ==> x.text.value <= p) && p <= |s|
    requires MaybeAddText(s, x, d, p) == Outcome(true, x.(text := None), d')
    ensures MaybeAddText(s, x.(index := j), d, p) == Outcome(true, x.(index := j, text := None), d')
  {
    hide Decode, TrimStart, TrimEnd, AddText;
  }

  /** No character up to `p` can start a tag or a quotation. */
  predicate PlainUpTo(s: string, i: nat, p: nat) {
    && i <= p < |s| && s[p] == '<'
    && forall j :: i <= j < p ==> s[j] != '<' && s[j] != '>' && s[j] != '\"' && s[j] != '\'' && s[j] != '\0'
  }

  lemma {:induction false} SkipWithin(s: string, i: nat, p: nat)
    requires PlainUpTo(s, i, p)
    ensures SkipSpaces(s, i) <= p
    decreases p - i
  {
    if i < p {
      SkipWithin(s, i + 1, p);
    }
  }

  lemma {:induction false} StopWithin(s: string, i: nat, p: nat)
    requires PlainUpTo(s, i, p)
    ensures TextStop(s, i) <= p
    ensures TextStop(s, i) < p ==> IsSpace(s[TextStop(s, i)]) || s[TextStop(s, i)] == '='
    decreases p - i
  {
    if i < p {
      StopWithin(s, i + 1, p);
    }
  }

  lemma TokenWithin(s: string, i: nat, p: nat)
    requires PlainUpTo(s, i, p)
    ensures
      var t := NextToken(s, i);
      t.start == p || ((t.kind == TextToken || t.kind == Equals) && i < t.next <= p)
  {
    SkipWithin(s, i, p);
    var q := SkipSpaces(s, i);
    if q < p {
      NoClearTag(s, q);
      if s[q] != '=' {
        StopWithin(s, q + 1, p);
      }
    }
  }

  lemma StepText(s: string, x: Cursor, d: Node, depth: nat)
    requires Good(s, x) && (NextToken(s, x.index).kind == TextToken || NextToken(s, x.index).kind == Equals)
    ensures Parse(s, x, d, depth, Outside) == Parse(s, x.(index := NextToken(s, x.index).next), d, depth, Outside)
  {
    hide TokenAt, SkipSpaces, MaybeAddText, ParseChild, CloseTagBehind, ParseEndTag, ParseClear;
  }

  lemma StepSame(s: string, x: Cursor, d: Node, depth: nat, p: nat)
    requires Good(s, x) && Good(s, x.(index := p)) && NextToken(s, x.index) == NextToken(s, p)
    ensures Parse(s, x, d, depth, Outside) == Parse(s, x.(index := p), d, depth, Outside)
  {
    hide TokenAt, SkipSpaces, MaybeAddText, ParseChild, CloseTagBehind, ParseEndTag, ParseClear;
  }

  /** A text is read over up to the next tag. */
  lemma {:induction false} SkipToTag(s: string, x: Cursor, d: Node, depth: nat, p: nat)
    requires Good(s, x) && PlainUpTo(s, x.index, p)
    ensures Parse(s, x, d, depth, Outside) == Parse(s, x.(index := p), d, depth, Outside)
    decreases p - x.index
  {
    hide Parse, TokenAt;
    var t := NextToken(s, x.index);
    TokenWithin(s, x.index, p);
    if t.start == p {
      SkipBlank(s, p, p);
      StepSame(s, x, d, depth, p);
    } else {
      StepText(s, x, d, depth);
      SkipToTag(s, x.(index := t.next), d, depth, p);
    }
  }

  // ---------- End tags ----------

  lemma EndTagParts(s: string, p: nat, name: string)
    requires Has(s, p, "</" + name + ">") && IsName(name)
    ensures p + 3 + |name| <= |s| && s[p] == '<' && s[p + 1] == '/' && s[p + 2 + |name|] == '>'
    ensures Has(s, p + 2, name) && NameChar(s[p + 2])
  {
    HasParts(s, p, "</" + name, ">");
    HasParts(s, p, "</", name);
    HasAt(s, p, "</", 0);
    HasAt(s, p, "</", 1);
    HasAt(s, p + 2 + |name|, ">", 0);
    HasAt(s, p + 2, name, 0);
  }

  lemma EndTagStart(s: string, p: nat)
    requires p + 1 < |s| && s[p] == '<' && s[p + 1] == '/'
    ensures NextToken(s, p) == Token(TagEnd, p, 2, p + 2, 0)
  {
    hide Has, QuoteEnd, TextStop;
    NoOpening(s, p);
    SkipBlank(s, p, p);
  }

  lemma CloseToken(s: string, p: nat)
    requires p < |s| && s[p] == '>'
    ensures NextToken(s, p) == Token(CloseTag, p, 1, p + 1, 0)
  {
    hide Has, QuoteEnd, TextStop;
    SkipBlank(s, p, p);
    NoClearTag(s, p);
  }

  lemma EndTagName(s: string, p: nat, name: string)
    requires IsName(name) && Has(s, p, name) && p + |name| < |s| && s[p + |name|] == '>' && NameChar(s[p])
    ensures NextToken(s, p) == Token(TextToken, p, |name|, p + |name|, 0)
  {
    hide Has, QuoteEnd, TextStop, TokenAt;
    SkipBlank(s, p, p);
    NameToken(s, p, name);
  }

  lemma EndTagTokens(s: string, p: nat, name: string)
    requires Has(s, p, "</" + name + ">") && IsName(name)
    ensures p + 3 + |name| <= |s|
    ensures NextToken(s, p) == Token(TagEnd, p, 2, p + 2, 0)
    ensures NextToken(s, p + 2) == Token(TextToken, p + 2, |name|, p + 2 + |name|, 0)
    ensures NextToken(s, p + 2 + |name|) == Token(CloseTag, p + 2 + |name|, 1, p + 3 + |name|, 0)
  {
    hide Has, NextToken, IsName, NameChar;
    EndTagParts(s, p, name);
    EndTagStart(s, p);
    EndTagName(s, p + 2, name);
    CloseToken(s, p + 2 + |name|);
  }

  lemma EndTagSame(s: string, p: nat, name: string)
    requires Has(s, p, "</" + name + ">") && IsName(name)
    ensures SameTag(Some(name), s, p + 2)
  {
    EndTagParts(s, p, name);
    forall j | 0 <= j < |name| ensures s[p + 2 + j] == name[j] {
      HasAt(s, p + 2, name, j);
    }
  }

  /** All clear tags but the last one go on with an exclamation mark. */
  lemma NoOpening(s: string, p: nat)
    requires p + 1 < |s| && s[p + 1] != '!' && (s[p + 1] != 'P' || !Has(s, p, CLEAR_TAGS[3].open))
    ensures ClearTagAt(s, p) == |CLEAR_TAGS|
  {
    forall k | 0 <= k < |CLEAR_TAGS|
      ensures !Has(s, p, CLEAR_TAGS[k].open)
    {
      if Has(s, p, CLEAR_TAGS[k].open) {
        HasAt(s, p, CLEAR_TAGS[k].open, 1);
      }
    }
  }

  lemma StepEndTag(s: string, x: Cursor, d0: Node, d: Node, depth: nat, p: nat)
    requires Good(s, x) && x.index == p && NextToken(s, p) == Token(TagEnd, p, 2, p + 2, 0)
    requires MaybeAddText(s, x, d0, p) == Outcome(true, x.(text := None), d)
    ensures Parse(s, x, d0, depth, Outside) == ParseEndTag(s, x.(index := p + 2, text := None), d)
  {
    MaybeAnywhere(s, x, d0, p, p + 2, d);
    hide TokenAt, SkipSpaces, MaybeAddText, ParseChild, CloseTagBehind, ParseEndTag, ParseClear;
  }

  lemma ParseClosing(s: string, x: Cursor, d0: Node, d: Node, depth: nat, p: nat, name: string)
    requires Good(s, x) && x.index == p && Has(s, p, "</" + name + ">") && IsName(name)
    requires d.name == Some(name) && MaybeAddText(s, x, d0, p) == Outcome(true, x.(text := None), d)
    ensures
      var e := p + 3 + |name|;
      Parse(s, x, d0, depth, Outside) == Outcome(true, x.(index := e, text := Some(e)), d)
  {
    hide Parse, TokenAt, SkipSpaces, MaybeAddText, SameTag, Has;
    EndTagTokens(s, p, name);
    EndTagSame(s, p, name);
    StepEndTag(s, x, d0, d, depth, p);
  }

  // ---------- Clear tags ----------

  predicate Contains(v: string, w: string) {
    exists j :: 0 <= j <= |v| && Has(v, j, w)
  }

  /** The contents of a clear tag do not end it too early. */
  predicate NormalClear(open: string, value: string, close: string) {
    exists k {:trigger CLEAR_TAGS[k]} ::
      0 <= k < |CLEAR_TAGS| && open == CLEAR_TAGS[k].open && ClosesOnce(k, value, close)
  }

  predicate ClosesOnce(k: nat, value: string, close: string)
    requires k < |CLEAR_TAGS|
  {
    && '\0' !in value
    && (if k != DOCTYPE then close == CLEAR_TAGS[k].close && !Contains(value, close)
        else if FindBracket(value, 0).None? then close == ">"
        else value[FindBracket(value, 0).value] == '<' && close == "]>" && !Contains(value, close))
  }

  /** An angle bracket ends `w` and stands nowhere else in it. */
  predicate Closer(w: string) {
    w != "" && w[|w| - 1] == '>' && forall j :: 0 <= j < |w| - 1 ==> w[j] != '>'
  }

  lemma {:induction false} FindIs(s: string, i: nat, w: string, e: nat)
    requires i <= e && Has(s, e, w) && forall j :: i <= j < e ==> !Has(s, j, w)
    ensures Find(s, i, w) == Some(e)
    decreases e - i
  {
    if i < e {
      FindIs(s, i + 1, w, e);
    }
  }

  lemma HasInside(s: string, i: nat, v: string, j: nat, w: string)
    requires Has(s, i, v) && Has(s, j, w) && i <= j && j + |w| <= i + |v|
    ensures Contains(v, w)
  {
    var o := j - i;
    forall q | 0 <= q < |w|
      ensures v[o + q] == w[q]
    {
      HasAt(s, i, v, o + q);
      HasAt(s, j, w, q);
    }
    assert v[o..o + |w|] == w;
    assert Has(v, o, w);
  }

  lemma FindBehind(s: string, i: nat, v: string, w: string)
    requires Has(s, i, v) && Has(s, i + |v|, w) && Closer(w) && !Contains(v, w)
    ensures Find(s, i, w) == Some(i + |v|)
  {
    forall j | i <= j < i + |v|
      ensures !Has(s, j, w)
    {
      assert Has(s, j, w) ==> s[j + |w| - 1] == '>' by {
        if Has(s, j, w) {
          HasAt(s, j, w, |w| - 1);
        }
      }
      if j + |w| <= i + |v| {
        assert Has(s, j, w) ==> Contains(v, w) by {
          if Has(s, j, w) {
            HasInside(s, i, v, j, w);
          }
        }
      } else {
        HasAt(s, i + |v|, w, j + |w| - 1 - (i + |v|));
      }
    }
    FindIs(s, i, w, i + |v|);
  }

  lemma {:induction false} BracketBehind(s: string, i: nat, v: string, j: nat)
    requires Has(s, i, v) && '\0' !in v && j <= |v|
    ensures FindBracket(v, j).Some? ==> FindBracket(s, i + j) == Some(i + FindBracket(v, j).value)
    ensures FindBracket(v, j).None? ==> FindBracket(s, i + j) == FindBracket(s, i + |v|)
    decreases |v| - j
  {
    if j < |v| {
      HasAt(s, i, v, j);
      assert v[j] in v;
      BracketBehind(s, i, v, j + 1);
    }
  }

  lemma ClosingFound(s: string, i: nat, k: nat, value: string, close: string)
    requires k < |CLEAR_TAGS| && ClosesOnce(k, value, close) && Has(s, i, value) && Has(s, i + |value|, close)
    ensures FindClosing(s, i, k) == Closing(Some(i + |value|), close)
  {
    if k == DOCTYPE {
      BracketBehind(s, i, value, 0);
      if FindBracket(value, 0).Some? {
        HasAt(s, i, value, FindBracket(value, 0).value);
        FindBehind(s, i, value, close);
      } else {
        HasAt(s, i + |value|, close, 0);
      }
    } else {
      assert CLEAR_TAGS[0].close == "]]>" && CLEAR_TAGS[2].close == "-->" && CLEAR_TAGS[3].close == "</PRE>";
      FindBehind(s, i, value, close);
    }
  }

  lemma ClearToken(s: string, p: nat, k: nat)
    requires k < |CLEAR_TAGS| && Has(s, p, CLEAR_TAGS[k].open)
    ensures NextToken(s, p) == Token(Clear, p, |CLEAR_TAGS[k].open|, p + |CLEAR_TAGS[k].open|, k)
  {
    HasAt(s, p, CLEAR_TAGS[k].open, 0);
    HasAt(s, p, CLEAR_TAGS[k].open, 1);
    HasAt(s, p, CLEAR_TAGS[k].open, 2);
    forall j | 0 <= j < |CLEAR_TAGS| && Has(s, p, CLEAR_TAGS[j].open)
      ensures j == k
    {
      HasAt(s, p, CLEAR_TAGS[j].open, 1);
      HasAt(s, p, CLEAR_TAGS[j].open, 2);
    }
    SkipBlank(s, p, p);
  }

  lemma ClearParsed(s: string, x: Cursor, d: Node, p: nat, k: nat, value: string, close: string)
    requires k < |CLEAR_TAGS| && Has(s, p, CLEAR_TAGS[k].open + value + close) && ClosesOnce(k, value, close)
    requires Good(s, x) && x.index == p + |CLEAR_TAGS[k].open|
    ensures NextToken(s, p) == Token(Clear, p, |CLEAR_TAGS[k].open|, x.index, k)
    ensures
      var e := p + |CLEAR_TAGS[k].open + value + close|;
      ParseClear(s, x, d, k) ==
        Outcome(true, x.(index := e), d.(content := d.content + [ClearNode(CLEAR_TAGS[k].open, value, close)]))
  {
    hide TokenAt, SkipSpaces, FindClosing, ClosesOnce, Has;
    var open := CLEAR_TAGS[k].open;
    HasParts(s, p, open + value, close);
    HasParts(s, p, open, value);
    ClearToken(s, p, k);
    ClosingFound(s, p + |open|, k, value, close);
    ValueThere(s, p + |open|, value);
  }

  lemma KindOf(open: string, value: string, close: string) returns (k: nat)
    requires NormalClear(open, value, close)
    ensures k < |CLEAR_TAGS| && open == CLEAR_TAGS[k].open && ClosesOnce(k, value, close)
  {
    k :| 0 <= k < |CLEAR_TAGS| && open == CLEAR_TAGS[k].open && ClosesOnce(k, value, close);
  }

  lemma ClearFits(s: string, p: nat, w: string)
    requires Has(s, p, w)
    ensures p + |w| <= |s|
  {
  }

  lemma ParseClearNode(s: string, x: Cursor, d0: Node, d: Node, depth: nat, p: nat,
                       open: string, value: string, close: string)
    requires Good(s, x) && x.index == p && NormalClear(open, value, close) && Has(s, p, open + value + close)
    requires MaybeAddText(s, x, d0, p) == Outcome(true, x.(text := None), d)
    ensures
      var e := p + |open + value + close|;
      && e <= |s|
      && Parse(s, x, d0, depth, Outside) == Parse(s, x.(index := e, text := Some(e)),
           d.(content := d.content + [ClearNode(open, value, close)]), depth, Outside)
  {
    hide *;
    var k := KindOf(open, value, close);
    ClearFits(s, p, open + value + close);
    GoodBare(s, x, p + |open|);
    var x1 := x.(index := p + |open|, text := None);
    ClearParsed(s, x1, d, p, k, value, close);
    MaybeAnywhere(s, x, d0, p, p + |open|, d);
    StepClear(s, x, d0, depth, NextToken(s, p), Outcome(true, x1, d), ParseClear(s, x1, d, k));
  }

  lemma GoodBare(s: string, x: Cursor, j: nat)
    requires Good(s, x)
    ensures x.index <= |s| && (x.text.Some? ==> x.text.value <= x.index)
    ensures j <= |s| ==> Good(s, x.(index := j, text := None))
  {
  }

  lemma ValueThere(s: string, p: nat, w: string)
    requires Has(s, p, w)
    ensures p + |w| <= |s| && s[p..p + |w|] == w
  {
  }

  lemma StepClear(s: string, x: Cursor, d0: Node, depth: nat, t: Token, m: Outcome, c: Outcome)
    requires Good(s, x) && t == NextToken(s, x.index) && t.kind == Clear
    requires m == MaybeAddText(s, x.(index := t.next), d0, t.start) && m.more
    requires c == ParseClear(s, m.x, m.d, t.clear) && c.more
    ensures Parse(s, x, d0, depth, Outside) == Parse(s, c.x.(text := Some(c.x.index)), c.d, depth, Outside)
  {
    hide TokenAt, SkipSpaces, MaybeAddText, ParseChild, CloseTagBehind, ParseEndTag, ParseClear;
  }

  // ---------- Start tags ----------

  /** "<name" and the attributes stand at `p`, the tag ends at `e`, and it is not the clear tag "<PRE>". */
  predicate StartTag(s: string, p: nat, name: string, attributes: seq<Attribute>, e: nat) {
    && IsName(name) && NormalAttributes(attributes)
    && Has(s, p, "<" + name + RenderAttributes(attributes))
    && e == p + 1 + |name| + |RenderAttributes(attributes)| && TagEndsAt(s, e)
    && !(name == "PRE" && RenderAttributes(attributes) == "" && At(s, e) == '>')
  }

  lemma StartTagParts(s: string, p: nat, name: string, attributes: seq<Attribute>, e: nat)
    requires StartTag(s, p, name, attributes, e)
    ensures p + 1 + |name| <= e < |s| && s[p] == '<' && Has(s, p + 1, name) && NameChar(s[p + 1])
    ensures s[p + 1..p + 1 + |name|] == name && IsName(name)
    ensures Tag(s, p + 1 + |name|, attributes, e) && NameEnds(s, p + 1 + |name|)
    ensures IsSpace(s[p + 1 + |name|]) <==> attributes != []
    ensures attributes == [] ==> e == p + 1 + |name|
  {
    hide Has, RenderAttributes, NormalAttributes, IsName, Tag;
    var r := RenderAttributes(attributes);
    HasParts(s, p, "<" + name, r);
    HasParts(s, p, "<", name);
    HasAt(s, p, "<", 0);
    NameStart(name);
    HasAt(s, p + 1, name, 0);
    HasSlice(s, p + 1, name);
    TagIs(s, p + 1 + |name|, attributes, e);
    if attributes != [] {
      AttributeStands(s, p + 1 + |name|, attributes, 0);
      FirstAttributeAt(p + 1 + |name|, attributes);
      HasAt(s, p + 1 + |name|, " " + RenderAttribute(attributes[0]), 0);
    } else {
      NoAttributes();
    }
  }

  lemma NameStart(name: string)
    requires IsName(name)
    ensures name != "" && NameChar(name[0])
  {
  }

  lemma HasSlice(s: string, i: nat, w: string)
    requires Has(s, i, w)
    ensures i + |w| <= |s| && s[i..i + |w|] == w
  {
  }

  lemma TagIs(s: string, i: nat, attributes: seq<Attribute>, e: nat)
    requires NormalAttributes(attributes) && Has(s, i, RenderAttributes(attributes))
    requires e == i + |RenderAttributes(attributes)| && TagEndsAt(s, e)
    ensures Tag(s, i, attributes, e)
  {
  }

  lemma FirstAttributeAt(i: nat, attributes: seq<Attribute>)
    ensures AttributeAt(i, attributes, 0) == i
  {
    assert attributes[..0] == [];
  }

  lemma NoAttributes()
    ensures RenderAttributes([]) == ""
  {
  }

  lemma PreIsName(s: string, p: nat, name: string)
    requires IsName(name) && Has(s, p + 1, name) && NameEnds(s, p + 1 + |name|) && Has(s, p, "<PRE>")
    ensures name == "PRE" && s[p + 4] == '>'
  {
    HasAt(s, p, "<PRE>", 1);
    HasAt(s, p, "<PRE>", 2);
    HasAt(s, p, "<PRE>", 3);
    HasAt(s, p, "<PRE>", 4);
    if |name| > 3 {
      HasAt(s, p + 1, name, 3);
    }
    forall j | 0 <= j < |name| ensures s[p + 1 + j] == name[j] {
      HasAt(s, p + 1, name, j);
    }
  }

  lemma NotPre(s: string, p: nat, name: string, attributes: seq<Attribute>, e: nat)
    requires StartTag(s, p, name, attributes, e)
    ensures !Has(s, p, CLEAR_TAGS[3].open)
  {
    StartTagParts(s, p, name, attributes, e);
    if Has(s, p, "<PRE>") {
      PreIsName(s, p, name);
    }
  }

  lemma StartTagTokens(s: string, p: nat, name: string, attributes: seq<Attribute>, e: nat)
    requires StartTag(s, p, name, attributes, e)
    ensures NextToken(s, p) == Token(TagStart, p, 1, p + 1, 0)
    ensures
      var t := NextToken(s, p + 1);
      && t.kind == TextToken && t.start == p + 1 && t.len == |name| && t.next <= |s|
      && LookingAt(s, p + 1 + |name|, attributes, 0, t.next)
  {
    hide StartTag, Has, Tag, QuoteEnd, TextStop, ClearTagAt;
    StartTagParts(s, p, name, attributes, e);
    NotPre(s, p, name, attributes, e);
    NoOpening(s, p);
    SkipBlank(s, p, p);
    SkipBlank(s, p + 1, p + 1);
    NameToken(s, p + 1, name);
    assert attributes[..0] == [];
  }

  lemma StepOpens(s: string, x: Cursor, d0: Node, d: Node, depth: nat, p: nat)
    requires Good(s, x) && x.index == p && NextToken(s, p) == Token(TagStart, p, 1, p + 1, 0)
    requires NextToken(s, p + 1).kind == TextToken && p + 1 <= |s|
    requires MaybeAddText(s, x, d0, p) == Outcome(true, x.(text := None), d)
    ensures
      var name := NextToken(s, p + 1);
      var child := Node(Some(s[name.start..name.start + name.len]), false, [], []);
      && Good(s, x.(index := name.next, text := None))
      && Parse(s, x, d0, depth, Outside) == AfterChild(s,
           Parse(s, x.(index := name.next, text := None), child, depth + 1, AttribName), d, depth, p + 1)
  {
    hide Parse, ParseChild, AfterChild, MaybeAddText, TokenAt, SkipSpaces;
    MaybeAnywhere(s, x, d0, p, p + 1, d);
    ParseOpens(s, x, d0, depth, NextToken(s, p));
    ParseChildStages(s, x.(index := p + 1), d0, depth, NextToken(s, p), false,
                     Outcome(true, x.(index := p + 1, text := None), d));
  }

  /** A start tag is read: the child goes on behind its tag. */
  lemma ParseStart(s: string, x: Cursor, d0: Node, d: Node, depth: nat, p: nat,
                   name: string, attributes: seq<Attribute>, e: nat)
    requires Good(s, x) && x.index == p && StartTag(s, p, name, attributes, e)
    requires MaybeAddText(s, x, d0, p) == Outcome(true, x.(text := None), d)
    ensures p + 1 <= |s| && TagEndsAt(s, e)
    ensures
      var r := FromTagEnd(s, x, Node(Some(name), false, attributes, []), depth + 1, e);
      && Good(s, r.x) && r.x.index > p + 1
      && Parse(s, x, d0, depth, Outside) == AfterChild(s, r, d, depth, p + 1)
  {
    hide Parse, FromTagEnd, AfterChild, MaybeAddText, NextToken, StartTag, LookingAt, Tag;
    StartTagParts(s, p, name, attributes, e);
    StartTagTokens(s, p, name, attributes, e);
    TagIsEnded(s, p + 1 + |name|, attributes, e);
    StepOpens(s, x, d0, d, depth, p);
    var j := NextToken(s, p + 1).next;
    var child := Node(Some(name), false, [], []);
    var x2 := x.(index := j, text := None);
    ParseNames(s, p + 1 + |name|, attributes, e, 0, x2, child, depth + 1);
    assert attributes[0..] == attributes;
    assert Attributed(child, attributes) == Node(Some(name), false, attributes, []);
    FromAnyText(s, x, j, Node(Some(name), false, attributes, []), depth + 1, e);
    FromTagGood(s, x, Node(Some(name), false, attributes, []), depth + 1, e);
  }

  lemma FromAnyText(s: string, x: Cursor, j: nat, d: Node, depth: nat, e: nat)
    requires TagEndsAt(s, e)
    ensures FromTagEnd(s, x.(index := j, text := None), d, depth, e) == FromTagEnd(s, x, d, depth, e)
  {
    hide Parse;
  }

  lemma FromTagGood(s: string, x: Cursor, d: Node, depth: nat, e: nat)
    requires TagEndsAt(s, e)
    ensures Good(s, FromTagEnd(s, x, d, depth, e).x) && FromTagEnd(s, x, d, depth, e).x.index > e
  {
    hide Parse;
  }

  // ---------- Elements ----------

  /** An element that is rendered like the start of a clear tag. */
  predicate IsPre(t: Node) {
    t.name == Some("PRE") && t.attributes == [] && t.content != []
  }

  /** Trees that survive a round trip, but for elements that are taken for clear tags. */
  predicate Regular(t: Node)
    decreases t
  {
    && t.name.Some? && IsName(t.name.value) && !t.isDeclaration && NormalAttributes(t.attributes)
    && (forall k :: 0 <= k < |t.content| ==> RegularContent(t.content[k]))
    && Separated(t.content)
  }

  predicate RegularContent(c: Content)
    decreases c
  {
    match c
    case TextNode(text) => Trimmed(text)
    case ClearNode(open, value, close) => NormalClear(open, value, close)
    case ChildNode(node) => Regular(node)
  }

  /** No element of the tree, at any depth, is named "PRE" and has content but no attributes. */
  predicate NoPre(t: Node)
    decreases t
  {
    !IsPre(t) && forall k :: 0 <= k < |t.content| ==> NoPreContent(t.content[k])
  }

  predicate NoPreContent(c: Content)
    decreases c
  {
    c.ChildNode? ==> NoPre(c.node)
  }

  predicate NoPreFrom(t: Node, k: nat) {
    forall j :: k <= j < |t.content| ==> NoPreContent(t.content[j])
  }

  /** Trees that survive a round trip. */
  predicate Normal(t: Node) {
    Regular(t) && NoPre(t)
  }

  /** No two texts are neighbours, and no comment stands between two texts. */
  predicate Separated(cs: seq<Content>) {
    && (forall k :: 0 <= k < |cs| - 1 ==> !(cs[k].TextNode? && cs[k + 1].TextNode?))
    && (forall k :: 0 <= k < |cs| - 2 ==> !(cs[k].TextNode? && IsComment(cs[k + 1]) && cs[k + 2].TextNode?))
  }

  predicate IsComment(c: Content) {
    c.ClearNode? && c.open == CLEAR_TAGS[COMMENT].open
  }

  /** An element stands at `b`, rendered with format `f`; these are the places of its parts. */
  datatype Layout = Layout(start: nat, tagEnd: nat, contents: nat, endTag: nat, end: nat)

  function Width(n: int): nat {
    if n > 0 then n else 0
  }

  function LayoutOf(t: Node, f: int, b: nat): Layout
    requires t.name.Some?
  {
    var g := FormatOf(t, f);
    var p := b + Width(f);
    var e := p + 1 + |t.name.value| + |RenderAttributes(t.attributes)|;
    if t.content == [] then Layout(p, e, e + 2, e + 2, e + 2)
    else
      var c := if g >= 0 then e + 2 else e + 1;
      var q := c + |RenderContents(t.content, g, ChildFormat(t, g))| + Width(g);
      Layout(p, e, c, q, q + 3 + |t.name.value|)
  }

  lemma {:induction false} TabsBlank(s: string, i: nat, n: int)
    requires Has(s, i, Tabs(n))
    ensures Blank(s, i, i + Width(n))
  {
    forall j | i <= j < i + Width(n) ensures IsSpace(s[j]) {
      HasAt(s, i, Tabs(n), j - i);
      TabAt(n, j - i);
    }
  }

  lemma {:induction false} TabAt(n: int, j: nat)
    requires j < |Tabs(n)|
    ensures Tabs(n)[j] == '\t'
  {
    if j > 0 {
      TabAt(n - 1, j - 1);
    }
  }

  lemma NewLineBlank(s: string, i: nat, f: int)
    requires Has(s, i, NewLine(f))
    ensures Blank(s, i, i + |NewLine(f)|)
  {
    if f != -1 {
      HasAt(s, i, "\n", 0);
    }
  }

  lemma Regroup(a: string, b: string, c: string, d: string, e: string)
    ensures a + b + c + d + e == a + (b + c + d + e)
  {
  }

  /** A start tag without its indentation. */
  function OpenTag(t: Node, g: int): string {
    "<" + NameOf(t) + RenderAttributes(t.attributes) + OpenTail(t, g)
  }

  function OpenTail(t: Node, g: int): string {
    if t.content == [] then "" else if g >= 0 then ">\n" else ">"
  }

  lemma OpenIs(t: Node, f: int)
    requires NameOf(t) != "" && !t.isDeclaration
    ensures RenderOpen(t, f) == Tabs(f) + OpenTag(t, FormatOf(t, f))
  {
    hide RenderAttributes, Tabs;
    Regroup(Tabs(f), "<", NameOf(t), RenderAttributes(t.attributes), OpenTail(t, FormatOf(t, f)));
  }

  lemma OpenTailStands(s: string, t: Node, g: int, e: nat)
    requires Has(s, e, OpenTail(t, g)) && t.content != []
    ensures At(s, e) == '>' && Blank(s, e + 1, e + |OpenTail(t, g)|)
    ensures |OpenTail(t, g)| == if g >= 0 then 2 else 1
  {
    HasAt(s, e, OpenTail(t, g), 0);
    if g >= 0 {
      HasAt(s, e, OpenTail(t, g), 1);
    }
  }

  lemma RegularParts(t: Node)
    requires Regular(t)
    ensures t.name.Some? && IsName(t.name.value) && !t.isDeclaration && NormalAttributes(t.attributes)
    ensures NameOf(t) == t.name.value != ""
    ensures forall k :: 0 <= k < |t.content| ==> RegularContent(t.content[k])
    ensures Separated(t.content)
  {
  }

  /** The start tag of a rendered element. */
  lemma OpenStands(s: string, t: Node, f: int, b: nat)
    requires Regular(t) && Has(s, b, RenderOpen(t, f))
    ensures
      var l := LayoutOf(t, f, b);
      && Blank(s, b, l.start) && Has(s, l.start, "<" + t.name.value + RenderAttributes(t.attributes))
      && b + |RenderOpen(t, f)| == (if t.content == [] then l.tagEnd else l.contents)
      && (t.content != [] ==> At(s, l.tagEnd) == '>' && Blank(s, l.tagEnd + 1, l.contents))
  {
    hide Regular, RenderOpen, RenderAttributes, RenderContents, Tabs, Has, Blank;
    RegularParts(t);
    OpenIs(t, f);
    var g := FormatOf(t, f);
    var tag := "<" + t.name.value + RenderAttributes(t.attributes);
    HasParts(s, b, Tabs(f), OpenTag(t, g));
    HasParts(s, b + |Tabs(f)|, tag, OpenTail(t, g));
    TabsBlank(s, b, f);
    if t.content != [] {
      OpenTailStands(s, t, g, b + |Tabs(f)| + |tag|);
    }
  }

  /** The end of a rendered element. */
  lemma CloseStands(s: string, t: Node, g: int, i: nat)
    requires Regular(t) && Has(s, i, RenderClose(t, g))
    ensures t.content == [] ==>
      && i + 1 < |s| && s[i] == '/' && s[i + 1] == '>'
      && |RenderClose(t, g)| == 2 + |NewLine(g)| && Blank(s, i + 2, i + 2 + |NewLine(g)|)
    ensures t.content != [] ==>
      var q := i + Width(g);
      && Blank(s, i, q) && Has(s, q, "</" + t.name.value + ">")
      && |RenderClose(t, g)| == Width(g) + 3 + |t.name.value| + |NewLine(g)|
      && Blank(s, q + 3 + |t.name.value|, q + 3 + |t.name.value| + |NewLine(g)|)
  {
    if t.content == [] {
      HasParts(s, i, "/>", NewLine(g));
      HasAt(s, i, "/>", 0);
      HasAt(s, i, "/>", 1);
      NewLineBlank(s, i + 2, g);
    } else {
      var tag := "</" + t.name.value + ">";
      assert RenderClose(t, g) == Tabs(g) + (tag + NewLine(g));
      HasParts(s, i, Tabs(g), tag + NewLine(g));
      HasParts(s, i + Width(g), tag, NewLine(g));
      TabsBlank(s, i, g);
      NewLineBlank(s, i + Width(g) + |tag|, g);
    }
  }

  /** All parts of a rendered element. */
  lemma ElementStands(s: string, t: Node, f: int, b: nat)
    requires Regular(t) && Has(s, b, Render(t, f))
    ensures
      var l, g := LayoutOf(t, f, b), FormatOf(t, f);
      && Blank(s, b, l.start) && Has(s, l.start, "<" + t.name.value + RenderAttributes(t.attributes))
      && (!IsPre(t) ==> StartTag(s, l.start, t.name.value, t.attributes, l.tagEnd))
      && b + |Render(t, f)| == l.end + |NewLine(g)| && Blank(s, l.end, l.end + |NewLine(g)|)
      && (At(s, l.tagEnd) == '>' <==> t.content != [])
      && (t.content != [] ==>
            && Blank(s, l.tagEnd + 1, l.contents)
            && Has(s, l.contents, RenderContents(t.content, g, ChildFormat(t, g)))
            && Blank(s, l.contents + |RenderContents(t.content, g, ChildFormat(t, g))|, l.endTag)
            && Has(s, l.endTag, "</" + t.name.value + ">"))
  {
    hide Render, RenderOpen, RenderContents, RenderClose, RenderAttributes, Regular, NewLine, Has, Blank, StartTag;
    var g := FormatOf(t, f);
    var c := RenderContents(t.content, g, ChildFormat(t, g));
    var o, e := RenderOpen(t, f), RenderClose(t, g);
    RenderIs(t, f);
    RegularParts(t);
    HasParts(s, b, o + c, e);
    HasParts(s, b, o, c);
    OpenStands(s, t, f, b);
    CloseStands(s, t, g, b + |o + c|);
    if t.content == [] {
      NoContents(g, ChildFormat(t, g));
    }
    if !IsPre(t) {
      StartTagStands(s, t, f, b);
    }
  }

  lemma RenderIs(t: Node, f: int)
    ensures
      var g := FormatOf(t, f);
      Render(t, f) == RenderOpen(t, f) + RenderContents(t.content, g, ChildFormat(t, g)) + RenderClose(t, g)
  {
  }

  lemma NoContents(g: int, h: int)
    ensures RenderContents([], g, h) == ""
  {
  }

  lemma StartTagStands(s: string, t: Node, f: int, b: nat)
    requires Regular(t) && !IsPre(t)
    requires
      var l := LayoutOf(t, f, b);
      && Has(s, l.start, "<" + t.name.value + RenderAttributes(t.attributes))
      && At(s, l.tagEnd) == (if t.content == [] then '/' else '>')
      && (t.content == [] ==> At(s, l.tagEnd + 1) == '>')
    ensures StartTag(s, LayoutOf(t, f, b).start, t.name.value, t.attributes, LayoutOf(t, f, b).tagEnd)
  {
  }

  /** An element with content stands at `b`; this is where its content `k` starts. */
  function ContentAt(t: Node, f: int, b: nat, k: nat): nat
    requires t.name.Some? && k <= |t.content|
  {
    var g := FormatOf(t, f);
    LayoutOf(t, f, b).contents + |RenderContents(t.content[..k], g, ChildFormat(t, g))|
  }

  /** Where the tag of content `k` starts; behind the contents stands the end tag. */
  function TagPlace(t: Node, f: int, b: nat, k: nat): nat
    requires t.name.Some? && k <= |t.content|
  {
    var g := FormatOf(t, f);
    if k == |t.content| then LayoutOf(t, f, b).endTag
    else if t.content[k].ChildNode? then ContentAt(t, f, b, k) + Width(ChildFormat(t, g))
    else ContentAt(t, f, b, k) + if g == -1 then 0 else Width(g + 1)
  }

  /** A normal element with content stands at `b`. */
  predicate Stands(s: string, t: Node, f: int, b: nat) {
    f >= -1 && Regular(t) && t.content != [] && Has(s, b, Render(t, f))
  }

  lemma {:induction false} ContentIn(s: string, i: nat, cs: seq<Content>, g: int, h: int, k: nat)
    requires k < |cs| && Has(s, i, RenderContents(cs, g, h))
    ensures Has(s, i + |RenderContents(cs[..k], g, h)|, RenderContent(cs[k], g, h))
    ensures |RenderContents(cs[..k + 1], g, h)| == |RenderContents(cs[..k], g, h)| + |RenderContent(cs[k], g, h)|
  {
    hide RenderContent, Has;
    var n := |cs| - 1;
    assert cs[..|cs|] == cs;
    HasParts(s, i, RenderContents(cs[..n], g, h), RenderContent(cs[n], g, h));
    if k < n {
      assert cs[..n][..k] == cs[..k] && cs[..n][..k + 1] == cs[..k + 1];
      ContentIn(s, i, cs[..n], g, h, k);
    }
  }

  lemma ContentStands(s: string, t: Node, f: int, b: nat, k: nat)
    requires Stands(s, t, f, b) && k < |t.content| && t.name.Some?
    ensures
      var g := FormatOf(t, f);
      && Has(s, ContentAt(t, f, b, k), RenderContent(t.content[k], g, ChildFormat(t, g)))
      && ContentAt(t, f, b, k + 1) == ContentAt(t, f, b, k) + |RenderContent(t.content[k], g, ChildFormat(t, g))|
      && RegularContent(t.content[k])
  {
    hide Regular, Render, RenderContent, StartTag, LayoutOf, Blank;
    RegularParts(t);
    ElementStands(s, t, f, b);
    var g := FormatOf(t, f);
    ContentIn(s, LayoutOf(t, f, b).contents, t.content, g, ChildFormat(t, g), k);
  }

  lemma TextStands(s: string, i: nat, w: string, g: int)
    requires Has(s, i, RenderText(w, g)) && w != ""
    ensures
      var a := i + if g >= 0 then Width(g + 1) else 0;
      && Blank(s, i, a) && Has(s, a, Escape(w))
      && i + |RenderText(w, g)| == a + |Escape(w)| + (if g >= 0 then 1 else 0)
      && Blank(s, a + |Escape(w)|, i + |RenderText(w, g)|)
  {
    hide Tabs, Escape;
    if g >= 0 {
      HasParts(s, i, Tabs(g + 1) + Escape(w), "\n");
      HasParts(s, i, Tabs(g + 1), Escape(w));
      TabsBlank(s, i, g + 1);
      HasAt(s, i + |Tabs(g + 1) + Escape(w)|, "\n", 0);
    }
  }

  lemma ClearIs(open: string, value: string, close: string, g: int)
    requires open != ""
    ensures RenderClear(open, value, close, g) ==
      (if g != -1 then Tabs(g + 1) else "") + (open + value + close + NewLine(g))
  {
    hide Tabs;
    Regroup(if g != -1 then Tabs(g + 1) else "", open, value, close, NewLine(g));
  }

  lemma ClearOpens(open: string, value: string, close: string)
    requires NormalClear(open, value, close)
    ensures open != "" && (open + value + close)[0] == '<'
  {
    hide NormalClear, ClosesOnce;
    var k := KindOf(open, value, close);
  }

  lemma ClearStands(s: string, i: nat, open: string, value: string, close: string, g: int)
    requires Has(s, i, RenderClear(open, value, close, g)) && NormalClear(open, value, close)
    ensures
      var p := i + if g == -1 then 0 else Width(g + 1);
      && Blank(s, i, p) && Has(s, p, open + value + close) && p < |s| && s[p] == '<'
      && i + |RenderClear(open, value, close, g)| == p + |open + value + close| + |NewLine(g)|
      && Blank(s, p + |open + value + close|, p + |open + value + close| + |NewLine(g)|)
  {
    hide RenderClear, NormalClear, Tabs, Has, Blank, NewLine;
    ClearOpens(open, value, close);
    var lead := if g != -1 then Tabs(g + 1) else "";
    ClearIs(open, value, close, g);
    HasParts(s, i, lead, open + value + close + NewLine(g));
    HasParts(s, i + |lead|, open + value + close, NewLine(g));
    HasAt(s, i + |lead|, open + value + close, 0);
    if g != -1 {
      TabsBlank(s, i, g + 1);
    } else {
      EmptyBlank(s, i);
    }
    NewLineBlank(s, i + |lead| + |open + value + close|, g);
  }

  lemma EmptyBlank(s: string, i: nat)
    requires i <= |s|
    ensures Blank(s, i, i)
  {
  }

  lemma StartBracket(s: string, p: nat, w: string)
    requires Has(s, p, w) && w != "" && w[0] == '<'
    ensures p < |s| && s[p] == '<'
  {
    HasAt(s, p, w, 0);
  }

  /** In front of the tag of content `k` stand only spaces, and it starts with an angle bracket. */
  lemma TagStands(s: string, t: Node, f: int, b: nat, k: nat)
    requires Stands(s, t, f, b) && k <= |t.content| && t.name.Some?
    requires k < |t.content| ==> !t.content[k].TextNode?
    ensures
      var p := TagPlace(t, f, b, k);
      Blank(s, ContentAt(t, f, b, k), p) && p < |s| && s[p] == '<'
  {
    hide Render, RenderContents, RenderClear, LayoutOf, Has, Blank, NormalClear;
    if k == |t.content| {
      ElementStands(s, t, f, b);
      assert t.content[..k] == t.content;
      StartBracket(s, LayoutOf(t, f, b).endTag, "</" + t.name.value + ">");
    } else {
      ContentStands(s, t, f, b, k);
      var g := FormatOf(t, f);
      var i := ContentAt(t, f, b, k);
      match t.content[k] {
        case TextNode(w) =>
        case ClearNode(open, value, close) => ClearStands(s, i, open, value, close, g);
        case ChildNode(node) =>
          ElementStands(s, node, ChildFormat(t, g), i);
          LayoutStart(node, ChildFormat(t, g), i);
          StartBracket(s, LayoutOf(node, ChildFormat(t, g), i).start,
                       "<" + node.name.value + RenderAttributes(node.attributes));
      }
    }
  }

  lemma LayoutStart(t: Node, f: int, b: nat)
    requires t.name.Some?
    ensures LayoutOf(t, f, b).start == b + Width(f)
  {
  }

  // ---------- The round trip ----------

  /** A parse stands behind content `k - 1`; only spaces separate it from content `k`. */
  predicate Before(s: string, t: Node, f: int, b: nat, k: nat, x: Cursor)
    requires t.name.Some? && k <= |t.content|
  {
    && Good(s, x) && x.text == Some(x.index) && x.endLen == 0
    && (k > 0 ==> !t.content[k - 1].TextNode?)
    && Blank(s, x.index, ContentAt(t, f, b, k))
  }

  /** A parse stands at the tag of content `k`, and the text in front of it, if any, makes up `d`. */
  predicate AtTag(s: string, t: Node, f: int, b: nat, k: nat, x: Cursor, d0: Node, d: Node)
    requires t.name.Some? && k <= |t.content|
  {
    && Good(s, x) && x.endLen == 0 && x.index == TagPlace(t, f, b, k)
    && (k < |t.content| ==> !t.content[k].TextNode?)
    && d == t.(content := t.content[..k])
    && MaybeAddText(s, x, d0, x.index) == Outcome(true, x.(text := None), d)
  }

  function Done(t: Node, f: int, b: nat, x: Cursor): Outcome
    requires t.name.Some?
  {
    var e := LayoutOf(t, f, b).end;
    Outcome(true, x.(index := e, text := Some(e)), t)
  }

  lemma BlankPlain(s: string, i: nat, p: nat)
    requires Blank(s, i, p) && p < |s| && s[p] == '<'
    ensures PlainUpTo(s, i, p)
  {
  }

  lemma BlankJoin(s: string, a: nat, b: nat, c: nat)
    requires Blank(s, a, b) && Blank(s, b, c)
    ensures Blank(s, a, c)
  {
  }

  /** Only spaces stand in front of the tag. */
  lemma ReachTag(s: string, t: Node, f: int, b: nat, k: nat, x: Cursor, d: Node, depth: nat)
    requires Stands(s, t, f, b) && t.name.Some? && k <= |t.content| && Before(s, t, f, b, k, x)
    requires (k < |t.content| ==> !t.content[k].TextNode?) && d == t.(content := t.content[..k])
    ensures
      var x' := x.(index := TagPlace(t, f, b, k));
      && AtTag(s, t, f, b, k, x', d, d) && Good(s, x')
      && Parse(s, x, d, depth, Outside) == Parse(s, x', d, depth, Outside)
  {
    hide Parse, MaybeAddText, Stands, ContentAt, TagPlace;
    TagStands(s, t, f, b, k);
    var p := TagPlace(t, f, b, k);
    BlankJoin(s, x.index, ContentAt(t, f, b, k), p);
    BlankPlain(s, x.index, p);
    SkipToTag(s, x, d, depth, p);
    MaybeBlank(s, x.(index := p), d, p);
  }

  /** A text stands in front of the tag. */
  lemma ReachTagBehindText(s: string, t: Node, f: int, b: nat, k: nat, x: Cursor, d: Node, depth: nat)
    requires Stands(s, t, f, b) && t.name.Some? && k < |t.content| && Before(s, t, f, b, k, x)
    requires t.content[k].TextNode? && d == t.(content := t.content[..k])
    ensures k + 1 < |t.content| ==> !t.content[k + 1].TextNode?
    ensures
      var x' := x.(index := TagPlace(t, f, b, k + 1));
      && AtTag(s, t, f, b, k + 1, x', d, t.(content := t.content[..k + 1])) && Good(s, x')
      && Parse(s, x, d, depth, Outside) == Parse(s, x', d, depth, Outside)
  {
    hide Parse, MaybeAddText, Stands, ContentAt, TagPlace, RenderText, Escape, Has, Blank, PlainUpTo, AddText,
         Separated;
    var w := t.content[k].text;
    TextAlone(s, t, f, b, k);
    ContentStands(s, t, f, b, k);
    var g := FormatOf(t, f);
    var i := ContentAt(t, f, b, k);
    TextStands(s, i, w, g);
    TagStands(s, t, f, b, k + 1);
    var a := i + if g >= 0 then Width(g + 1) else 0;
    var e := a + |Escape(w)|;
    var p := TagPlace(t, f, b, k + 1);
    BlankJoin(s, x.index, i, a);
    BlankJoin(s, e, ContentAt(t, f, b, k + 1), p);
    TextPlain(s, x.index, a, w, p);
    SkipToTag(s, x, d, depth, p);
    MaybeText(s, x.(index := p), d, p, a, w);
    TextAdded(t, k);
  }

  lemma TextAlone(s: string, t: Node, f: int, b: nat, k: nat)
    requires Stands(s, t, f, b) && k < |t.content| && t.content[k].TextNode?
    ensures Trimmed(t.content[k].text) && Separated(t.content)
    ensures k + 1 < |t.content| ==> !t.content[k + 1].TextNode?
  {
    RegularParts(t);
    assert RegularContent(t.content[k]);
  }

  lemma TextPlain(s: string, i: nat, a: nat, w: string, p: nat)
    requires Blank(s, i, a) && Has(s, a, Escape(w)) && Blank(s, a + |Escape(w)|, p) && Trimmed(w)
    requires p < |s| && s[p] == '<'
    ensures PlainUpTo(s, i, p)
  {
    hide Escape;
    EscapePlain(w);
    forall j | i <= j < p
      ensures s[j] != '<' && s[j] != '>' && s[j] != '\"' && s[j] != '\'' && s[j] != '\0'
    {
      if a <= j < a + |Escape(w)| {
        HasAt(s, a, Escape(w), j - a);
      } else {
        assert IsSpace(s[j]);
      }
    }
  }

  /** A text is added as a node of its own. */
  lemma TextAdded(t: Node, k: nat)
    requires k < |t.content| && t.content[k].TextNode? && Separated(t.content)
    ensures AddText(t.(content := t.content[..k]), t.content[k].text) == t.(content := t.content[..k + 1])
  {
    assert t.content[..k + 1] == t.content[..k] + [t.content[k]];
    if k >= 2 {
      NoCommentBetween(t.content, k - 2);
    }
  }

  lemma NoCommentBetween(cs: seq<Content>, k: nat)
    requires Separated(cs) && k + 2 < |cs| && cs[k + 2].TextNode?
    ensures !(cs[k].TextNode? && IsComment(cs[k + 1]))
  {
  }

  lemma {:induction false} ContentsParsed(s: string, t: Node, f: int, b: nat, k: nat, x: Cursor, d: Node, depth: nat)
    requires Stands(s, t, f, b) && t.name.Some? && k <= |t.content| && Before(s, t, f, b, k, x)
    requires d == t.(content := t.content[..k]) && NoPreFrom(t, k)
    ensures Parse(s, x, d, depth, Outside) == Done(t, f, b, x)
    decreases t, |t.content| - k, 1
  {
    hide *;
    GoodBefore(s, t, f, b, k, x);
    NoPreOn(t, k);
    if k < |t.content| && t.content[k].TextNode? {
      ReachTagBehindText(s, t, f, b, k, x, d, depth);
      TagParsed(s, t, f, b, k + 1, x.(index := TagPlace(t, f, b, k + 1)), d, t.(content := t.content[..k + 1]), depth);
      DoneSame(t, f, b, x, TagPlace(t, f, b, k + 1));
    } else {
      ReachTag(s, t, f, b, k, x, d, depth);
      TagParsed(s, t, f, b, k, x.(index := TagPlace(t, f, b, k)), d, d, depth);
      DoneSame(t, f, b, x, TagPlace(t, f, b, k));
    }
  }

  lemma NoPreOn(t: Node, k: nat)
    requires NoPreFrom(t, k) && k <= |t.content|
    ensures k < |t.content| ==> NoPreFrom(t, k + 1)
    ensures k < |t.content| && t.content[k].ChildNode? ==>
      !IsPre(t.content[k].node) && NoPreFrom(t.content[k].node, 0)
  {
    if k < |t.content| {
      assert NoPreContent(t.content[k]);
      assert t.content[k].ChildNode? ==> NoPre(t.content[k].node);
    }
  }

  lemma GoodBefore(s: string, t: Node, f: int, b: nat, k: nat, x: Cursor)
    requires t.name.Some? && k <= |t.content| && Before(s, t, f, b, k, x)
    ensures Good(s, x)
  {
  }

  lemma DoneSame(t: Node, f: int, b: nat, x: Cursor, j: nat)
    requires t.name.Some?
    ensures Done(t, f, b, x.(index := j)) == Done(t, f, b, x)
  {
  }

  /** The end tag closes the element. */
  lemma EndParsed(s: string, t: Node, f: int, b: nat, x: Cursor, d0: Node, d: Node, depth: nat)
    requires Stands(s, t, f, b) && t.name.Some? && AtTag(s, t, f, b, |t.content|, x, d0, d) && Good(s, x)
    ensures Parse(s, x, d0, depth, Outside) == Done(t, f, b, x)
  {
    hide Parse, MaybeAddText, Regular, Render, RenderContents, RenderAttributes, Has, Blank, StartTag, Good;
    ElementStands(s, t, f, b);
    RegularParts(t);
    assert t.content[..|t.content|] == t.content;
    ParseClosing(s, x, d0, d, depth, LayoutOf(t, f, b).endTag, t.name.value);
  }

  /** A clear tag is read and added. */
  lemma ClearReached(s: string, t: Node, f: int, b: nat, k: nat, x: Cursor, d0: Node, d: Node, depth: nat)
    returns (e: nat)
    requires Stands(s, t, f, b) && t.name.Some? && k < |t.content| && t.content[k].ClearNode?
    requires AtTag(s, t, f, b, k, x, d0, d) && Good(s, x)
    ensures
      var x' := x.(index := e, text := Some(e));
      && Before(s, t, f, b, k + 1, x') && Good(s, x')
      && Parse(s, x, d0, depth, Outside) == Parse(s, x', t.(content := t.content[..k + 1]), depth, Outside)
  {
    hide Parse, MaybeAddText, Stands, RenderClear, ContentAt, NormalClear, Has, Blank;
    ContentStands(s, t, f, b, k);
    var g := FormatOf(t, f);
    var c := t.content[k];
    ClearStands(s, ContentAt(t, f, b, k), c.open, c.value, c.close, g);
    ParseClearNode(s, x, d0, d, depth, x.index, c.open, c.value, c.close);
    e := x.index + |c.open + c.value + c.close|;
    assert t.content[..k + 1] == t.content[..k] + [c];
  }

  /** The child at content `k`, and where it stands. */
  lemma ChildStands(s: string, t: Node, f: int, b: nat, k: nat)
    requires Stands(s, t, f, b) && t.name.Some? && k < |t.content| && t.content[k].ChildNode?
    ensures
      var node, h, i := t.content[k].node, ChildFormat(t, FormatOf(t, f)), ContentAt(t, f, b, k);
      && Regular(node) && node.name.Some? && h >= -1 && Has(s, i, Render(node, h))
      && (node.content != [] ==> Stands(s, node, h, i))
      && TagPlace(t, f, b, k) == LayoutOf(node, h, i).start
      && (!IsPre(node) ==>
            StartTag(s, LayoutOf(node, h, i).start, node.name.value, node.attributes, LayoutOf(node, h, i).tagEnd))
      && Blank(s, LayoutOf(node, h, i).end, ContentAt(t, f, b, k + 1))
  {
    hide Render, StartTag, Has, Blank;
    var node, h, i := t.content[k].node, ChildFormat(t, FormatOf(t, f)), ContentAt(t, f, b, k);
    ContentStands(s, t, f, b, k);
    ElementStands(s, node, h, i);
  }

  /** Up to the contents of a child, or up to its end. */
  lemma ChildOpened(s: string, t: Node, f: int, b: nat, k: nat, x: Cursor, d0: Node, d: Node, depth: nat, node: Node)
    requires Stands(s, t, f, b) && t.name.Some? && k < |t.content| && t.content[k] == ChildNode(node)
    requires AtTag(s, t, f, b, k, x, d0, d) && Good(s, x) && node.name.Some? && !IsPre(node)
    ensures
      var h, i := ChildFormat(t, FormatOf(t, f)), ContentAt(t, f, b, k);
      var e, p := LayoutOf(node, h, i).tagEnd, x.index;
      var r := FromTag(s, x, node, depth, e);
      && p + 1 <= |s| && Good(s, r.x) && r.x.index > p + 1
      && Parse(s, x, d0, depth, Outside) == AfterChild(s, r, d, depth, p + 1)
  {
    hide Parse, MaybeAddText, Stands, StartTag, ContentAt, LayoutOf, AfterChild, FromTagEnd, Has, Blank, Render;
    ChildStands(s, t, f, b, k);
    var h, i := ChildFormat(t, FormatOf(t, f)), ContentAt(t, f, b, k);
    RegularParts(node);
    ParseStart(s, x, d0, d, depth, x.index, node.name.value, node.attributes, LayoutOf(node, h, i).tagEnd);
    assert Node(Some(node.name.value), false, node.attributes, []) == node.(content := []);
  }

  /** The parse of a child from the end of its start tag on. */
  function FromTag(s: string, x: Cursor, node: Node, depth: nat, e: nat): Outcome {
    if TagEndsAt(s, e) then FromTagEnd(s, x, node.(content := []), depth + 1, e) else Outcome(false, x, node)
  }

  lemma StartTagEnds(s: string, p: nat, name: string, attributes: seq<Attribute>, e: nat)
    requires StartTag(s, p, name, attributes, e)
    ensures TagEndsAt(s, e)
  {
  }

  /** An element without content is complete behind its start tag; otherwise its contents follow. */
  lemma TagGoesOn(s: string, x: Cursor, depth: nat, node: Node, h: int, i: nat)
    requires Regular(node) && node.name.Some? && h >= -1 && Has(s, i, Render(node, h))
    requires node.content != [] ==> Stands(s, node, h, i)
    requires x.endLen == 0 && !IsPre(node)
    ensures
      var e := LayoutOf(node, h, i).tagEnd;
      var x' := x.(index := e + 1, text := Some(e + 1));
      && (node.content == [] ==> FromTag(s, x, node, depth, e) == Done(node, h, i, x))
      && (node.content != [] ==>
            && Before(s, node, h, i, 0, x') && Good(s, x')
            && FromTag(s, x, node, depth, e) == Parse(s, x', node.(content := []), depth + 1, Outside))
  {
    hide Parse, Stands, Has, Render, RenderAttributes, Regular, StartTag;
    ElementStands(s, node, h, i);
    StartTagEnds(s, LayoutOf(node, h, i).start, node.name.value, node.attributes, LayoutOf(node, h, i).tagEnd);
    assert node.content[..0] == [];
    assert node.content == [] ==> node.(content := []) == node;
  }

  lemma ChildGoesOn(s: string, t: Node, f: int, b: nat, k: nat, x: Cursor, depth: nat, node: Node)
    requires Stands(s, t, f, b) && t.name.Some? && k < |t.content| && t.content[k] == ChildNode(node)
    requires node.name.Some? && x.endLen == 0 && !IsPre(node)
    ensures
      var h, i := ChildFormat(t, FormatOf(t, f)), ContentAt(t, f, b, k);
      var e := LayoutOf(node, h, i).tagEnd;
      var x' := x.(index := e + 1, text := Some(e + 1));
      && (node.content == [] ==> FromTag(s, x, node, depth, e) == Done(node, h, i, x))
      && (node.content != [] ==>
            && Stands(s, node, h, i) && Before(s, node, h, i, 0, x') && Good(s, x')
            && FromTag(s, x, node, depth, e) == Parse(s, x', node.(content := []), depth + 1, Outside))
  {
    hide Parse, Stands, Has, Render, Regular, StartTag, LayoutOf, FromTag, Before, Done, Blank;
    ChildStands(s, t, f, b, k);
    TagGoesOn(s, x, depth, node, ChildFormat(t, FormatOf(t, f)), ContentAt(t, f, b, k));
  }

  /** A complete child is added, and its parent goes on behind it. */
  lemma ChildJoined(s: string, t: Node, f: int, b: nat, k: nat, x: Cursor, d: Node, depth: nat, node: Node, p: nat)
    requires Stands(s, t, f, b) && t.name.Some? && k < |t.content| && t.content[k] == ChildNode(node)
    requires node.name.Some? && x.endLen == 0 && d == t.(content := t.content[..k])
    requires
      var r := Done(node, ChildFormat(t, FormatOf(t, f)), ContentAt(t, f, b, k), x);
      Good(s, r.x) && r.x.index > p + 1 && p + 1 <= |s|
    ensures
      var r := Done(node, ChildFormat(t, FormatOf(t, f)), ContentAt(t, f, b, k), x);
      && Before(s, t, f, b, k + 1, r.x)
      && AfterChild(s, r, d, depth, p + 1) == Parse(s, r.x, t.(content := t.content[..k + 1]), depth, Outside)
  {
    hide Parse, Stands, Has, Render, RenderAttributes, RenderContents, Regular, Blank, StartTag, ContentAt;
    ChildStands(s, t, f, b, k);
    assert t.content[..k + 1] == t.content[..k] + [t.content[k]];
  }

  /** Once a child is complete, its parent goes on with the next content. */
  lemma ChildReached(s: string, t: Node, f: int, b: nat, k: nat, x: Cursor, d0: Node, d: Node, depth: nat,
                     node: Node, r: Outcome)
    requires Stands(s, t, f, b) && t.name.Some? && k < |t.content| && t.content[k] == ChildNode(node)
    requires AtTag(s, t, f, b, k, x, d0, d) && Good(s, x) && node.name.Some? && !IsPre(node)
    requires
      var h, i := ChildFormat(t, FormatOf(t, f)), ContentAt(t, f, b, k);
      r == Done(node, h, i, x) && FromTag(s, x, node, depth, LayoutOf(node, h, i).tagEnd) == r
    ensures Before(s, t, f, b, k + 1, r.x) && Good(s, r.x)
    ensures Parse(s, x, d0, depth, Outside) == Parse(s, r.x, t.(content := t.content[..k + 1]), depth, Outside)
  {
    hide *;
    AtTagParts(s, t, f, b, k, x, d0, d);
    ChildOpened(s, t, f, b, k, x, d0, d, depth, node);
    ChildJoined(s, t, f, b, k, x, d, depth, node, x.index);
  }

  lemma AtTagParts(s: string, t: Node, f: int, b: nat, k: nat, x: Cursor, d0: Node, d: Node)
    requires t.name.Some? && k <= |t.content| && AtTag(s, t, f, b, k, x, d0, d)
    ensures x.endLen == 0 && d == t.(content := t.content[..k])
    ensures k < |t.content| ==> !t.content[k].TextNode?
  {
  }

  lemma ChildNamed(s: string, t: Node, f: int, b: nat, k: nat, node: Node)
    requires Stands(s, t, f, b) && k < |t.content| && t.content[k] == ChildNode(node)
    ensures node.name.Some? && node.(content := node.content[..0]) == node.(content := [])
  {
    ContentStands(s, t, f, b, k);
  }

  lemma DoneAnywhere(t: Node, f: int, b: nat, x: Cursor, j: nat)
    requires t.name.Some?
    ensures Done(t, f, b, x.(index := j, text := Some(j))) == Done(t, f, b, x)
  {
  }

  lemma DoneChain(t: Node, f: int, b: nat, x: Cursor, node: Node, h: int, i: nat)
    requires t.name.Some? && node.name.Some?
    ensures Done(t, f, b, Done(node, h, i, x).x) == Done(t, f, b, x)
  {
  }

  lemma {:induction false} TagParsed(s: string, t: Node, f: int, b: nat, k: nat, x: Cursor, d0: Node, d: Node,
                                     depth: nat)
    requires Stands(s, t, f, b) && t.name.Some? && k <= |t.content| && AtTag(s, t, f, b, k, x, d0, d) && Good(s, x)
    requires NoPreFrom(t, k)
    ensures Parse(s, x, d0, depth, Outside) == Done(t, f, b, x)
    decreases t, |t.content| - k, 0
  {
    hide *;
    NoPreOn(t, k);
    AtTagParts(s, t, f, b, k, x, d0, d);
    if k == |t.content| {
      EndParsed(s, t, f, b, x, d0, d, depth);
    } else if t.content[k].ChildNode? {
      var node := t.content[k].node;
      ChildNamed(s, t, f, b, k, node);
      ChildGoesOn(s, t, f, b, k, x, depth, node);
      var h, i := ChildFormat(t, FormatOf(t, f)), ContentAt(t, f, b, k);
      var e := LayoutOf(node, h, i).tagEnd;
      if node.content != [] {
        ContentsParsed(s, node, h, i, 0, x.(index := e + 1, text := Some(e + 1)), node.(content := []), depth + 1);
        DoneAnywhere(node, h, i, x, e + 1);
      }
      var r := Done(node, h, i, x);
      ChildReached(s, t, f, b, k, x, d0, d, depth, node, r);
      ContentsParsed(s, t, f, b, k + 1, r.x, t.(content := t.content[..k + 1]), depth);
      DoneChain(t, f, b, x, node, h, i);
    } else {
      var e := ClearReached(s, t, f, b, k, x, d0, d, depth);
      ContentsParsed(s, t, f, b, k + 1, x.(index := e, text := Some(e)), t.(content := t.content[..k + 1]), depth);
      DoneAnywhere(t, f, b, x, e);
    }
  }

  /** A document ends with spaces behind its element. */
  lemma ParseEnd(s: string, x: Cursor, d: Node)
    requires Good(s, x) && x.text == Some(x.index) && Blank(s, x.index, |s|)
    ensures
      var r := Parse(s, x, d, 0, Outside);
      r.d == d && r.x.error == x.error
  {
    SkipBlank(s, x.index, |s|);
    var x1 := x.(index := |s|);
    MaybeBlank(s, x1, d, |s|);
  }

  /** An element is rendered at `b`. */
  lemma RenderedAt(s: string, t: Node, f: int, b: nat)
    requires f >= -1 && Regular(t) && Has(s, b, Render(t, f))
    ensures t.name.Some?
    ensures
      var l, e := LayoutOf(t, f, b), b + |Render(t, f)|;
      && Blank(s, b, l.start) && (!IsPre(t) ==> StartTag(s, l.start, t.name.value, t.attributes, l.tagEnd))
      && Has(s, l.start, "<" + t.name.value + RenderAttributes(t.attributes))
      && l.start < |s| && s[l.start] == '<' && l.end <= e <= |s| && Blank(s, l.end, e)
      && (t.content == [] ==> At(s, l.tagEnd) == '/')
      && (t.content != [] ==>
            At(s, l.tagEnd) == '>' && Stands(s, t, f, b) && Blank(s, l.tagEnd + 1, ContentAt(t, f, b, 0)))
  {
    ElementStands(s, t, f, b);
    StartBracket(s, LayoutOf(t, f, b).start, "<" + t.name.value + RenderAttributes(t.attributes));
    assert t.content[..0] == [];
  }

  /** From the end of the start tag on the element is parsed to its end. */
  lemma ElementParsed(s: string, t: Node, f: int, b: nat, x: Cursor, depth: nat)
    requires f >= -1 && Regular(t) && NoPre(t) && Has(s, b, Render(t, f)) && t.name.Some? && x.endLen == 0
    ensures FromTag(s, x, t, depth, LayoutOf(t, f, b).tagEnd) == Done(t, f, b, x)
  {
    hide Parse, Render, Regular, StartTag, Has, RenderAttributes, RenderContents;
    RenderedAt(s, t, f, b);
    var e := LayoutOf(t, f, b).tagEnd;
    if t.content != [] {
      var x' := x.(index := e + 1, text := Some(e + 1));
      assert t.content[..0] == [];
      ContentsParsed(s, t, f, b, 0, x', t.(content := []), depth + 1);
    } else {
      assert t.(content := []) == t;
    }
  }

  /** A rendered element is read behind any blanks, and the one around it goes on. */
  lemma ElementAdded(s: string, t: Node, f: int, b: nat, x: Cursor, d: Node, depth: nat) returns (x': Cursor)
    requires f >= -1 && Regular(t) && NoPre(t) && Has(s, b, Render(t, f))
    requires Good(s, x) && x.text == Some(x.index) && x.endLen == 0 && Blank(s, x.index, b)
    ensures b + |Render(t, f)| <= |s| && Good(s, x') && x' == x.(index := x'.index, text := Some(x'.index))
    ensures x.index < x'.index
    ensures Blank(s, x'.index, b + |Render(t, f)|)
    ensures Parse(s, x, d, depth, Outside) == Parse(s, x', AddChild(d, t), depth, Outside)
  {
    hide Parse, Render, Regular, StartTag, Has, LayoutOf, Blank, MaybeAddText, FromTagEnd, PlainUpTo;
    RenderedAt(s, t, f, b);
    var l := LayoutOf(t, f, b);
    var y := x.(index := l.start);
    BlankJoin(s, x.index, b, l.start);
    BlankPlain(s, x.index, l.start);
    SkipToTag(s, x, d, depth, l.start);
    MaybeBlank(s, y, d, l.start);
    BlankFits(s, x.index, l.start);
    ParseStart(s, y, d, d, depth, l.start, t.name.value, t.attributes, l.tagEnd);
    RegularBare(t);
    ElementParsed(s, t, f, b, y, depth);
    var r := Done(t, f, b, y);
    x' := r.x;
    assert Parse(s, y, d, depth, Outside) == AfterChild(s, r, d, depth, l.start + 1);
    assert AfterChild(s, r, d, depth, l.start + 1) == Parse(s, r.x, AddChild(d, t), depth, Outside);
  }

  lemma BlankFits(s: string, a: nat, b: nat)
    requires Blank(s, a, b)
    ensures a <= b <= |s|
  {
  }

  lemma DocumentParsed(s: string, t: Node, f: int)
    requires f >= -1 && Regular(t) && NoPre(t) && s == Render(t, f)
    ensures
      var r := Parse(s, Cursor(0, Some(0), NoError, 0, 0), HEAD, 0, Outside);
      r.d == AddChild(HEAD, t) && r.x.error == NoError
  {
    hide Parse, Render, Regular, NoPre;
    assert s[0..0 + |s|] == s;
    var x := ElementAdded(s, t, f, 0, Cursor(0, Some(0), NoError, 0, 0), HEAD, 0);
    ParseEnd(s, x, AddChild(HEAD, t));
  }

  lemma RegularBare(t: Node)
    requires Regular(t)
    ensures t.name.Some? && Node(Some(t.name.value), false, t.attributes, []) == t.(content := [])
  {
  }

  /** Parsing undoes rendering, at every format level and without formatting. */
  lemma RoundTrip(t: Node, f: int)
    requires f >= -1 && Normal(t)
    ensures ParseString(Render(t, f)) == Result(Some(t), NoError)
  {
    hide Parse, Render, Regular, NoPre;
    DocumentParsed(Render(t, f), t, f);
    assert HEAD.content + [ChildNode(t)] == [ChildNode(t)];
    assert ChildCount([ChildNode(t)]) == 1 + ChildCount([]);
  }

  /** createXMLString and then parseString. */
  method RenderAndParse(t: Node, formatted: bool) returns (result: Result)
    requires Normal(t)
    ensures result == Result(Some(t), NoError)
  {
    hide Render, Normal;
    var text := CreateXmlString(t, formatted);
    var f := if formatted then 0 else -1;
    RoundTrip(t, f);
    assert text[..text.Length - 1] == Render(t, f);
    result := ParseText(text[..text.Length - 1]);
  }
}
