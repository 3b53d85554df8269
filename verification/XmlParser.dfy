/**
 The recursive-descent parser of xmlParser.cpp, with dropWhiteSpace and removeCommentsInMiddleOfText set.

 `Parse` is one run of ParseXMLElement, written as a state machine over tokens; the method ParseXmlElement
 is proved to follow it.
 */
module XmlParser {

  import opened Options
  import opened XmlText
  import opened XmlTokens
  import opened XmlPrinter

  /** The fields of `Xml` that a parse changes. */
  datatype Cursor = Cursor(index: nat, text: Option<nat>, error: XmlError, endTag: nat, endLen: nat)

  /** Inside a tag: a name, an equals sign or a value is looked for. */
  datatype Mode = Outside | AttribName | AttribEquals(start: nat, len: nat) | AttribValue(start: nat, len: nat)

  datatype Outcome = Outcome(more: bool, x: Cursor, d: Node)

  predicate Good(s: string, x: Cursor) {
    x.index <= |s| && (x.text.Some? ==> x.text.value <= x.index)
  }

  predicate GoodMode(s: string, mode: Mode) {
    match mode
    case AttribEquals(start, len) => start + len <= |s| && len >= 1
    case AttribValue(start, len) => start + len <= |s| && len >= 1
    case _ => true
  }

  // ---------- Texts ----------

  function TrimStart(s: string, a: nat, b: nat): (r: nat)
    requires a <= b <= |s|
    ensures a <= r <= b
    decreases b - a
  {
    if a < b && IsSpace(s[a]) then TrimStart(s, a + 1, b) else a
  }

  function TrimEnd(s: string, a: nat, b: nat): (r: nat)
    requires a < b <= |s|
    ensures a < r <= b
    decreases b
  {
    if b > a + 1 && IsSpace(s[b - 1]) then TrimEnd(s, a, b - 1) else b
  }

  /** A text behind a comment that stands behind a text replaces the comment and joins the text. */
  function AddText(d: Node, text: string): Node {
    var c := d.content;
    if |c| >= 2 && c[|c| - 1].ClearNode? && c[|c| - 1].open == CLEAR_TAGS[COMMENT].open && c[|c| - 2].TextNode? then
      d.(content := c[..|c| - 2] + [TextNode(c[|c| - 2].text + text)])
    else d.(content := c + [TextNode(text)])
  }

  /** maybeAddTxT: the pending text up to `p` becomes a text node, unless it is blank. */
  function MaybeAddText(s: string, x: Cursor, d: Node, p: nat): (r: Outcome)
    requires x.text.Some? ==> x.text.value <= p
    requires p <= |s|
    ensures r.x.index == x.index && (r.more ==> r.x.text.None? && r.x.error == x.error)
    ensures !r.more ==> r.x.text == x.text
    ensures r.x.endTag == x.endTag && r.x.endLen == x.endLen
  {
    if x.text.None? then Outcome(true, x, d)
    else
      var a := TrimStart(s, x.text.value, p);
      if a == p then Outcome(true, x.(text := None), d)
      else
        var t := Decode(s[a..TrimEnd(s, a, p)]);
        if t.Failed? then Outcome(false, x.(error := EntityError(t.error)), d)
        else Outcome(true, x.(text := None), AddText(d, t.s))
  }

  // ---------- Clear tags ----------

  /** The first place from `i` on where `w` stands. */
  function Find(s: string, i: nat, w: string): (r: Option<nat>)
    ensures r.Some? ==> i <= r.value && Has(s, r.value, w)
    decreases |s| - i
  {
    if Has(s, i, w) then Some(i) else if i >= |s| then None else Find(s, i + 1, w)
  }

  /** The first angle bracket from `i` on. */
  function FindBracket(s: string, i: nat): (r: Option<nat>)
    ensures r.Some? ==> i <= r.value < |s| && (s[r.value] == '<' || s[r.value] == '>')
    decreases |s| - i
  {
    if At(s, i) == '\0' then None
    else if s[i] == '<' || s[i] == '>' then Some(i)
    else FindBracket(s, i + 1)
  }

  datatype Closing = Closing(at: Option<nat>, close: string)

  /** Where a clear tag of kind `k` ends, when its contents start at `i`. */
  function FindClosing(s: string, i: nat, k: nat): (r: Closing)
    requires k < |CLEAR_TAGS|
    ensures r.at.Some? ==> i <= r.at.value && Has(s, r.at.value, r.close)
  {
    if k == DOCTYPE then
      var b := FindBracket(s, i);
      if b.None? then Closing(None, CLEAR_TAGS[k].close)
      else if s[b.value] == '<' then Closing(Find(s, i, "]>"), "]>")
      else
        assert s[b.value..b.value + 1] == ">";
        Closing(b, CLEAR_TAGS[k].close)
    else Closing(Find(s, i, CLEAR_TAGS[k].close), CLEAR_TAGS[k].close)
  }

  /** parseClearTag */
  function ParseClear(s: string, x: Cursor, d: Node, k: nat): (r: Outcome)
    requires Good(s, x) && k < |CLEAR_TAGS|
    ensures Good(s, r.x) && r.x.index >= x.index
  {
    var c := FindClosing(s, x.index, k);
    if c.at.None? then Outcome(false, x.(error := UnmatchedEndClearTag), d)
    else
      var clear := ClearNode(CLEAR_TAGS[k].open, s[x.index..c.at.value], c.close);
      Outcome(true, x.(index := c.at.value + |c.close|), d.(content := d.content + [clear]))
  }

  // ---------- Elements ----------

  /** myTagCompare: `name` stands at `p`, in any case, and ends there. */
  predicate SameTag(name: Option<string>, s: string, p: nat) {
    && name.Some?
    && p + |name.value| <= |s|
    && (forall j :: 0 <= j < |name.value| ==> Lower(s[p + j]) == Lower(name.value[j]))
    && var c := At(s, p + |name.value|); IsSpace(c) || c == '/' || c == '<' || c == '>' || c == '='
  }

  function AddAttribute(d: Node, name: string, value: Option<string>): Node {
    d.(attributes := d.attributes + [Attribute(name, value)])
  }

  function AddChild(d: Node, child: Node): Node {
    d.(content := d.content + [ChildNode(child)])
  }

  /** An end tag: `more` says whether it is well formed. */
  function ParseEndTag(s: string, x: Cursor, d: Node): (r: Outcome)
    requires Good(s, x)
    ensures Good(s, r.x) && r.x.index >= x.index
  {
    var name := NextToken(s, x.index);
    var x1 := x.(index := name.next);
    if name.kind != TextToken then Outcome(false, x1.(error := MissingEndTagName), d)
    else
      var close := NextToken(s, x1.index);
      var x2 := x1.(index := close.next);
      if close.kind != CloseTag then Outcome(false, x2.(error := MissingEndTagName), d)
      else
        var x3 := x2.(text := Some(x2.index));
        if SameTag(d.name, s, name.start) then Outcome(true, x3, d)
        else Outcome(true, x3.(error := MissingEndTag, endTag := name.start, endLen := name.len), d)
  }

  /** The end of a tag behind an attribute without value; a declaration drops a question mark there. */
  function CloseAttribute(s: string, d: Node, depth: nat, start: nat, len: nat, kind: Kind): (Node, bool)
    requires start + len <= |s| && len >= 1
  {
    var question := d.isDeclaration && s[start + len - 1] == '?';
    var len' := if question then len - 1 else len;
    var d' := if len' > 0 then AddAttribute(d, s[start..start + len'], None) else d;
    (d', kind == ShortHandClose || (question && depth >= 2))
  }

  /** The value of an attribute from its token; an unquoted value of a declaration drops a question mark. */
  function AttributeText(s: string, d: Node, t: Token): string
    requires (t.kind == TextToken || t.kind == QuotedText) && t.len >= 1 && t.start + t.len <= |s|
    requires t.kind == QuotedText ==> t.len >= 2
  {
    if t.kind == QuotedText then s[t.start + 1..t.start + t.len - 1]
    else if d.isDeclaration && s[t.start + t.len - 1] == '?' then s[t.start..t.start + t.len - 1]
    else s[t.start..t.start + t.len]
  }

  /** ParseXMLElement for the element `d` at the given depth; `more` is its result. */
  function Parse(s: string, x: Cursor, d: Node, depth: nat, mode: Mode): (r: Outcome)
    requires Good(s, x) && GoodMode(s, mode)
    ensures Good(s, r.x) && r.x.index >= x.index
    decreases |s| - x.index, 0
  {
    var t := NextToken(s, x.index);
    var x1 := x.(index := t.next);
    if t.kind == ErrorToken then
      var x2 := if !d.isDeclaration && depth > 0 then x1.(error := MissingEndTag) else x1;
      MaybeAddText(s, x2, d, x2.index).(more := false)
    else
      match mode
      case Outside =>
        if t.kind == TagStart then ParseChild(s, x1, d, depth, t, false)
        else if t.kind == Declaration then ParseChild(s, x1, d, depth, t, true)
        else if t.kind == TagEnd then
          var m := MaybeAddText(s, x1, d, t.start);
          if !m.more then m else ParseEndTag(s, m.x, m.d)
        else if t.kind == Clear then
          var m := MaybeAddText(s, x1, d, t.start);
          if !m.more then m
          else
            var c := ParseClear(s, m.x, m.d, t.clear);
            if !c.more then c else Parse(s, c.x.(text := Some(c.x.index)), c.d, depth, Outside)
        else Parse(s, x1, d, depth, Outside)
      case AttribName =>
        if t.kind == TextToken then Parse(s, x1, d, depth, AttribEquals(t.start, t.len))
        else if t.kind == CloseTag then Parse(s, x1.(text := Some(x1.index)), d, depth, Outside)
        else if t.kind == ShortHandClose then Outcome(true, x1.(text := Some(x1.index)), d)
        else Outcome(false, x1.(error := UnexpectedToken), d)
      case AttribEquals(start, len) =>
        if t.kind == TextToken then
          Parse(s, x1, AddAttribute(d, s[start..start + len], None), depth, AttribEquals(t.start, t.len))
        else if t.kind == Equals then Parse(s, x1, d, depth, AttribValue(start, len))
        else if t.kind == CloseTag || t.kind == ShortHandClose then CloseTagBehind(s, x1, d, depth, start, len, t.kind)
        else Outcome(false, x1.(error := UnexpectedToken), d)
      case AttribValue(start, len) =>
        if t.kind == TextToken || t.kind == QuotedText then
          var v := Decode(AttributeText(s, d, t));
          if v.Failed? then Outcome(false, x1.(error := EntityError(v.error)), d)
          else Parse(s, x1, AddAttribute(d, s[start..start + len], Some(v.s)), depth, AttribName)
        else Outcome(false, x1.(error := UnexpectedToken), d)
  }

  function CloseTagBehind(s: string, x1: Cursor, d: Node, depth: nat, start: nat, len: nat, kind: Kind): (r: Outcome)
    requires Good(s, x1) && start + len <= |s| && len >= 1
    ensures Good(s, r.x) && r.x.index >= x1.index
    decreases |s| - x1.index, 1
  {
    var x2 := x1.(text := Some(x1.index));
    var (d', done) := CloseAttribute(s, d, depth, start, len, kind);
    if done then Outcome(true, x2, d') else Parse(s, x2, d', depth, Outside)
  }

  /** A start tag behind which a child is parsed and added. */
  function ParseChild(s: string, x1: Cursor, d: Node, depth: nat, t: Token, isDeclaration: bool): (r: Outcome)
    requires Good(s, x1) && t.start < t.next && t.next == x1.index
    requires x1.text.Some? ==> x1.text.value <= t.start
    ensures Good(s, r.x) && r.x.index >= x1.index
    decreases |s| - x1.index, 1
  {
    var m := MaybeAddText(s, x1, d, t.start);
    if !m.more then m
    else
      var name := NextToken(s, m.x.index);
      var x2 := m.x.(index := name.next);
      if name.kind != TextToken then Outcome(false, x2.(error := MissingTagName), m.d)
      else
        var child := Node(Some(s[name.start..name.start + name.len]), isDeclaration, [], []);
        var r := Parse(s, x2, child, depth + 1, AttribName);
        AfterChild(s, r, m.d, depth, x1.index)
  }

  /** What follows when a child has been parsed. */
  function AfterChild(s: string, r: Outcome, d: Node, depth: nat, from: nat): (r': Outcome)
    requires Good(s, r.x) && r.x.index > from && from <= |s|
    ensures Good(s, r'.x) && r'.x.index >= from
    decreases |s| - from, 0
  {
    var d' := AddChild(d, r.d);
    if !r.more then Outcome(false, r.x, d')
    else if r.x.endLen > 0 then
      if d.name.None? then Outcome(false, r.x.(error := UnmatchedEndTag), d')
      else if SameTag(d.name, s, r.x.endTag) then Outcome(true, r.x.(endLen := 0), d')
      else Outcome(true, r.x, d')
    else Parse(s, r.x, d', depth, Outside)
  }

  // ---------- Documents ----------

  function ChildCount(cs: seq<Content>): nat {
    if cs == [] then 0 else (if cs[0].ChildNode? then 1 else 0) + ChildCount(cs[1..])
  }

  datatype Result = Result(node: Option<Node>, error: XmlError)

  const HEAD := Node(None, false, [], [])

  /** parseString without a tag to look for */
  function ParseString(s: string): Result {
    var r := Parse(s, Cursor(0, Some(0), NoError, 0, 0), HEAD, 0, Outside);
    var children := ChildCount(r.d.content);
    var error := if children == 0 then NoXmlTagFound else r.x.error;
    var node := if children == 1 && |r.d.content| == 1 && |r.d.attributes| == 0 && r.d.content[0].ChildNode?
                then r.d.content[0].node else r.d;
    if error == NoError || error == MissingEndTag || error == NoXmlTagFound then Result(Some(node), error)
    else Result(None, error)
  }

  // ---------- The parser step by step ----------

  function ValueOf(xml: Xml): Cursor
    reads xml
  {
    Cursor(xml.nIndex, xml.lpszText, xml.error, xml.lpEndTag, xml.cbEndTag)
  }

  method FindTrimStart(s: string, a: nat, b: nat) returns (r: nat)
    requires a <= b <= |s|
    ensures r == TrimStart(s, a, b)
  {
    r := a;
    while r < b && IsSpace(s[r])
      invariant a <= r <= b && TrimStart(s, a, b) == TrimStart(s, r, b)
    {
      r := r + 1;
    }
  }

  method FindTrimEnd(s: string, a: nat, b: nat) returns (r: nat)
    requires a < b <= |s|
    ensures r == TrimEnd(s, a, b)
  {
    var cbText := b - a - 1;
    while cbText > 0 && IsSpace(s[a + cbText])
      invariant 0 <= cbText < b - a && TrimEnd(s, a, b) == TrimEnd(s, a, a + cbText + 1)
    {
      cbText := cbText - 1;
    }
    r := a + cbText + 1;
  }

  method MaybeAddTxt(xml: Xml, d: Node, p: nat) returns (failed: bool, d': Node)
    requires xml.lpszText.Some? ==> xml.lpszText.value <= p
    requires p <= |xml.lpXML|
    modifies xml`lpszText, xml`error
    ensures Outcome(!failed, ValueOf(xml), d') == MaybeAddText(xml.lpXML, old(ValueOf(xml)), d, p)
  {
    if xml.lpszText.None? {
      return false, d;
    }
    var a := FindTrimStart(xml.lpXML, xml.lpszText.value, p);
    if a == p {
      xml.lpszText := None;
      return false, d;
    }
    var e := FindTrimEnd(xml.lpXML, a, p);
    var lpt := FromXmlString(xml.lpXML[a..e]);
    if lpt.Failed? {
      xml.error := EntityError(lpt.error);
      return true, d;
    }
    xml.lpszText := None;
    return false, AddText(d, lpt.s);
  }

  /** xstrstr */
  method FindString(s: string, i: nat, w: string) returns (r: Option<nat>)
    ensures r == Find(s, i, w)
  {
    var j := i;
    while !Has(s, j, w) && j < |s|
      invariant i <= j && Find(s, i, w) == Find(s, j, w)
      decreases |s| - j
    {
      j := j + 1;
    }
    r := if Has(s, j, w) then Some(j) else None;
  }

  method ParseClearTag(xml: Xml, d: Node, k: nat) returns (failed: bool, d': Node)
    requires Good(xml.lpXML, ValueOf(xml)) && k < |CLEAR_TAGS|
    modifies xml`nIndex, xml`error
    ensures Outcome(!failed, ValueOf(xml), d') == ParseClear(xml.lpXML, old(ValueOf(xml)), d, k)
  {
    var start := xml.nIndex;
    var close := CLEAR_TAGS[k].close;
    var lpszTemp := None;
    if k == DOCTYPE {
      var pCh := start;
      while At(xml.lpXML, pCh) != '\0' && xml.lpXML[pCh] != '<' && xml.lpXML[pCh] != '>'
        invariant start <= pCh <= |xml.lpXML| && FindBracket(xml.lpXML, start) == FindBracket(xml.lpXML, pCh)
        decreases |xml.lpXML| - pCh
      {
        pCh := pCh + 1;
      }
      if At(xml.lpXML, pCh) == '<' {
        close := "]>";
        lpszTemp := FindString(xml.lpXML, start, close);
      } else if At(xml.lpXML, pCh) == '>' {
        lpszTemp := Some(pCh);
      }
    } else {
      lpszTemp := FindString(xml.lpXML, start, close);
    }
    if lpszTemp.Some? {
      xml.nIndex := lpszTemp.value + |close|;
      var clear := ClearNode(CLEAR_TAGS[k].open, xml.lpXML[start..lpszTemp.value], close);
      return false, d.(content := d.content + [clear]);
    }
    xml.error := UnmatchedEndClearTag;
    return true, d;
  }

  /** The branch of ParseXMLElement for an end tag. */
  method ParseTagEnd(xml: Xml, d: Node) returns (more: bool)
    requires Good(xml.lpXML, ValueOf(xml))
    modifies xml
    ensures Outcome(more, ValueOf(xml), d) == ParseEndTag(xml.lpXML, old(ValueOf(xml)), d)
  {
    hide NextToken;
    var name := xml.GetNextToken();
    if name.kind != TextToken {
      xml.error := MissingEndTagName;
      return false;
    }
    var close := xml.GetNextToken();
    if close.kind != CloseTag {
      xml.error := MissingEndTagName;
      return false;
    }
    xml.lpszText := Some(xml.nIndex);
    if !SameTag(d.name, xml.lpXML, name.start) {
      xml.error := MissingEndTag;
      xml.lpEndTag := name.start;
      xml.cbEndTag := name.len;
    }
    return true;
  }

  /** Whether the loop over the tokens goes on, and where it is. */
  datatype Step = Go(mode: Mode) | Stop(more: bool)

  /** What a step leaves to do for the parse that stood at `x0`. */
  ghost predicate Follows(s: string, x0: Cursor, d0: Node, depth: nat, mode: Mode, step: Step, x: Cursor, d: Node)
    requires Good(s, x0) && GoodMode(s, mode)
  {
    match step
    case Stop(more) => Outcome(more, x, d) == Parse(s, x0, d0, depth, mode)
    case Go(next) =>
      && Good(s, x) && GoodMode(s, next) && x.index > x0.index
      && Parse(s, x, d, depth, next) == Parse(s, x0, d0, depth, mode)
  }

  /** The status eInsideTag of ParseXMLElement. */
  method StepInsideTag(xml: Xml, d: Node, depth: nat, mode: Mode, token: Token, ghost x0: Cursor)
    returns (step: Step, d': Node)
    requires mode != Outside && Good(xml.lpXML, x0) && GoodMode(xml.lpXML, mode)
    requires token == NextToken(xml.lpXML, x0.index) && token.kind != ErrorToken
    requires ValueOf(xml) == x0.(index := token.next)
    modifies xml`lpszText, xml`error
    ensures Follows(xml.lpXML, x0, d, depth, mode, step, ValueOf(xml), d')
  {
    hide CloseAttribute, AttributeText, Decode, TokenAt, SkipSpaces;
    ghost var x1 := ValueOf(xml);
    d' := d;
    match mode {
      case AttribName =>
        if token.kind == TextToken {
          step := Go(AttribEquals(token.start, token.len));
        } else if token.kind == CloseTag {
          xml.lpszText := Some(xml.nIndex);
          step := Go(Outside);
        } else if token.kind == ShortHandClose {
          xml.lpszText := Some(xml.nIndex);
          step := Stop(true);
        } else {
          xml.error := UnexpectedToken;
          step := Stop(false);
        }
      case AttribEquals(start, len) =>
        if token.kind == TextToken {
          d' := AddAttribute(d, xml.lpXML[start..start + len], None);
          step := Go(AttribEquals(token.start, token.len));
        } else if token.kind == ShortHandClose || token.kind == CloseTag {
          assert Parse(xml.lpXML, x0, d, depth, mode)
              == CloseTagBehind(xml.lpXML, x1, d, depth, start, len, token.kind);
          xml.lpszText := Some(xml.nIndex);
          var done;
          done, d' := CloseUnvalued(xml.lpXML, d, depth, start, len, token.kind);
          step := if done then Stop(true) else Go(Outside);
        } else if token.kind == Equals {
          step := Go(AttribValue(start, len));
        } else {
          xml.error := UnexpectedToken;
          step := Stop(false);
        }
      case AttribValue(start, len) =>
        if token.kind == TextToken || token.kind == QuotedText {
          var attrVal := FromXmlString(AttributeText(xml.lpXML, d, token));
          if attrVal.Failed? {
            xml.error := EntityError(attrVal.error);
            step := Stop(false);
          } else {
            d' := AddAttribute(d, xml.lpXML[start..start + len], Some(attrVal.s));
            step := Go(AttribName);
          }
        } else {
          xml.error := UnexpectedToken;
          step := Stop(false);
        }
    }
  }

  /** The status eOutsideTag of ParseXMLElement, for tokens that do not open an element. */
  method StepOutsideTag(xml: Xml, d: Node, depth: nat, token: Token, ghost x0: Cursor) returns (step: Step, d': Node)
    requires Good(xml.lpXML, x0) && token == NextToken(xml.lpXML, x0.index)
    requires token.kind != ErrorToken && token.kind != TagStart && token.kind != Declaration
    requires ValueOf(xml) == x0.(index := token.next)
    modifies xml
    ensures Follows(xml.lpXML, x0, d, depth, Outside, step, ValueOf(xml), d')
  {
    hide NextToken, MaybeAddText, ParseClear, ParseEndTag;
    d' := d;
    if token.kind == TagEnd || token.kind == Clear {
      var failed;
      failed, d' := MaybeAddTxt(xml, d, token.start);
      if failed {
        return Stop(false), d';
      }
      if token.kind == TagEnd {
        var more := ParseTagEnd(xml, d');
        return Stop(more), d';
      }
      failed, d' := ParseClearTag(xml, d', token.clear);
      if failed {
        return Stop(false), d';
      }
      xml.lpszText := Some(xml.nIndex);
    }
    step := Go(Outside);
  }

  /** The stages of ParseChild. */
  lemma ParseChildStages(s: string, x1: Cursor, d: Node, depth: nat, t: Token, isDeclaration: bool, m: Outcome)
    requires Good(s, x1) && t.start < t.next && t.next == x1.index
    requires x1.text.Some? ==> x1.text.value <= t.start
    requires m == MaybeAddText(s, x1, d, t.start)
    ensures !m.more ==> ParseChild(s, x1, d, depth, t, isDeclaration) == m
    ensures m.more ==>
      var name := NextToken(s, m.x.index);
      var x2 := m.x.(index := name.next);
      ParseChild(s, x1, d, depth, t, isDeclaration) ==
        if name.kind != TextToken then Outcome(false, x2.(error := MissingTagName), m.d)
        else
          var child := Node(Some(s[name.start..name.start + name.len]), isDeclaration, [], []);
          AfterChild(s, Parse(s, x2, child, depth + 1, AttribName), m.d, depth, x1.index)
  {
    hide MaybeAddText, AfterChild, Parse, TokenAt, SkipSpaces;
  }

  lemma ParseOpens(s: string, x0: Cursor, d: Node, depth: nat, t: Token)
    requires Good(s, x0) && t == NextToken(s, x0.index) && (t.kind == TagStart || t.kind == Declaration)
    ensures Parse(s, x0, d, depth, Outside)
      == ParseChild(s, x0.(index := t.next), d, depth, t, t.kind == Declaration)
  {
    hide ParseChild, TokenAt, SkipSpaces, MaybeAddText;
  }

  /** A start tag: the name is read, and the new element parsed and added. */
  method StepChild(xml: Xml, d: Node, depth: nat, token: Token, ghost x0: Cursor) returns (step: Step, d': Node)
    requires Good(xml.lpXML, x0) && token == NextToken(xml.lpXML, x0.index)
    requires token.kind == TagStart || token.kind == Declaration
    requires ValueOf(xml) == x0.(index := token.next)
    modifies xml
    ensures Follows(xml.lpXML, x0, d, depth, Outside, step, ValueOf(xml), d')
    decreases |xml.lpXML| - xml.nIndex, 0
  {
    hide Parse, ParseChild, AfterChild, MaybeAddText, TokenAt, SkipSpaces;
    ghost var s, x1 := xml.lpXML, ValueOf(xml);
    ParseOpens(s, x0, d, depth, token);
    var failed;
    failed, d' := MaybeAddTxt(xml, d, token.start);
    ParseChildStages(s, x1, d, depth, token, token.kind == Declaration, Outcome(!failed, ValueOf(xml), d'));
    if failed {
      return Stop(false), d';
    }
    var name := xml.GetNextToken();
    if name.kind != TextToken {
      xml.error := MissingTagName;
      return Stop(false), d';
    }
    var pNew := Node(Some(xml.lpXML[name.start..name.start + name.len]), token.kind == Declaration, [], []);
    var more;
    more, pNew := ParseXmlElement(xml, pNew, depth + 1, false);
    step, d' := JoinChild(xml, d', pNew, more, depth, x1.index);
  }

  /** A parsed child is added; an end tag on its way up may end this element too. */
  method JoinChild(xml: Xml, d: Node, pNew: Node, more: bool, depth: nat, ghost from: nat)
    returns (step: Step, d': Node)
    requires Good(xml.lpXML, ValueOf(xml)) && xml.nIndex > from && from <= |xml.lpXML|
    modifies xml`error, xml`cbEndTag
    ensures ValueOf(xml).index == old(xml.nIndex) && Good(xml.lpXML, ValueOf(xml))
    ensures
      var r := AfterChild(xml.lpXML, Outcome(more, old(ValueOf(xml)), pNew), d, depth, from);
      if step.Stop? then r == Outcome(step.more, ValueOf(xml), d')
      else step.mode == Outside && r == Parse(xml.lpXML, ValueOf(xml), d', depth, Outside)
  {
    hide SameTag, Parse;
    d' := AddChild(d, pNew);
    if !more {
      return Stop(false), d';
    }
    if xml.cbEndTag > 0 {
      if d'.name.None? {
        xml.error := UnmatchedEndTag;
        return Stop(false), d';
      }
      if SameTag(d'.name, xml.lpXML, xml.lpEndTag) {
        xml.cbEndTag := 0;
      }
      return Stop(true), d';
    }
    step := Go(Outside);
  }

  /** ParseXMLElement: goes through the tokens of one element and descends into its children. */
  method ParseXmlElement(xml: Xml, d0: Node, depth: nat, first: bool) returns (more: bool, d: Node)
    requires Good(xml.lpXML, ValueOf(xml))
    modifies xml
    ensures Outcome(more, ValueOf(xml), d)
      == Parse(xml.lpXML, old(ValueOf(xml)), d0, depth, if first then Outside else AttribName)
    decreases |xml.lpXML| - xml.nIndex, 1
  {
    d := d0;
    var mode := if first then Outside else AttribName;
    ghost var goal := Parse(xml.lpXML, ValueOf(xml), d0, depth, mode);
    while true
      invariant Good(xml.lpXML, ValueOf(xml)) && GoodMode(xml.lpXML, mode) && xml.nIndex >= old(xml.nIndex)
      invariant Parse(xml.lpXML, ValueOf(xml), d, depth, mode) == goal
      decreases |xml.lpXML| - xml.nIndex
    {
      ghost var x0 := ValueOf(xml);
      var token := xml.GetNextToken();
      if token.kind == ErrorToken {
        more, d := EndOfText(xml, d, depth, mode, x0);
        return;
      }
      var step;
      if mode != Outside {
        step, d := StepInsideTag(xml, d, depth, mode, token, x0);
      } else if token.kind == TagStart || token.kind == Declaration {
        step, d := StepChild(xml, d, depth, token, x0);
      } else {
        step, d := StepOutsideTag(xml, d, depth, token, x0);
      }
      if step.Stop? {
        return step.more, d;
      }
      mode := step.mode;
    }
  }

  /** No further token: only the head and a declaration may end here. */
  method EndOfText(xml: Xml, d: Node, depth: nat, ghost mode: Mode, ghost x0: Cursor) returns (more: bool, d': Node)
    requires Good(xml.lpXML, x0) && GoodMode(xml.lpXML, mode) && NextToken(xml.lpXML, x0.index).kind == ErrorToken
    requires ValueOf(xml) == x0.(index := NextToken(xml.lpXML, x0.index).next)
    modifies xml`lpszText, xml`error
    ensures Outcome(more, ValueOf(xml), d') == Parse(xml.lpXML, x0, d, depth, mode)
  {
    hide NextToken, MaybeAddText;
    if !d.isDeclaration && depth > 0 {
      xml.error := MissingEndTag;
    }
    var ignored;
    ignored, d' := MaybeAddTxt(xml, d, xml.nIndex);
    more := false;
  }

  /** The end of a tag behind an attribute without value. */
  method CloseUnvalued(s: string, d: Node, depth: nat, start: nat, len: nat, kind: Kind)
    returns (done: bool, d': Node)
    requires start + len <= |s| && len >= 1
    ensures (d', done) == CloseAttribute(s, d, depth, start, len, kind)
  {
    var cbTemp, short := len, kind == ShortHandClose;
    if d.isDeclaration && s[start + len - 1] == '?' {
      cbTemp := cbTemp - 1;
      if depth >= 2 {
        short := true;
      }
    }
    d' := d;
    if cbTemp > 0 {
      d' := AddAttribute(d, s[start..start + cbTemp], None);
    }
    done := short;
  }

  /** parseString without a tag to look for */
  method ParseText(s: string) returns (result: Result)
    ensures result == ParseString(s)
  {
    var xml := new Xml(s);
    var ignored, xnode := ParseXmlElement(xml, HEAD, 0, true);
    var children := ChildCount(xnode.content);
    var error := if children == 0 then NoXmlTagFound else xml.error;
    if children == 1 && |xnode.content| == 1 && |xnode.attributes| == 0 && xnode.content[0].ChildNode? {
      xnode := xnode.content[0].node;
    }
    if error == NoError || error == MissingEndTag || error == NoXmlTagFound {
      return Result(Some(xnode), error);
    }
    return Result(None, error);
  }
}
