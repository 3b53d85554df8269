/**
 The tokenizer of xmlParser.cpp: GetNextToken over a NUL-terminated text.
 */
module XmlTokens {

  import opened Options
  import opened XmlText

  /** The tags whose contents are not formatted. */
  datatype ClearTag = ClearTag(open: string, close: string)

  const CLEAR_TAGS: seq<ClearTag> := [
    ClearTag("<![CDATA[", "]]>"), ClearTag("<!DOCTYPE", ">"), ClearTag("<!--", "-->"), ClearTag("<PRE>", "</PRE>")
  ]

  const DOCTYPE := 1
  const COMMENT := 2

  datatype Kind =
    | TextToken | QuotedText | TagStart | TagEnd | CloseTag | Equals | Declaration | ShortHandClose | Clear | ErrorToken

  /** A token: where it starts, how long it is, where the next one is looked for, and its clear tag. */
  datatype Token = Token(kind: Kind, start: nat, len: nat, next: nat, clear: nat)

  predicate IsSpace(c: char) {
    c == '\n' || c == ' ' || c == '\t' || c == '\r'
  }

  function SkipSpaces(s: string, i: nat): (j: nat)
    ensures i <= j && (i <= |s| ==> j <= |s|)
    decreases |s| - i
  {
    if i < |s| && IsSpace(s[i]) then SkipSpaces(s, i + 1) else i
  }

  /** `w` stands at `i`. */
  predicate Has(s: string, i: nat, w: string) {
    i + |w| <= |s| && s[i..i + |w|] == w
  }

  /** The first clear tag that stands at `i`, or the length of the table. */
  function ClearTagAt(s: string, i: nat): (k: nat)
    ensures k < |CLEAR_TAGS| ==> Has(s, i, CLEAR_TAGS[k].open)
  {
    if Has(s, i, CLEAR_TAGS[0].open) then 0
    else if Has(s, i, CLEAR_TAGS[1].open) then 1
    else if Has(s, i, CLEAR_TAGS[2].open) then 2
    else if Has(s, i, CLEAR_TAGS[3].open) then 3
    else 4
  }

  /** Behind the quote that closes a quotation, unless a tag or the end comes first. */
  function QuoteEnd(s: string, i: nat, quote: char): (r: Option<nat>)
    ensures r.Some? ==> i < r.value <= |s|
    decreases |s| - i
  {
    if At(s, i) == '\0' then None
    else if s[i] == quote then Some(i + 1)
    else if s[i] == '<' then None
    else QuoteEnd(s, i + 1, quote)
  }

  /** Where a text token ends. */
  function TextStop(s: string, i: nat): (j: nat)
    ensures i <= j && (i <= |s| ==> j <= |s|)
    decreases |s| - i
  {
    if At(s, i) == '\0' || IsSpace(s[i]) || s[i] == '<' || s[i] == '>' || s[i] == '=' then i
    else if s[i] == '/' && At(s, i + 1) == '>' then i
    else TextStop(s, i + 1)
  }

  /** A text token that starts at `p`; one space behind it is consumed. */
  function TextFrom(s: string, p: nat): (t: Token)
    requires p < |s|
    ensures t.kind == TextToken && t.start == p && t.len >= 1 && p < t.next <= |s| && t.start + t.len <= t.next
  {
    var j := TextStop(s, p + 1);
    Token(TextToken, p, j - p, if IsSpace(At(s, j)) then j + 1 else j, 0)
  }

  /** The token at `p`, where no space stands. */
  function TokenAt(s: string, p: nat): (t: Token)
    ensures t.start == p && (p <= |s| ==> t.next <= |s|)
    ensures t.kind != ErrorToken ==> p < t.next && p < |s|
    ensures t.kind == TextToken || t.kind == QuotedText ==> t.len >= 1 && t.start + t.len <= |s|
    ensures t.kind == QuotedText ==> t.len >= 2
    ensures t.kind == ErrorToken ==> t.next == p
    ensures t.kind == Clear ==> t.clear < |CLEAR_TAGS|
  {
    var c := At(s, p);
    if c == '\0' then Token(ErrorToken, p, 0, p, 0)
    else
      var k := ClearTagAt(s, p);
      if k < |CLEAR_TAGS| then Token(Clear, p, |CLEAR_TAGS[k].open|, p + |CLEAR_TAGS[k].open|, k)
      else if c == '\'' || c == '\"' then
        var q := QuoteEnd(s, p + 1, c);
        if q.Some? then Token(QuotedText, p, q.value - p, q.value, 0) else TextFrom(s, p)
      else if c == '=' then Token(Equals, p, 1, p + 1, 0)
      else if c == '>' then Token(CloseTag, p, 1, p + 1, 0)
      else if c == '<' then
        if At(s, p + 1) == '/' then Token(TagEnd, p, 2, p + 2, 0)
        else if At(s, p + 1) == '?' then Token(Declaration, p, 2, p + 2, 0)
        else Token(TagStart, p, 1, p + 1, 0)
      else if c == '/' && At(s, p + 1) == '>' then Token(ShortHandClose, p, 2, p + 2, 0)
      else TextFrom(s, p)
  }

  function NextToken(s: string, i: nat): (t: Token)
    ensures i <= t.start && (i <= |s| ==> t.next <= |s|) && t.start <= t.next
    ensures t.kind != ErrorToken ==> t.start < t.next && t.start < |s|
    ensures t.kind == TextToken || t.kind == QuotedText ==> t.len >= 1 && t.start + t.len <= |s|
    ensures t.kind == QuotedText ==> t.len >= 2
    ensures t.kind == Clear ==> t.clear < |CLEAR_TAGS|
  {
    TokenAt(s, SkipSpaces(s, i))
  }

  // ---------- The tokenizer step by step ----------

  datatype XmlError =
    | NoError | MissingEndTag | NoXmlTagFound | MissingTagName | MissingEndTagName | UnmatchedEndTag
    | UnmatchedEndClearTag | UnexpectedToken | EntityError(error: DecodeError)

  /** The state of a parse: what is read, where a pending text starts, and an end tag on its way up. */
  class Xml {
    const lpXML: string
    var nIndex: nat
    var lpszText: Option<nat>
    var error: XmlError
    var lpEndTag: nat
    var cbEndTag: nat

    constructor (s: string)
      ensures lpXML == s && nIndex == 0 && lpszText == Some(0) && error == NoError && lpEndTag == cbEndTag == 0
    {
      lpXML := s;
      nIndex, lpszText, error, lpEndTag, cbEndTag := 0, Some(0), NoError, 0, 0;
    }

    /** At the end the NUL is read again and again. */
    method GetNextChar() returns (ch: char)
      modifies this`nIndex
      ensures ch == At(lpXML, old(nIndex))
      ensures nIndex == if ch == '\0' then old(nIndex) else old(nIndex) + 1
    {
      ch := At(lpXML, nIndex);
      if ch != '\0' {
        nIndex := nIndex + 1;
      }
    }

    /** The loop over the table of clear tags. */
    method FindClearTag(p: nat) returns (k: nat)
      ensures k == ClearTagAt(lpXML, p)
    {
      k := 0;
      while k < |CLEAR_TAGS| && !Has(lpXML, p, CLEAR_TAGS[k].open)
        invariant 0 <= k <= |CLEAR_TAGS|
        invariant forall j :: 0 <= j < k ==> !Has(lpXML, p, CLEAR_TAGS[j].open)
      {
        k := k + 1;
      }
      assert k > 0 ==> !Has(lpXML, p, CLEAR_TAGS[0].open);
      assert k > 1 ==> !Has(lpXML, p, CLEAR_TAGS[1].open);
      assert k > 2 ==> !Has(lpXML, p, CLEAR_TAGS[2].open);
      assert k > 3 ==> !Has(lpXML, p, CLEAR_TAGS[3].open);
    }

    /** The search for the closing quote. */
    method ScanQuote(quote: char) returns (found: bool)
      requires quote != '\0'
      modifies this`nIndex
      ensures found <==> QuoteEnd(lpXML, old(nIndex), quote).Some?
      ensures found ==> QuoteEnd(lpXML, old(nIndex), quote) == Some(nIndex)
    {
      found := false;
      var ch := GetNextChar();
      while ch != '\0' && ch != quote && ch != '<'
        invariant ch != '\0' ==> nIndex > 0 && nIndex <= |lpXML| && ch == lpXML[nIndex - 1]
        invariant ch == '\0' ==> QuoteEnd(lpXML, old(nIndex), quote).None?
        invariant ch != '\0' ==> QuoteEnd(lpXML, old(nIndex), quote) == QuoteEnd(lpXML, nIndex - 1, quote)
        decreases |lpXML| - nIndex, ch != '\0'
      {
        ch := GetNextChar();
      }
      found := ch == quote;
    }

    /** The loop that reads a text token; the result is where the text ends. */
    method ScanText(ghost p: nat) returns (stop: nat)
      requires nIndex == p + 1 <= |lpXML|
      modifies this`nIndex
      ensures stop == TextStop(lpXML, p + 1)
      ensures nIndex == TextFrom(lpXML, p).next
    {
      while true
        invariant p + 1 <= nIndex <= |lpXML| && TextStop(lpXML, p + 1) == TextStop(lpXML, nIndex)
        decreases |lpXML| - nIndex
      {
        stop := nIndex;
        var ch := GetNextChar();
        if ch == '\0' {
          break;
        }
        if IsSpace(ch) {
          break;
        } else if ch == '/' {
          if At(lpXML, nIndex) == '>' {
            nIndex := nIndex - 1;
            break;
          }
        } else if ch == '<' || ch == '>' || ch == '=' {
          nIndex := nIndex - 1;
          break;
        }
      }
    }

    /** GetNextToken */
    method GetNextToken() returns (token: Token)
      requires nIndex <= |lpXML|
      modifies this`nIndex
      ensures token == NextToken(lpXML, old(nIndex)) && nIndex == token.next
    {
      var indexStart := nIndex;
      var ch := GetNextChar();
      while IsSpace(ch)
        invariant indexStart <= |lpXML| && ch == At(lpXML, indexStart)
        invariant nIndex == if ch == '\0' then indexStart else indexStart + 1
        invariant SkipSpaces(lpXML, old(nIndex)) == SkipSpaces(lpXML, indexStart)
        decreases |lpXML| - indexStart
      {
        indexStart := nIndex;
        ch := GetNextChar();
      }
      if ch == '\0' {
        return Token(ErrorToken, indexStart, 0, nIndex, 0);
      }
      token := ReadToken(indexStart, ch);
    }

    method ReadToken(p: nat, ch: char) returns (token: Token)
      requires p < |lpXML| && ch == lpXML[p] != '\0' && nIndex == p + 1
      modifies this`nIndex
      ensures token == TokenAt(lpXML, p) && nIndex == token.next
    {
      var k := FindClearTag(p);
      if k < |CLEAR_TAGS| {
        nIndex := nIndex + |CLEAR_TAGS[k].open| - 1;
        return Token(Clear, p, |CLEAR_TAGS[k].open|, nIndex, k);
      }
      if ch == '\'' || ch == '\"' {
        var found := ScanQuote(ch);
        if found {
          return Token(QuotedText, p, nIndex - p, nIndex, 0);
        }
        nIndex := p + 1;
      } else if ch == '=' {
        return Token(Equals, p, 1, nIndex, 0);
      } else if ch == '>' {
        return Token(CloseTag, p, 1, nIndex, 0);
      } else if ch == '<' {
        var chTemp := At(lpXML, nIndex);
        if chTemp == '/' {
          var _ := GetNextChar();
          return Token(TagEnd, p, 2, nIndex, 0);
        } else if chTemp == '?' {
          var _ := GetNextChar();
          return Token(Declaration, p, 2, nIndex, 0);
        }
        return Token(TagStart, p, 1, nIndex, 0);
      } else if ch == '/' && At(lpXML, nIndex) == '>' {
        var _ := GetNextChar();
        return Token(ShortHandClose, p, 2, nIndex, 0);
      }
      var stop := ScanText(p);
      token := Token(TextToken, p, stop - p, nIndex, 0);
    }
  }
}
