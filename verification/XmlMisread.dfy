/**
 When parsing does not undo rendering: an element named "PRE" with content but no attributes is rendered like a clear
 tag. The first such element of a tree is read as a clear node, or as an error, and what a parse has added stays.
 */
module XmlMisread {

  import opened Options
  import opened XmlText
  import opened XmlTokens
  import opened XmlPrinter
  import opened XmlParser
  import opened XmlRoundTrip

  // ---------- What a parse keeps ----------

  /** No later text can change it. */
  predicate Fixed(c: Content) {
    !c.TextNode? && !IsComment(c)
  }

  /** `r` has the name of `d`, and its fixed contents at the same places. */
  predicate Keeps(d: Node, r: Node) {
    && r.name == d.name
    && forall j :: 0 <= j < |d.content| && Fixed(d.content[j]) ==> j < |r.content| && r.content[j] == d.content[j]
  }

  lemma KeepsTwice(a: Node, b: Node, c: Node)
    requires Keeps(a, b) && Keeps(b, c)
    ensures Keeps(a, c)
  {
    forall j | 0 <= j < |a.content| && Fixed(a.content[j]) ensures j < |c.content| && c.content[j] == a.content[j] {
      assert b.content[j] == a.content[j];
    }
  }

  lemma AddTextKeeps(d: Node, text: string)
    ensures Keeps(d, AddText(d, text))
  {
  }

  lemma MaybeAddKeeps(s: string, x: Cursor, d: Node, p: nat)
    requires (x.text.Some? ==> x.text.value <= p) && p <= |s|
    ensures Keeps(d, MaybeAddText(s, x, d, p).d)
  {
    hide AddText, Keeps;
    KeepsItself(d);
    if MaybeAddText(s, x, d, p).d != d {
      var a := TrimStart(s, x.text.value, p);
      AddTextKeeps(d, Decode(s[a..TrimEnd(s, a, p)]).s);
    }
  }

  lemma KeepsItself(d: Node)
    ensures Keeps(d, d)
  {
  }

  lemma AddKeeps(d: Node, c: Content)
    ensures Keeps(d, d.(content := d.content + [c]))
  {
  }

  lemma AttributeKeeps(d: Node, name: string, value: Option<string>)
    ensures Keeps(d, AddAttribute(d, name, value))
  {
  }

  lemma {:induction false} ParseKeeps(s: string, x: Cursor, d: Node, depth: nat, mode: Mode)
    requires Good(s, x) && GoodMode(s, mode)
    ensures Keeps(d, Parse(s, x, d, depth, mode).d)
    decreases |s| - x.index, 2
  {
    hide TokenAt, SkipSpaces, MaybeAddText, Keeps, ParseClear, ParseEndTag, ParseChild, CloseTagBehind, Decode;
    KeepsItself(d);
    var t := NextToken(s, x.index);
    var x1 := x.(index := t.next);
    if t.kind == ErrorToken {
      MaybeAddKeeps(s, if !d.isDeclaration && depth > 0 then x1.(error := MissingEndTag) else x1, d, x1.index);
    } else {
      match mode
      case Outside => OutsideKeeps(s, x, d, depth, t);
      case AttribName =>
        if t.kind == TextToken {
          ParseKeeps(s, x1, d, depth, AttribEquals(t.start, t.len));
        } else if t.kind == CloseTag {
          ParseKeeps(s, x1.(text := Some(x1.index)), d, depth, Outside);
        }
      case AttribEquals(start, len) =>
        if t.kind == TextToken {
          var d' := AddAttribute(d, s[start..start + len], None);
          AttributeKeeps(d, s[start..start + len], None);
          ParseKeeps(s, x1, d', depth, AttribEquals(t.start, t.len));
          KeepsTwice(d, d', Parse(s, x1, d', depth, AttribEquals(t.start, t.len)).d);
        } else if t.kind == Equals {
          ParseKeeps(s, x1, d, depth, AttribValue(start, len));
        } else if t.kind == CloseTag || t.kind == ShortHandClose {
          CloseKeeps(s, x1, d, depth, start, len, t.kind);
        }
      case AttribValue(start, len) =>
        if t.kind == TextToken || t.kind == QuotedText {
          var v := Decode(AttributeText(s, d, t));
          if v.Text? {
            var d' := AddAttribute(d, s[start..start + len], Some(v.s));
            AttributeKeeps(d, s[start..start + len], Some(v.s));
            ParseKeeps(s, x1, d', depth, AttribName);
            KeepsTwice(d, d', Parse(s, x1, d', depth, AttribName).d);
          }
        }
    }
  }

  lemma {:induction false} OutsideKeeps(s: string, x: Cursor, d: Node, depth: nat, t: Token)
    requires Good(s, x) && t == NextToken(s, x.index) && t.kind != ErrorToken
    ensures Keeps(d, Parse(s, x, d, depth, Outside).d)
    decreases |s| - x.index, 1
  {
    hide TokenAt, SkipSpaces, MaybeAddText, Keeps, ParseClear, ParseEndTag, ParseChild, CloseTagBehind, Decode;
    var x1 := x.(index := t.next);
    if t.kind == TagStart || t.kind == Declaration {
      ChildKeeps(s, x1, d, depth, t, t.kind == Declaration);
    } else if t.kind == TagEnd {
      MaybeAddKeeps(s, x1, d, t.start);
      var m := MaybeAddText(s, x1, d, t.start);
      if m.more {
        EndTagIs(s, m.x, m.d);
      }
    } else if t.kind == Clear {
      MaybeAddKeeps(s, x1, d, t.start);
      var m := MaybeAddText(s, x1, d, t.start);
      if m.more {
        ClearKeeps(s, m.x, m.d, t.clear);
        var c := ParseClear(s, m.x, m.d, t.clear);
        KeepsTwice(d, m.d, c.d);
        if c.more {
          ParseKeeps(s, c.x.(text := Some(c.x.index)), c.d, depth, Outside);
          KeepsTwice(d, c.d, Parse(s, c.x.(text := Some(c.x.index)), c.d, depth, Outside).d);
        }
      }
    } else {
      ParseKeeps(s, x1, d, depth, Outside);
    }
  }

  lemma EndTagIs(s: string, x: Cursor, d: Node)
    requires Good(s, x)
    ensures ParseEndTag(s, x, d).d == d
  {
  }

  lemma ClearKeeps(s: string, x: Cursor, d: Node, k: nat)
    requires Good(s, x) && k < |CLEAR_TAGS|
    ensures Keeps(d, ParseClear(s, x, d, k).d)
  {
  }

  lemma {:induction false} CloseKeeps(s: string, x1: Cursor, d: Node, depth: nat, start: nat, len: nat, kind: Kind)
    requires Good(s, x1) && start + len <= |s| && len >= 1
    ensures Keeps(d, CloseTagBehind(s, x1, d, depth, start, len, kind).d)
    decreases |s| - x1.index, 3
  {
    hide Parse, Keeps;
    var (d', done) := CloseAttribute(s, d, depth, start, len, kind);
    CloseAttributeKeeps(s, d, depth, start, len, kind);
    if !done {
      var x2 := x1.(text := Some(x1.index));
      ParseKeeps(s, x2, d', depth, Outside);
      KeepsTwice(d, d', Parse(s, x2, d', depth, Outside).d);
    }
  }

  lemma CloseAttributeKeeps(s: string, d: Node, depth: nat, start: nat, len: nat, kind: Kind)
    requires start + len <= |s| && len >= 1
    ensures Keeps(d, CloseAttribute(s, d, depth, start, len, kind).0)
  {
  }

  lemma {:induction false} ChildKeeps(s: string, x1: Cursor, d: Node, depth: nat, t: Token, isDeclaration: bool)
    requires Good(s, x1) && t.start < t.next && t.next == x1.index && (x1.text.Some? ==> x1.text.value <= t.start)
    ensures Keeps(d, ParseChild(s, x1, d, depth, t, isDeclaration).d)
    decreases |s| - x1.index, 3
  {
    hide Parse, Keeps, MaybeAddText, NextToken, AfterChild;
    MaybeAddKeeps(s, x1, d, t.start);
    var m := MaybeAddText(s, x1, d, t.start);
    if m.more {
      var name := NextToken(s, m.x.index);
      if name.kind == TextToken {
        var child := Node(Some(s[name.start..name.start + name.len]), isDeclaration, [], []);
        var r := Parse(s, m.x.(index := name.next), child, depth + 1, AttribName);
        AfterChildKeeps(s, r, m.d, depth, x1.index);
        AddKeeps(m.d, ChildNode(r.d));
        KeepsTwice(d, m.d, AddChild(m.d, r.d));
        KeepsTwice(d, AddChild(m.d, r.d), AfterChild(s, r, m.d, depth, x1.index).d);
      }
    }
  }

  lemma {:induction false} AfterChildKeeps(s: string, r: Outcome, d: Node, depth: nat, from: nat)
    requires Good(s, r.x) && r.x.index > from && from <= |s|
    ensures Keeps(AddChild(d, r.d), AfterChild(s, r, d, depth, from).d)
    decreases |s| - from, 0
  {
    hide Parse, Keeps;
    KeepsItself(AddChild(d, r.d));
    if r.more && r.x.endLen == 0 {
      ParseKeeps(s, r.x, AddChild(d, r.d), depth, Outside);
    }
  }

  // ---------- The misread element ----------

  /** A rendered element of this kind starts with the clear tag. */
  lemma PreStands(s: string, t: Node, f: int, b: nat)
    requires Regular(t) && IsPre(t) && Has(s, b, Render(t, f))
    ensures Has(s, LayoutOf(t, f, b).start, CLEAR_TAGS[3].open)
  {
    hide Regular, Render, Has, Blank, RenderContents;
    ElementStands(s, t, f, b);
    var p := LayoutOf(t, f, b).start;
    NoAttributes();
    assert "<" + t.name.value + RenderAttributes(t.attributes) == "<PRE";
    PreTag(s, p);
  }

  lemma PreTag(s: string, p: nat)
    requires Has(s, p, "<PRE") && At(s, p + 4) == '>'
    ensures Has(s, p, CLEAR_TAGS[3].open)
  {
    assert s[p..p + 5] == s[p..p + 4] + [s[p + 4]];
  }

  /** The parse of the element that holds it never adds it as a child. */
  lemma PreMisread(s: string, x: Cursor, d0: Node, d: Node, depth: nat)
    requires Good(s, x) && Has(s, x.index, CLEAR_TAGS[3].open)
    requires MaybeAddText(s, x, d0, x.index) == Outcome(true, x.(text := None), d)
    ensures
      var r := Parse(s, x, d0, depth, Outside).d;
      r == d || (|r.content| > |d.content| && r.content[|d.content|].ClearNode? && r.name == d.name)
  {
    hide Parse, MaybeAddText, ParseClear, Has, TokenAt, SkipSpaces;
    var p := x.index;
    var open := CLEAR_TAGS[3].open;
    ClearFits(s, p, open);
    GoodBare(s, x, p + |open|);
    ClearToken(s, p, 3);
    var x1 := x.(index := p + |open|, text := None);
    MaybeAnywhere(s, x, d0, p, p + |open|, d);
    var c := ParseClear(s, x1, d, 3);
    ClearAdded(s, x1, d);
    if c.more {
      StepClear(s, x, d0, depth, NextToken(s, p), Outcome(true, x1, d), c);
      ParseKeeps(s, c.x.(text := Some(c.x.index)), c.d, depth, Outside);
    } else {
      StepNoClear(s, x, d0, depth, NextToken(s, p), Outcome(true, x1, d), c);
    }
  }

  lemma ClearAdded(s: string, x: Cursor, d: Node)
    requires Good(s, x)
    ensures
      var c := ParseClear(s, x, d, 3);
      if c.more then
        && c.d.name == d.name && |c.d.content| == |d.content| + 1
        && c.d.content[|d.content|].ClearNode? && Fixed(c.d.content[|d.content|])
      else c.d == d
  {
    assert CLEAR_TAGS[3].open != CLEAR_TAGS[COMMENT].open;
  }

  lemma StepNoClear(s: string, x: Cursor, d0: Node, depth: nat, t: Token, m: Outcome, c: Outcome)
    requires Good(s, x) && t == NextToken(s, x.index) && t.kind == Clear
    requires m == MaybeAddText(s, x.(index := t.next), d0, t.start) && m.more
    requires c == ParseClear(s, m.x, m.d, t.clear) && !c.more
    ensures Parse(s, x, d0, depth, Outside) == c
  {
    hide TokenAt, SkipSpaces, MaybeAddText, ParseChild, CloseTagBehind, ParseEndTag, ParseClear;
  }

  /** With such an element among the contents from `k` on, the parse does not give back the element that holds them. */
  lemma {:induction false} BadContents(s: string, t: Node, f: int, b: nat, k: nat, x: Cursor, d: Node, depth: nat)
    requires Stands(s, t, f, b) && t.name.Some? && k <= |t.content| && Before(s, t, f, b, k, x)
    requires d == t.(content := t.content[..k]) && !NoPreFrom(t, k)
    ensures Parse(s, x, d, depth, Outside).d != t
    decreases t, |t.content| - k, 1
  {
    hide *;
    GoodBefore(s, t, f, b, k, x);
    BadFrom(t, k);
    if t.content[k].TextNode? {
      ReachTagBehindText(s, t, f, b, k, x, d, depth);
      BadTag(s, t, f, b, k + 1, x.(index := TagPlace(t, f, b, k + 1)), d, t.(content := t.content[..k + 1]), depth);
    } else {
      ReachTag(s, t, f, b, k, x, d, depth);
      BadTag(s, t, f, b, k, x.(index := TagPlace(t, f, b, k)), d, d, depth);
    }
  }

  /** The first element of the kind is at content `k`, inside it, or behind it. */
  lemma BadFrom(t: Node, k: nat)
    requires !NoPreFrom(t, k)
    ensures k < |t.content|
    ensures t.content[k].ChildNode? && NoPre(t.content[k].node) ==> !NoPreFrom(t, k + 1)
    ensures !t.content[k].ChildNode? ==> !NoPreFrom(t, k + 1)
    ensures t.content[k].ChildNode? && !NoPre(t.content[k].node) && !IsPre(t.content[k].node) ==>
      t.content[k].node.content != [] && !NoPreFrom(t.content[k].node, 0)
  {
    var j :| k <= j < |t.content| && !NoPreContent(t.content[j]);
    if t.content[k].ChildNode? {
      var node := t.content[k].node;
      if !NoPre(node) && !IsPre(node) {
        var i :| 0 <= i < |node.content| && !NoPreContent(node.content[i]);
      }
    }
  }

  /** The same from the tag of content `k` on. */
  lemma {:induction false} BadTag(s: string, t: Node, f: int, b: nat, k: nat, x: Cursor, d0: Node, d: Node, depth: nat)
    requires Stands(s, t, f, b) && t.name.Some? && k <= |t.content| && AtTag(s, t, f, b, k, x, d0, d) && Good(s, x)
    requires !NoPreFrom(t, k)
    ensures Parse(s, x, d0, depth, Outside).d != t
    decreases t, |t.content| - k, 0
  {
    hide *;
    AtTagParts(s, t, f, b, k, x, d0, d);
    BadFrom(t, k);
    if t.content[k].ChildNode? {
      var node := t.content[k].node;
      ChildNamed(s, t, f, b, k, node);
      if NoPre(node) {
        GoodChild(s, t, f, b, k, x, d0, d, depth, node);
        var r := Done(node, ChildFormat(t, FormatOf(t, f)), ContentAt(t, f, b, k), x);
        BadContents(s, t, f, b, k + 1, r.x, t.(content := t.content[..k + 1]), depth);
      } else if IsPre(node) {
        PreChild(s, t, f, b, k, x, d0, d, depth, node);
      } else {
        var h, i := ChildFormat(t, FormatOf(t, f)), ContentAt(t, f, b, k);
        var e := LayoutOf(node, h, i).tagEnd;
        ChildGoesOn(s, t, f, b, k, x, depth, node);
        BadContents(s, node, h, i, 0, x.(index := e + 1, text := Some(e + 1)), node.(content := []), depth + 1);
        ChildOpened(s, t, f, b, k, x, d0, d, depth, node);
        BadChild(s, FromTag(s, x, node, depth, e), t, k, d, depth, x.index + 1, node);
      }
    } else {
      var e := ClearReached(s, t, f, b, k, x, d0, d, depth);
      BadContents(s, t, f, b, k + 1, x.(index := e, text := Some(e)), t.(content := t.content[..k + 1]), depth);
    }
  }

  /** A child without such elements is parsed, and its parent goes on. */
  lemma GoodChild(s: string, t: Node, f: int, b: nat, k: nat, x: Cursor, d0: Node, d: Node, depth: nat, node: Node)
    requires Stands(s, t, f, b) && t.name.Some? && k < |t.content| && t.content[k] == ChildNode(node)
    requires AtTag(s, t, f, b, k, x, d0, d) && Good(s, x) && node.name.Some? && NoPre(node)
    ensures
      var r := Done(node, ChildFormat(t, FormatOf(t, f)), ContentAt(t, f, b, k), x);
      && Before(s, t, f, b, k + 1, r.x) && Good(s, r.x)
      && Parse(s, x, d0, depth, Outside) == Parse(s, r.x, t.(content := t.content[..k + 1]), depth, Outside)
  {
    hide *;
    AtTagParts(s, t, f, b, k, x, d0, d);
    NoPreParts(node);
    ChildNamed(s, t, f, b, k, node);
    ChildGoesOn(s, t, f, b, k, x, depth, node);
    var h, i := ChildFormat(t, FormatOf(t, f)), ContentAt(t, f, b, k);
    var e := LayoutOf(node, h, i).tagEnd;
    if node.content != [] {
      ContentsParsed(s, node, h, i, 0, x.(index := e + 1, text := Some(e + 1)), node.(content := []), depth + 1);
      DoneAnywhere(node, h, i, x, e + 1);
    }
    ChildReached(s, t, f, b, k, x, d0, d, depth, node, Done(node, h, i, x));
  }

  lemma NoPreParts(t: Node)
    requires NoPre(t)
    ensures !IsPre(t) && NoPreFrom(t, 0)
  {
  }

  lemma PreChild(s: string, t: Node, f: int, b: nat, k: nat, x: Cursor, d0: Node, d: Node, depth: nat, node: Node)
    requires Stands(s, t, f, b) && t.name.Some? && k < |t.content| && t.content[k] == ChildNode(node)
    requires AtTag(s, t, f, b, k, x, d0, d) && Good(s, x) && node.name.Some? && IsPre(node)
    ensures Parse(s, x, d0, depth, Outside).d != t
  {
    hide Parse, MaybeAddText, Stands, ContentAt, LayoutOf, Has, Blank, Render, Regular;
    ChildStands(s, t, f, b, k);
    PreStands(s, node, ChildFormat(t, FormatOf(t, f)), ContentAt(t, f, b, k));
    PreMisread(s, x, d0, d, depth);
  }

  /** A child that was not read as it was rendered stays in its parent. */
  lemma BadChild(s: string, r: Outcome, t: Node, k: nat, d: Node, depth: nat, from: nat, node: Node)
    requires k < |t.content| && t.content[k] == ChildNode(node) && d == t.(content := t.content[..k])
    requires Good(s, r.x) && r.x.index > from && from <= |s| && r.d != node
    ensures AfterChild(s, r, d, depth, from).d != t
  {
    hide AfterChild;
    AfterChildKeeps(s, r, d, depth, from);
    assert AddChild(d, r.d).content[k] == ChildNode(r.d);
  }

  // ---------- The exact condition ----------

  lemma DocumentMisread(s: string, t: Node, f: int)
    requires f >= -1 && Regular(t) && !NoPre(t) && s == Render(t, f)
    ensures
      var r := Parse(s, Cursor(0, Some(0), NoError, 0, 0), HEAD, 0, Outside);
      && r.d.name == None
      && (r.d.content != [] ==> r.d.content[0].ClearNode? || (r.d.content[0].ChildNode? && r.d.content[0].node != t))
  {
    hide Parse, Render, Regular, StartTag, Has, LayoutOf, Blank, MaybeAddText, FromTagEnd, PlainUpTo, NoPre;
    WholeText(s);
    RenderedAt(s, t, f, 0);
    var l := LayoutOf(t, f, 0);
    var x := Cursor(0, Some(0), NoError, 0, 0);
    var x' := x.(index := l.start);
    BlankPlain(s, 0, l.start);
    SkipToTag(s, x, HEAD, 0, l.start);
    MaybeBlank(s, x', HEAD, l.start);
    if IsPre(t) {
      PreStands(s, t, f, 0);
      PreMisread(s, x', HEAD, HEAD, 0);
    } else {
      ParseStart(s, x', HEAD, HEAD, 0, l.start, t.name.value, t.attributes, l.tagEnd);
      RegularBare(t);
      ElementMisread(s, t, f, x');
      var r := FromTag(s, x', t, 0, l.tagEnd);
      AfterChildKeeps(s, r, HEAD, 0, l.start + 1);
      assert AddChild(HEAD, r.d).content == [ChildNode(r.d)];
    }
  }

  lemma WholeText(s: string)
    ensures Has(s, 0, s)
  {
    assert s[0..0 + |s|] == s;
  }

  lemma ElementMisread(s: string, t: Node, f: int, x: Cursor)
    requires f >= -1 && Regular(t) && !NoPre(t) && !IsPre(t) && s == Render(t, f) && t.name.Some? && x.endLen == 0
    ensures FromTag(s, x, t, 0, LayoutOf(t, f, 0).tagEnd).d != t
  {
    hide Parse, Render, Regular, StartTag, Has, RenderAttributes, RenderContents;
    WholeText(s);
    RenderedAt(s, t, f, 0);
    var e := LayoutOf(t, f, 0).tagEnd;
    var j :| 0 <= j < |t.content| && !NoPreContent(t.content[j]);
    assert !NoPreFrom(t, 0);
    var x' := x.(index := e + 1, text := Some(e + 1));
    assert t.content[..0] == [];
    BadContents(s, t, f, 0, 0, x', t.(content := []), 1);
  }

  /**
   Exactly when parsing undoes rendering, for all trees that are regular otherwise, at every format level and without
   formatting: no element, at any depth, is named "PRE" and has content but no attributes.
   */
  lemma RoundTripExactly(t: Node, f: int)
    requires f >= -1 && Regular(t)
    ensures ParseString(Render(t, f)) == Result(Some(t), NoError) <==> NoPre(t)
  {
    hide Parse, Render, Regular, NoPre, ChildCount;
    if NoPre(t) {
      RoundTrip(t, f);
    } else {
      DocumentMisread(Render(t, f), t, f);
      Named(t);
    }
  }

  lemma Named(t: Node)
    requires Regular(t)
    ensures t.name.Some?
  {
  }

  /**
   One such input: an element named "PRE" with a text is read back as a clear tag, and parseString reports that there
   is no element at all.
   */
  lemma PreIsNoElement(text: string)
    requires Trimmed(text) && text == Escape(text) && !Contains(text, "</PRE>")
    ensures
      var t := Node(Some("PRE"), false, [], [TextNode(text)]);
      ParseString(Render(t, -1)) ==
        Result(Some(HEAD.(content := [ClearNode("<PRE>", text, "</PRE>")])), NoXmlTagFound)
  {
    hide Parse, Escape, NormalClear;
    var t := Node(Some("PRE"), false, [], [TextNode(text)]);
    var s := Render(t, -1);
    PreRendered(text);
    var c := ClearNode("<PRE>", text, "</PRE>");
    var x := Cursor(0, Some(0), NoError, 0, 0);
    assert s[0..0 + |s|] == s;
    PreClear(text);
    MaybeBlank(s, x, HEAD, 0);
    ParseClearNode(s, x, HEAD, HEAD, 0, 0, c.open, c.value, c.close);
    assert HEAD.content + [c] == [c];
    ParseEnd(s, x.(index := |s|, text := Some(|s|)), HEAD.(content := [c]));
    assert ChildCount([c]) == 0 + ChildCount([]);
  }

  lemma PreRendered(text: string)
    requires text != "" && text == Escape(text)
    ensures Render(Node(Some("PRE"), false, [], [TextNode(text)]), -1) == "<PRE>" + text + "</PRE>"
  {
    hide Escape;
    var t := Node(Some("PRE"), false, [], [TextNode(text)]);
    assert t.content[..0] == [];
    assert RenderContents([], -1, -1) == "";
    assert RenderContents(t.content, -1, -1) == "" + RenderText(text, -1);
    assert RenderAttributes([]) == "";
    assert RenderOpen(t, -1) == "<PRE>";
    assert RenderClose(t, -1) == "</PRE>";
  }

  lemma PreClear(text: string)
    requires '\0' !in text && !Contains(text, "</PRE>")
    ensures NormalClear("<PRE>", text, "</PRE>")
  {
    assert CLEAR_TAGS[3].open == "<PRE>" && ClosesOnce(3, text, "</PRE>");
  }
}
