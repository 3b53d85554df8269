/**
 The layout of a formatted document: what the printer writes is a sequence of lines, each with the tabs of its depth.
 */
module XmlLayout {

  import opened Options
  import opened XmlText
  import opened XmlPrinter

  /** A line without its tabs and its end; a text may hold further line ends. */
  datatype Line = Line(depth: nat, text: string)

  function Joined(lines: seq<Line>): string {
    if lines == [] then "" else Tabs(lines[0].depth) + (lines[0].text + ("\n" + Joined(lines[1..])))
  }

  function Begin(t: Node): string {
    NameOf(t) + RenderAttributes(t.attributes)
  }

  /** A document is indented by depth; an element that holds one text stands on one line with it. */
  function LinesOf(t: Node, depth: nat): seq<Line>
    decreases t, 1
  {
    if NameOf(t) == "" then Inside(t.content, depth, depth)
    else if t.isDeclaration then [Line(depth, "<?" + Begin(t) + "?>")] + Inside(t.content, depth, depth)
    else if t.content == [] then [Line(depth, "<" + Begin(t) + "/>")]
    else if |t.content| == 1 && t.content[0].TextNode? then
      [Line(depth, "<" + Begin(t) + ">" + Escape(t.content[0].text) + "</" + NameOf(t) + ">")]
    else
      [Line(depth, "<" + Begin(t) + ">")] + Inside(t.content, depth, depth + 1)
      + [Line(depth, "</" + NameOf(t) + ">")]
  }

  /** Texts and marked sections go one step further than the element around them, and so do its children. */
  function Inside(cs: seq<Content>, depth: nat, childDepth: nat): seq<Line>
    decreases cs, 0
  {
    if cs == [] then [] else LinesIn(cs[0], depth, childDepth) + Inside(cs[1..], depth, childDepth)
  }

  function LinesIn(c: Content, depth: nat, childDepth: nat): seq<Line>
    decreases c, 0
  {
    match c
    case TextNode(text) => if text == "" then [] else [Line(depth + 1, Escape(text))]
    case ClearNode(open, value, close) => [Line(if open == "" then 0 else depth + 1, open + value + close)]
    case ChildNode(node) => LinesOf(node, childDepth)
  }

  /** A node without a name that holds one text has no line of its own. */
  predicate HasLines(t: Node)
    decreases t
  {
    && !(NameOf(t) == "" && !t.isDeclaration && |t.content| == 1 && t.content[0].TextNode?)
    && forall k :: 0 <= k < |t.content| ==> LinedContent(t.content[k])
  }

  predicate LinedContent(c: Content)
    decreases c
  {
    c.ChildNode? ==> HasLines(c.node)
  }

  lemma {:induction false} JoinedBoth(a: seq<Line>, b: seq<Line>)
    ensures Joined(a + b) == Joined(a) + Joined(b)
  {
    hide Tabs;
    if a == [] {
      assert a + b == b;
    } else {
      assert (a + b)[1..] == a[1..] + b;
      JoinedBoth(a[1..], b);
      var first := Tabs(a[0].depth) + (a[0].text + "\n");
      assert Joined(a) == first + Joined(a[1..]) && Joined(a + b) == first + Joined(a[1..] + b);
    }
  }

  lemma JoinedOne(l: Line)
    ensures Joined([l]) == Tabs(l.depth) + l.text + "\n"
  {
    assert [l][1..] == [];
  }

  lemma {:induction false} InsideMore(cs: seq<Content>, c: Content, depth: nat, childDepth: nat)
    ensures Inside(cs + [c], depth, childDepth) == Inside(cs, depth, childDepth) + LinesIn(c, depth, childDepth)
  {
    hide LinesIn;
    if cs == [] {
      assert [c][1..] == [];
    } else {
      assert (cs + [c])[1..] == cs[1..] + [c];
      InsideMore(cs[1..], c, depth, childDepth);
    }
  }

  lemma {:induction false} ContentsInLines(cs: seq<Content>, depth: nat, childDepth: nat)
    requires forall k :: 0 <= k < |cs| ==> LinedContent(cs[k])
    ensures RenderContents(cs, depth, childDepth) == Joined(Inside(cs, depth, childDepth))
    decreases cs, 0
  {
    hide RenderContent, LinesIn, LinedContent, Joined;
    if cs == [] {
      JoinedNone();
    } else {
      var front, c := cs[..|cs| - 1], cs[|cs| - 1];
      assert cs == front + [c];
      ContentsInLines(front, depth, childDepth);
      ContentInLines(c, depth, childDepth);
      InsideMore(front, c, depth, childDepth);
      JoinedBoth(Inside(front, depth, childDepth), LinesIn(c, depth, childDepth));
    }
  }

  lemma JoinedNone()
    ensures Joined([]) == ""
  {
  }

  lemma {:induction false} ContentInLines(c: Content, depth: nat, childDepth: nat)
    requires LinedContent(c)
    ensures RenderContent(c, depth, childDepth) == Joined(LinesIn(c, depth, childDepth))
    decreases c, 0
  {
    hide Escape, Render, HasLines, Joined, LinesOf;
    JoinedNone();
    match c {
      case TextNode(text) => JoinedOne(Line(depth + 1, Escape(text)));
      case ClearNode(open, value, close) => JoinedOne(Line(if open == "" then 0 else depth + 1, open + value + close));
      case ChildNode(node) => RenderInLines(node, childDepth);
    }
  }

  /** A formatted document is its lines. */
  lemma {:induction false} RenderInLines(t: Node, depth: nat)
    requires HasLines(t)
    ensures Render(t, depth) == Joined(LinesOf(t, depth))
    decreases t, 1
  {
    hide RenderAttributes, Escape, Tabs, Joined, RenderContents, LinedContent, Inside;
    var g := FormatOf(t, depth);
    assert Render(t, depth)
        == RenderOpen(t, depth) + RenderContents(t.content, g, ChildFormat(t, g)) + RenderClose(t, g);
    if |t.content| == 1 && t.content[0].TextNode? && !t.isDeclaration {
      LoneText(t, depth);
    } else {
      ContentsInLines(t.content, depth, if NameOf(t) == "" || t.isDeclaration then depth else depth + 1);
      ElementInLines(t, depth);
    }
  }

  lemma LoneText(t: Node, depth: nat)
    requires NameOf(t) != "" && !t.isDeclaration && |t.content| == 1 && t.content[0].TextNode?
    ensures Render(t, depth) == Joined(LinesOf(t, depth))
  {
    hide Begin, Escape, Joined, RenderContents, Tabs;
    var w := t.content[0].text;
    OnlyText(w);
    assert t.content == [TextNode(w)];
    TagsOfLine(t, depth);
    JoinedOne(LinesOf(t, depth)[0]);
  }

  lemma OnlyText(w: string)
    ensures RenderContents([TextNode(w)], -2, -1) == Escape(w)
  {
    hide Escape;
    EscapeNothing();
    assert [TextNode(w)][..0] == [] && RenderContents([], -2, -1) == "";
  }

  lemma TagsOfLine(t: Node, depth: nat)
    requires NameOf(t) != "" && !t.isDeclaration && |t.content| == 1 && t.content[0].TextNode?
    ensures RenderOpen(t, depth) == Tabs(depth) + ("<" + Begin(t) + ">")
    ensures RenderClose(t, -2) == "</" + NameOf(t) + ">" + "\n"
  {
    hide RenderAttributes;
  }

  lemma EscapeNothing()
    ensures Escape("") == ""
  {
  }

  /** The lines of the tags. */
  lemma TagsInLines(t: Node, depth: nat)
    requires NameOf(t) != "" && !(|t.content| == 1 && t.content[0].TextNode? && !t.isDeclaration)
    ensures t.isDeclaration ==>
      RenderOpen(t, depth) == Joined([Line(depth, "<?" + Begin(t) + "?>")]) && RenderClose(t, depth) == ""
    ensures !t.isDeclaration && t.content != [] ==>
      && RenderOpen(t, depth) == Joined([Line(depth, "<" + Begin(t) + ">")])
      && RenderClose(t, depth) == Joined([Line(depth, "</" + NameOf(t) + ">")])
    ensures !t.isDeclaration && t.content == [] ==>
      RenderOpen(t, depth) + RenderClose(t, depth) == Joined([Line(depth, "<" + Begin(t) + "/>")])
  {
    hide RenderAttributes, Tabs, Joined;
    if t.isDeclaration {
      JoinedOne(Line(depth, "<?" + Begin(t) + "?>"));
    } else if t.content != [] {
      JoinedOne(Line(depth, "<" + Begin(t) + ">"));
      JoinedOne(Line(depth, "</" + NameOf(t) + ">"));
    } else {
      JoinedOne(Line(depth, "<" + Begin(t) + "/>"));
    }
  }

  lemma ElementInLines(t: Node, depth: nat)
    requires !(|t.content| == 1 && t.content[0].TextNode? && !t.isDeclaration)
    requires
      var h := if NameOf(t) == "" || t.isDeclaration then depth else depth + 1;
      RenderContents(t.content, depth, h) == Joined(Inside(t.content, depth, h))
    ensures Render(t, depth) == Joined(LinesOf(t, depth))
  {
    hide Begin, Escape, Joined, RenderContents, Inside, RenderOpen, RenderClose;
    var h := if NameOf(t) == "" || t.isDeclaration then depth else depth + 1;
    var lines := Inside(t.content, depth, h);
    if NameOf(t) == "" {
      NoTags(t, depth);
    } else {
      TagsInLines(t, depth);
      if t.isDeclaration {
        JoinedBoth([Line(depth, "<?" + Begin(t) + "?>")], lines);
      } else if t.content != [] {
        var first := [Line(depth, "<" + Begin(t) + ">")];
        JoinedBoth(first, lines);
        JoinedBoth(first + lines, [Line(depth, "</" + NameOf(t) + ">")]);
      } else {
        NoContentsInLines(depth, h);
      }
    }
  }

  lemma NoTags(t: Node, depth: nat)
    requires NameOf(t) == ""
    ensures RenderOpen(t, depth) == RenderClose(t, depth) == ""
  {
  }

  lemma NoContentsInLines(depth: nat, h: nat)
    ensures RenderContents([], depth, h) == ""
  {
  }
}
