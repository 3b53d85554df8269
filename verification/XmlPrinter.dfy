/**
 Rendering of element trees: CreateXMLStringR and createXMLString of xmlParser.cpp.

 The same function runs twice, once without a buffer to measure and once to write. `Render` says what the
 rendered text is; both runs are proved to follow it.
 */
module XmlPrinter {

  import opened Options
  import opened XmlText

  datatype Attribute = Attribute(name: string, value: Option<string>)

  datatype Content =
    | TextNode(text: string)
    | ClearNode(open: string, value: string, close: string)
    | ChildNode(node: Node)

  /** An element; the head of a document has no name. */
  datatype Node = Node(name: Option<string>, isDeclaration: bool, attributes: seq<Attribute>, content: seq<Content>)

  function NameOf(t: Node): string {
    if t.name.None? then "" else t.name.value
  }

  function Tabs(n: int): (r: string)
    ensures |r| == if n > 0 then n else 0
  {
    if n <= 0 then "" else "\t" + Tabs(n - 1)
  }

  function NewLine(f: int): string {
    if f == -1 then "" else "\n"
  }

  /** One attribute as it is rendered, without the space in front of it. */
  function RenderAttribute(a: Attribute): string {
    a.name + if a.value.None? then "" else "=\"" + Escape(a.value.value) + "\""
  }

  /** All attributes, each with a space in front of it; those without a name are left out. */
  function RenderAttributes(attributes: seq<Attribute>): string {
    if attributes == [] then ""
    else
      var a := attributes[|attributes| - 1];
      RenderAttributes(attributes[..|attributes| - 1]) + if a.name == "" then "" else " " + RenderAttribute(a)
  }

  /** A lone text stays on the line of its element. */
  function FormatOf(t: Node, f: int): int {
    if f >= 0 && |t.content| == 1 && t.content[0].TextNode? && !t.isDeclaration then -2 else f
  }

  function ChildFormat(t: Node, g: int): int {
    if g == -1 then -1 else if NameOf(t) != "" && !t.isDeclaration then g + 1 else g
  }

  function RenderOpen(t: Node, f: int): string {
    var g := FormatOf(t, f);
    if NameOf(t) == "" then ""
    else if t.isDeclaration then
      Tabs(f) + "<?" + NameOf(t) + RenderAttributes(t.attributes) + "?>" + NewLine(g)
    else
      Tabs(f) + "<" + NameOf(t) + RenderAttributes(t.attributes)
      + if t.content == [] then "" else if g >= 0 then ">\n" else ">"
  }

  function RenderText(text: string, g: int): string {
    if text == "" then "" else if g >= 0 then Tabs(g + 1) + Escape(text) + "\n" else Escape(text)
  }

  function RenderClear(open: string, value: string, close: string, g: int): string {
    (if open != "" && g != -1 then Tabs(g + 1) else "") + open + value + close + NewLine(g)
  }

  function RenderContent(c: Content, g: int, h: int): string
    decreases c
  {
    match c
    case TextNode(text) => RenderText(text, g)
    case ClearNode(open, value, close) => RenderClear(open, value, close, g)
    case ChildNode(node) => Render(node, h)
  }

  function RenderContents(cs: seq<Content>, g: int, h: int): string
    decreases cs
  {
    if cs == [] then ""
    else RenderContents(cs[..|cs| - 1], g, h) + RenderContent(cs[|cs| - 1], g, h)
  }

  function RenderClose(t: Node, g: int): string {
    if NameOf(t) == "" || t.isDeclaration then ""
    else if t.content == [] then "/>" + NewLine(g)
    else Tabs(g) + "</" + NameOf(t) + ">" + NewLine(g)
  }

  /** The text of an element with format level `f`, or without formatting for -1. */
  function Render(t: Node, f: int): string
    decreases t
  {
    var g := FormatOf(t, f);
    RenderOpen(t, f) + RenderContents(t.content, g, ChildFormat(t, g)) + RenderClose(t, g)
  }

  // ---------- Measuring and writing ----------

  /** Without a buffer nothing is written. */
  ghost predicate Written(marker: array?<char>, at: int, text: string)
    reads if marker == null then {} else {marker}
  {
    marker != null ==> Holds(marker, at, text)
  }

  /** There is room for `text` and a terminator. */
  ghost predicate Room(marker: array?<char>, at: int, text: string) {
    marker != null ==> 0 <= at && at + |text| < marker.Length
  }

  ghost function Snapshot(marker: array?<char>): string
    reads if marker == null then {} else {marker}
  {
    if marker == null then "" else marker[..]
  }

  /** Nothing changed but the `n` places from `at` on and the one behind them. */
  ghost predicate Framed(marker: array?<char>, before: string, at: int, n: int)
    reads if marker == null then {} else {marker}
  {
    marker != null ==>
      |before| == marker.Length
      && forall j :: 0 <= j < marker.Length && !(at <= j <= at + n) ==> marker[j] == before[j]
  }

  /** Two texts one behind the other, the second one written last. */
  lemma WrittenBoth(marker: array?<char>, start: string, middle: string, at: nat, a: string, b: string)
    requires Framed(marker, middle, at + |a|, |b|) && Written(marker, at + |a|, b)
    requires marker != null ==> |start| == |middle| && at + |a| <= |middle| && middle[at..at + |a|] == a
    requires marker != null ==>
      forall j :: 0 <= j < |start| && !(at <= j <= at + |a|) ==> middle[j] == start[j]
    ensures Written(marker, at, a + b) && Framed(marker, start, at, |a + b|)
  {
    if marker != null {
      HoldsStill(marker, middle, at, a);
      HoldsMore(marker, at, a, b);
    }
  }

  method PutChar(marker: array?<char>, at: nat, c: char)
    requires marker != null ==> at < marker.Length
    modifies if marker == null then {} else {marker}
    ensures Written(marker, at, [c]) && Framed(marker, old(Snapshot(marker)), at, 0)
  {
    if marker != null {
      marker[at] := c;
    }
  }

  /** xstrcpy */
  method PutString(marker: array?<char>, at: nat, text: string)
    requires Room(marker, at, text)
    modifies if marker == null then {} else {marker}
    ensures Written(marker, at, text) && Framed(marker, old(Snapshot(marker)), at, |text|)
  {
    if marker != null {
      CopyString(marker, at, text);
    }
  }

  /** charmemset with the character of indentation */
  method PutTabs(marker: array?<char>, at: nat, n: nat)
    requires Room(marker, at, Tabs(n))
    modifies if marker == null then {} else {marker}
    ensures Written(marker, at, Tabs(n)) && Framed(marker, old(Snapshot(marker)), at, n)
  {
    if marker != null {
      var i := 0;
      while i < n
        invariant 0 <= i <= n && Written(marker, at, Tabs(i)) && Framed(marker, old(Snapshot(marker)), at, i)
      {
        TabsMore(i);
        ghost var before := marker[..];
        marker[at + i] := '\t';
        assert marker[at + i..at + i + 1] == "\t";
        HoldsStill(marker, before, at, Tabs(i));
        HoldsMore(marker, at, Tabs(i), "\t");
        i := i + 1;
      }
    }
  }

  lemma {:induction false} TabsMore(n: nat)
    ensures Tabs(n + 1) == Tabs(n) + "\t"
  {
    if n > 0 {
      TabsMore(n - 1);
      assert "\t" + (Tabs(n - 1) + "\t") == ("\t" + Tabs(n - 1)) + "\t";
    }
  }

  /** Measures an escaped text, and writes it if there is a buffer. */
  method PutEscaped(marker: array?<char>, at: nat, text: string) returns (cb: nat)
    requires Room(marker, at, Escape(text))
    modifies if marker == null then {} else {marker}
    ensures cb == |Escape(text)|
    ensures Written(marker, at, Escape(text)) && Framed(marker, old(Snapshot(marker)), at, cb)
  {
    cb := LengthXmlString(text);
    if marker != null {
      ToXmlUnsafe(marker, at, text);
    }
  }

  /** What has been put so far: `text` at `at`, and nothing outside. */
  ghost predicate Put(marker: array?<char>, start: string, at: int, text: string)
    reads if marker == null then {} else {marker}
  {
    Written(marker, at, text) && Framed(marker, start, at, |text|)
  }

  method AppendChar(marker: array?<char>, n: nat, c: char, ghost start: string, ghost at: nat, ghost text: string)
    requires Put(marker, start, at, text) && n == at + |text| && (marker != null ==> n < marker.Length)
    modifies if marker == null then {} else {marker}
    ensures Ended(marker, start, at, text, c)
  {
    ghost var middle := Snapshot(marker);
    PutChar(marker, n, c);
    if marker != null {
      HoldsStill(marker, middle, at, text);
      HoldsMore(marker, at, text, [c]);
    }
  }

  /** A single character ends the text, and nothing was touched behind it. */
  ghost predicate Ended(marker: array?<char>, start: string, at: int, text: string, c: char)
    reads if marker == null then {} else {marker}
  {
    Written(marker, at, text + [c]) && Framed(marker, start, at, |text|)
  }

  lemma EndedPut(marker: array?<char>, start: string, at: int, text: string, c: char)
    requires Ended(marker, start, at, text, c)
    ensures Put(marker, start, at, text + [c])
  {
  }

  /** Without its last character. */
  lemma EndedShorter(marker: array?<char>, start: string, at: nat, text: string, c: char)
    requires Ended(marker, start, at, text, c)
    ensures Put(marker, start, at, text)
  {
    if marker != null {
      assert marker[at..at + |text|] == (marker[at..at + |text| + 1])[..|text|];
    }
  }

  method AppendString(marker: array?<char>, n: nat, s: string, ghost start: string, ghost at: nat, ghost text: string)
    requires Put(marker, start, at, text) && n == at + |text| && Room(marker, at, text + s)
    modifies if marker == null then {} else {marker}
    ensures Put(marker, start, at, text + s)
  {
    ghost var middle := Snapshot(marker);
    PutString(marker, n, s);
    WrittenBoth(marker, start, middle, at, text, s);
  }

  method AppendTabs(marker: array?<char>, n: nat, k: nat, ghost start: string, ghost at: nat, ghost text: string)
    requires Put(marker, start, at, text) && n == at + |text| && Room(marker, at, text + Tabs(k))
    modifies if marker == null then {} else {marker}
    ensures Put(marker, start, at, text + Tabs(k))
  {
    ghost var middle := Snapshot(marker);
    PutTabs(marker, n, k);
    WrittenBoth(marker, start, middle, at, text, Tabs(k));
  }

  method AppendEscaped(marker: array?<char>, n: nat, s: string, ghost start: string, ghost at: nat, ghost text: string)
    returns (cb: nat)
    requires Put(marker, start, at, text) && n == at + |text| && Room(marker, at, text + Escape(s))
    modifies if marker == null then {} else {marker}
    ensures cb == |Escape(s)| && Put(marker, start, at, text + Escape(s))
  {
    ghost var middle := Snapshot(marker);
    cb := PutEscaped(marker, n, s);
    WrittenBoth(marker, start, middle, at, text, Escape(s));
  }

  /** The attribute itself, without the space behind it. */
  method AppendAttribute(marker: array?<char>, n: nat, a: Attribute,
                         ghost start: string, ghost at: nat, ghost text: string) returns (n': nat)
    requires Put(marker, start, at, text) && n == at + |text| && Room(marker, at, text + RenderAttribute(a))
    modifies if marker == null then {} else {marker}
    ensures n' == n + |RenderAttribute(a)| && Put(marker, start, at, text + RenderAttribute(a))
  {
    hide Put, Escape, RenderAttribute;
    AttributeParts(text, a);
    AppendString(marker, n, a.name, start, at, text);
    n' := n + |a.name|;
    if a.value.Some? {
      ghost var named := text + a.name;
      AppendString(marker, n', "=\"", start, at, named);
      var cb := AppendEscaped(marker, n' + 2, a.value.value, start, at, named + "=\"");
      AppendChar(marker, n' + 2 + cb, '\"', start, at, named + "=\"" + Escape(a.value.value));
      EndedPut(marker, start, at, named + "=\"" + Escape(a.value.value), '\"');
      n' := n' + cb + 3;
    }
  }

  lemma AttributeParts(text: string, a: Attribute)
    ensures a.value.None? ==> text + a.name == text + RenderAttribute(a)
    ensures a.value.Some? ==>
      text + a.name + "=\"" + Escape(a.value.value) + ['\"'] == text + RenderAttribute(a)
  {
    if a.value.Some? {
      var e := Escape(a.value.value);
      assert RenderAttribute(a) == a.name + ("=\"" + e + "\"");
    } else {
      assert RenderAttribute(a) == a.name + "";
    }
  }

  /** All attributes, with the space that ends the name in front of them and one behind each. */
  method AppendAttributes(marker: array?<char>, n: nat, attributes: seq<Attribute>,
                          ghost start: string, ghost at: nat, ghost text: string) returns (n': nat)
    requires Ended(marker, start, at, text, ' ') && n == at + |text| + 1
    requires Room(marker, at, text + RenderAttributes(attributes))
    modifies if marker == null then {} else {marker}
    ensures n' == n + |RenderAttributes(attributes)|
    ensures Ended(marker, start, at, text + RenderAttributes(attributes), ' ')
  {
    n' := n;
    var i := 0;
    assert text + RenderAttributes(attributes[..0]) == text;
    while i < |attributes|
      invariant 0 <= i <= |attributes| && n' == n + |RenderAttributes(attributes[..i])|
      invariant Ended(marker, start, at, text + RenderAttributes(attributes[..i]), ' ')
    {
      hide Put, Ended, RenderAttributes, RenderAttribute;
      AttributeStep(text, attributes, i);
      AttributesPrefix(attributes, i + 1);
      var a := attributes[i];
      if a.name != "" {
        ghost var sofar := text + RenderAttributes(attributes[..i]) + " ";
        EndedPut(marker, start, at, text + RenderAttributes(attributes[..i]), ' ');
        n' := AppendAttribute(marker, n', a, start, at, sofar);
        AppendChar(marker, n', ' ', start, at, sofar + RenderAttribute(a));
        n' := n' + 1;
      }
      i := i + 1;
    }
    assert attributes[..i] == attributes;
  }

  lemma AttributeStep(text: string, attributes: seq<Attribute>, i: nat)
    requires i < |attributes|
    ensures
      var a := attributes[i];
      text + RenderAttributes(attributes[..i + 1]) ==
        if a.name == "" then text + RenderAttributes(attributes[..i])
        else text + RenderAttributes(attributes[..i]) + " " + RenderAttribute(a)
    ensures |RenderAttributes(attributes[..i + 1])| ==
      |RenderAttributes(attributes[..i])| + if attributes[i].name == "" then 0 else |RenderAttribute(attributes[i])| + 1
  {
    assert attributes[..i + 1][..i] == attributes[..i];
    var a := attributes[i];
    var r := RenderAttributes(attributes[..i]);
    if a.name != "" {
      assert text + (r + (" " + RenderAttribute(a))) == text + r + " " + RenderAttribute(a);
    } else {
      assert r + "" == r;
    }
  }

  lemma {:induction false} AttributesPrefix(attributes: seq<Attribute>, i: nat)
    requires i <= |attributes|
    ensures |RenderAttributes(attributes[..i])| <= |RenderAttributes(attributes)|
    decreases |attributes| - i
  {
    if i < |attributes| {
      AttributeStep("", attributes, i);
      AttributesPrefix(attributes, i + 1);
    } else {
      assert attributes[..i] == attributes;
    }
  }

  /** Writes over the last character. */
  method ReplaceLast(marker: array?<char>, n: nat, c: char, ghost d: char,
                     ghost start: string, ghost at: nat, ghost text: string)
    requires Ended(marker, start, at, text, d) && n == at + |text| + 1
    modifies if marker == null then {} else {marker}
    ensures Ended(marker, start, at, text, c)
  {
    EndedShorter(marker, start, at, text, d);
    if marker != null {
      marker[n - 1] := c;
      assert marker[at..n] == text + [c];
    }
  }

  /** "<name" with its attributes, up to the space that is written last. */
  method AppendTag(marker: array?<char>, at: nat, t: Node, f: int) returns (n: nat)
    requires f >= -1 && NameOf(t) != "" && Room(marker, at, RenderTag(t, f))
    modifies if marker == null then {} else {marker}
    ensures n == at + |RenderTag(t, f)| + 1 && Ended(marker, old(Snapshot(marker)), at, RenderTag(t, f), ' ')
  {
    hide Ended, RenderAttributes, Tabs;
    ghost var start := Snapshot(marker);
    var cb := if f < 0 then 0 else f;
    TagParts(t, f);
    PutTabs(marker, at, cb);
    n := at + cb;
    ghost var text := Tabs(cb);
    AppendChar(marker, n, '<', start, at, text);
    EndedPut(marker, start, at, text, '<');
    n, text := n + 1, text + ['<'];
    if t.isDeclaration {
      AppendChar(marker, n, '?', start, at, text);
      EndedPut(marker, start, at, text, '?');
      n, text := n + 1, text + ['?'];
    }
    AppendString(marker, n, NameOf(t), start, at, text);
    n, text := n + |NameOf(t)|, text + NameOf(t);
    AppendChar(marker, n, ' ', start, at, text);
    n := AppendAttributes(marker, n + 1, t.attributes, start, at, text);
  }

  function RenderTag(t: Node, f: int): string {
    Tabs(f) + "<" + (if t.isDeclaration then "?" else "") + NameOf(t) + RenderAttributes(t.attributes)
  }

  lemma TagParts(t: Node, f: int)
    ensures |Tabs(if f < 0 then 0 else f)| == (if f < 0 then 0 else f) && Tabs(if f < 0 then 0 else f) == Tabs(f)
    ensures RenderTag(t, f)
      == Tabs(f) + ['<'] + (if t.isDeclaration then ['?'] else []) + NameOf(t) + RenderAttributes(t.attributes)
    ensures Tabs(f) + ['<'] + [] == Tabs(f) + ['<']
  {
  }

  /** The start tag; without content its last space is dropped again. */
  method AppendOpen(marker: array?<char>, at: nat, t: Node, f: int) returns (n: nat)
    requires f >= -1 && NameOf(t) != "" && Room(marker, at, RenderOpen(t, f))
    modifies if marker == null then {} else {marker}
    ensures n == at + |RenderOpen(t, f)| && Put(marker, old(Snapshot(marker)), at, RenderOpen(t, f))
  {
    hide Ended, Put, RenderTag, RenderOpen;
    ghost var start := Snapshot(marker);
    ghost var text := RenderTag(t, f);
    var g := FormatOf(t, f);
    OpenParts(t, f);
    n := AppendTag(marker, at, t, f);
    if t.isDeclaration {
      ReplaceLast(marker, n, '?', ' ', start, at, text);
      EndedPut(marker, start, at, text, '?');
      AppendChar(marker, n, '>', start, at, text + ['?']);
      EndedPut(marker, start, at, text + ['?'], '>');
      n := n + 1;
      if g != -1 {
        AppendChar(marker, n, '\n', start, at, text + ['?'] + ['>']);
        EndedPut(marker, start, at, text + ['?'] + ['>'], '\n');
        n := n + 1;
      }
    } else if |t.content| > 0 {
      ReplaceLast(marker, n, '>', ' ', start, at, text);
      EndedPut(marker, start, at, text, '>');
      if g >= 0 {
        AppendChar(marker, n, '\n', start, at, text + ['>']);
        EndedPut(marker, start, at, text + ['>'], '\n');
        n := n + 1;
      }
    } else {
      EndedShorter(marker, start, at, text, ' ');
      n := n - 1;
    }
  }

  lemma OpenParts(t: Node, f: int)
    requires NameOf(t) != ""
    ensures
      var g, tag := FormatOf(t, f), RenderTag(t, f);
      RenderOpen(t, f) ==
        if t.isDeclaration then (if g != -1 then tag + ['?'] + ['>'] + ['\n'] else tag + ['?'] + ['>'])
        else if t.content != [] then (if g >= 0 then tag + ['>'] + ['\n'] else tag + ['>'])
        else tag
  {
    assert Tabs(f) + "<" + "?" + NameOf(t) == Tabs(f) + "<?" + NameOf(t);
    assert Tabs(f) + "<" + "" + NameOf(t) == Tabs(f) + "<" + NameOf(t);
  }

  method AppendText(marker: array?<char>, n: nat, s: string, g: int,
                    ghost start: string, ghost at: nat, ghost text: string) returns (n': nat)
    requires g >= -2 && Put(marker, start, at, text) && n == at + |text| && Room(marker, at, text + RenderText(s, g))
    modifies if marker == null then {} else {marker}
    ensures n' == n + |RenderText(s, g)| && Put(marker, start, at, text + RenderText(s, g))
  {
    hide Ended, Put, RenderText, Escape;
    TextParts(text, s, g);
    var cb := LengthXmlString(s);
    n' := n;
    if cb > 0 {
      if g >= 0 {
        AppendTabs(marker, n', g + 1, start, at, text);
        cb := AppendEscaped(marker, n' + g + 1, s, start, at, text + Tabs(g + 1));
        AppendChar(marker, n' + g + 1 + cb, '\n', start, at, text + Tabs(g + 1) + Escape(s));
        EndedPut(marker, start, at, text + Tabs(g + 1) + Escape(s), '\n');
        n' := n' + cb + g + 2;
      } else {
        cb := AppendEscaped(marker, n', s, start, at, text);
        n' := n' + cb;
      }
    }
  }

  lemma TextParts(text: string, s: string, g: int)
    ensures |Escape(s)| == 0 <==> s == ""
    ensures text + RenderText(s, g) ==
      if s == "" then text else if g >= 0 then text + Tabs(g + 1) + Escape(s) + ['\n'] else text + Escape(s)
  {
    if s != "" {
      assert |EscapeChar(s[0])| > 0;
    }
  }

  method AppendClear(marker: array?<char>, n: nat, open: string, value: string, close: string, g: int,
                     ghost start: string, ghost at: nat, ghost text: string) returns (n': nat)
    requires g >= -1 && Put(marker, start, at, text) && n == at + |text|
    requires Room(marker, at, text + RenderClear(open, value, close, g))
    modifies if marker == null then {} else {marker}
    ensures n' == n + |RenderClear(open, value, close, g)|
    ensures Put(marker, start, at, text + RenderClear(open, value, close, g))
  {
    hide Ended, Put, RenderClear;
    ClearParts(text, open, value, close, g);
    n' := n;
    ghost var sofar := text;
    if open != "" {
      if g != -1 {
        AppendTabs(marker, n', g + 1, start, at, sofar);
        n', sofar := n' + g + 1, sofar + Tabs(g + 1);
      }
      AppendString(marker, n', open, start, at, sofar);
      n', sofar := n' + |open|, sofar + open;
    }
    if value != "" {
      AppendString(marker, n', value, start, at, sofar);
      n', sofar := n' + |value|, sofar + value;
    }
    if close != "" {
      AppendString(marker, n', close, start, at, sofar);
      n', sofar := n' + |close|, sofar + close;
    }
    if g != -1 {
      AppendChar(marker, n', '\n', start, at, sofar);
      EndedPut(marker, start, at, sofar, '\n');
      n' := n' + 1;
    }
  }

  lemma ClearParts(text: string, open: string, value: string, close: string, g: int)
    ensures
      var lead := if open == "" then text else if g != -1 then text + Tabs(g + 1) + open else text + open;
      var body := if value == "" then lead else lead + value;
      var tail := if close == "" then body else body + close;
      text + RenderClear(open, value, close, g) == if g == -1 then tail else tail + ['\n']
  {
  }

  /** The end tag, or the short form. */
  method AppendClose(marker: array?<char>, n: nat, t: Node, g: int,
                     ghost start: string, ghost at: nat, ghost text: string) returns (n': nat)
    requires g >= -2 && NameOf(t) != "" && !t.isDeclaration && Put(marker, start, at, text) && n == at + |text|
    requires Room(marker, at, text + RenderClose(t, g))
    modifies if marker == null then {} else {marker}
    ensures n' == n + |RenderClose(t, g)| && Put(marker, start, at, text + RenderClose(t, g))
  {
    hide Ended, Put, RenderClose, Tabs;
    CloseParts(text, t, g);
    ghost var sofar := text;
    n' := n;
    if |t.content| > 0 {
      if g >= 0 {
        AppendTabs(marker, n', g, start, at, sofar);
        n', sofar := n' + g, sofar + Tabs(g);
      }
      AppendChar(marker, n', '<', start, at, sofar);
      EndedPut(marker, start, at, sofar, '<');
      AppendChar(marker, n' + 1, '/', start, at, sofar + ['<']);
      EndedPut(marker, start, at, sofar + ['<'], '/');
      n', sofar := n' + 2, sofar + ['<'] + ['/'];
      AppendString(marker, n', NameOf(t), start, at, sofar);
      n', sofar := n' + |NameOf(t)|, sofar + NameOf(t);
      AppendChar(marker, n', '>', start, at, sofar);
      EndedPut(marker, start, at, sofar, '>');
      n', sofar := n' + 1, sofar + ['>'];
    } else {
      AppendChar(marker, n', '/', start, at, sofar);
      EndedPut(marker, start, at, sofar, '/');
      AppendChar(marker, n' + 1, '>', start, at, sofar + ['/']);
      EndedPut(marker, start, at, sofar + ['/'], '>');
      n', sofar := n' + 2, sofar + ['/'] + ['>'];
    }
    if g != -1 {
      AppendChar(marker, n', '\n', start, at, sofar);
      EndedPut(marker, start, at, sofar, '\n');
      n' := n' + 1;
    }
  }

  lemma CloseParts(text: string, t: Node, g: int)
    requires NameOf(t) != "" && !t.isDeclaration
    ensures |Tabs(g)| == if g > 0 then g else 0
    ensures
      var lead := if g >= 0 then text + Tabs(g) else text;
      var body := if t.content == [] then text + ['/'] + ['>'] else lead + ['<'] + ['/'] + NameOf(t) + ['>'];
      text + RenderClose(t, g) == if g == -1 then body else body + ['\n']
  {
    assert text + (Tabs(g) + "</" + NameOf(t) + ">") == (text + Tabs(g)) + ['<'] + ['/'] + NameOf(t) + ['>'];
    assert g < 0 ==> text + Tabs(g) == text;
    assert text + "/>" == text + ['/'] + ['>'];
  }

  method AppendContent(marker: array?<char>, n: nat, c: Content, g: int, h: int,
                       ghost start: string, ghost at: nat, ghost text: string) returns (n': nat)
    requires g >= -2 && (g == -2 ==> c.TextNode?) && (c.ChildNode? ==> h >= -1)
    requires Put(marker, start, at, text) && n == at + |text| && Room(marker, at, text + RenderContent(c, g, h))
    modifies if marker == null then {} else {marker}
    ensures n' == n + |RenderContent(c, g, h)| && Put(marker, start, at, text + RenderContent(c, g, h))
    decreases c
  {
    match c
    case TextNode(s) => n' := AppendText(marker, n, s, g, start, at, text);
    case ClearNode(open, value, close) => n' := AppendClear(marker, n, open, value, close, g, start, at, text);
    case ChildNode(node) =>
      hide Render;
      ghost var middle := Snapshot(marker);
      var k := CreateXmlStringR(node, marker, n, h);
      WrittenBoth(marker, start, middle, at, text, Render(node, h));
      n' := n + k;
  }

  /**
   CreateXMLStringR: the length of the rendered element; with a buffer, its text is written there, and
   besides at most one terminator behind it.
   */
  method CreateXmlStringR(t: Node, marker: array?<char>, at: nat, f: int) returns (nResult: nat)
    requires f >= -1 && Room(marker, at, Render(t, f))
    modifies if marker == null then {} else {marker}
    ensures nResult == |Render(t, f)| && Put(marker, old(Snapshot(marker)), at, Render(t, f))
    decreases t
  {
    ghost var start := Snapshot(marker);
    var g := FormatOf(t, f);
    var h := ChildFormat(t, g);
    ghost var text := "";
    RenderParts(t, f);
    var n := at;
    if NameOf(t) != "" {
      n := AppendOpen(marker, at, t, f);
    }
    text := RenderOpen(t, f);
    n := AppendContents(marker, n, t, g, h, start, at, text);
    text := text + RenderContents(t.content, g, h);
    if NameOf(t) != "" && !t.isDeclaration {
      n := AppendClose(marker, n, t, g, start, at, text);
    }
    nResult := n - at;
  }

  lemma RenderParts(t: Node, f: int)
    ensures
      var g := FormatOf(t, f);
      var h := ChildFormat(t, g);
      && Render(t, f) == RenderOpen(t, f) + RenderContents(t.content, g, h) + RenderClose(t, g)
      && (NameOf(t) == "" ==> RenderOpen(t, f) == "")
      && (NameOf(t) == "" || t.isDeclaration ==> RenderClose(t, g) == "")
  {
  }

  /** The loop over the contents. */
  method AppendContents(marker: array?<char>, n: nat, t: Node, g: int, h: int,
                        ghost start: string, ghost at: nat, ghost text: string) returns (n': nat)
    requires g >= -2 && (g == -2 ==> |t.content| == 1 && t.content[0].TextNode?) && (g != -2 ==> h >= -1)
    requires Put(marker, start, at, text) && n == at + |text|
    requires Room(marker, at, text + RenderContents(t.content, g, h))
    modifies if marker == null then {} else {marker}
    ensures n' == n + |RenderContents(t.content, g, h)|
    ensures Put(marker, start, at, text + RenderContents(t.content, g, h))
    decreases t, 0
  {
    n' := n;
    var i := 0;
    assert text + RenderContents(t.content[..0], g, h) == text;
    while i < |t.content|
      invariant 0 <= i <= |t.content| && n' == n + |RenderContents(t.content[..i], g, h)|
      invariant Put(marker, start, at, text + RenderContents(t.content[..i], g, h))
    {
      hide Put, RenderContents, RenderContent;
      ContentStep(text, t.content, i, g, h);
      ContentsPrefix(t.content, i + 1, g, h);
      n' := AppendContent(marker, n', t.content[i], g, h, start, at, text + RenderContents(t.content[..i], g, h));
      i := i + 1;
    }
    assert t.content[..i] == t.content;
  }

  lemma ContentStep(text: string, cs: seq<Content>, i: nat, g: int, h: int)
    requires i < |cs|
    ensures text + RenderContents(cs[..i + 1], g, h)
      == text + RenderContents(cs[..i], g, h) + RenderContent(cs[i], g, h)
    ensures |RenderContents(cs[..i + 1], g, h)| == |RenderContents(cs[..i], g, h)| + |RenderContent(cs[i], g, h)|
  {
    assert cs[..i + 1][..i] == cs[..i];
  }

  lemma {:induction false} ContentsPrefix(cs: seq<Content>, i: nat, g: int, h: int)
    requires i <= |cs|
    ensures |RenderContents(cs[..i], g, h)| <= |RenderContents(cs, g, h)|
    decreases |cs| - i
  {
    if i < |cs| {
      ContentStep("", cs, i, g, h);
      ContentsPrefix(cs, i + 1, g, h);
    } else {
      assert cs[..i] == cs;
    }
  }

  /** createXMLString: the measured size is the written size, and the terminator comes right behind it. */
  method CreateXmlString(t: Node, formatted: bool) returns (result: array<char>)
    ensures fresh(result) && result[..] == Render(t, if formatted then 0 else -1) + "\0"
  {
    hide Render;
    var f := if formatted then 0 else -1;
    var cbStr := CreateXmlStringR(t, null, 0, f);
    result := new char[cbStr + 1](_ => '\0');
    var n := CreateXmlStringR(t, result, 0, f);
    ghost var written := result[..];
    result[cbStr] := '\0';
    HoldsStill(result, written, 0, Render(t, f));
    assert result[..] == result[0..cbStr] + [result[cbStr]];
  }
}
