/**
 Character entities of xmlParser.cpp: escaping while rendering, decoding while parsing.

 A C string is modelled as its characters in front of the terminating NUL.
 */
module XmlText {

  import opened Options

  datatype Entity = Entity(s: string, c: char)

  const ENTITIES: seq<Entity> := [
    Entity("&amp;", '&'), Entity("&lt;", '<'), Entity("&gt;", '>'), Entity("&quot;", '\"'), Entity("&apos;", '\'')
  ]

  /** The character at `i`, which is NUL behind the end. */
  function At(s: string, i: int): char {
    if 0 <= i < |s| then s[i] else '\0'
  }

  // ---------- Escaping ----------

  function EscapeChar(c: char): string {
    if c == '&' then "&amp;"
    else if c == '<' then "&lt;"
    else if c == '>' then "&gt;"
    else if c == '\"' then "&quot;"
    else if c == '\'' then "&apos;"
    else [c]
  }

  /** The text that stands for `s` in an XML document. */
  function Escape(s: string): string {
    if s == "" then "" else EscapeChar(s[0]) + Escape(s[1..])
  }

  /** The table of entities says how a character is escaped. */
  lemma EscapeByTable(c: char, k: nat)
    requires k <= |ENTITIES| && forall j :: 0 <= j < k ==> ENTITIES[j].c != c
    ensures k == |ENTITIES| ==> EscapeChar(c) == [c]
    ensures k < |ENTITIES| && ENTITIES[k].c == c ==> EscapeChar(c) == ENTITIES[k].s
  {
    assert ENTITIES[0].c == '&' && ENTITIES[1].c == '<' && ENTITIES[2].c == '>';
    assert ENTITIES[3].c == '\"' && ENTITIES[4].c == '\'';
  }

  lemma {:induction false} EscapeMore(s: string, k: nat)
    requires k < |s|
    ensures Escape(s[..k + 1]) == Escape(s[..k]) + EscapeChar(s[k])
  {
    if k == 0 {
      assert s[..1] == [s[0]] && s[..1][1..] == "" && s[..0] == "";
    } else {
      EscapeMore(s[1..], k - 1);
      assert s[..k + 1][1..] == s[1..][..k] && s[..k][1..] == s[1..][..k - 1];
      SeqAppend(EscapeChar(s[0]), Escape(s[1..][..k - 1]), EscapeChar(s[k]));
    }
  }

  lemma SeqAppend(a: string, b: string, c: string)
    ensures a + (b + c) == (a + b) + c
  {
  }

  lemma {:induction false} EscapePrefix(s: string, k: nat)
    requires k <= |s|
    ensures |Escape(s[..k])| <= |Escape(s)|
    decreases |s| - k
  {
    if k < |s| {
      EscapeMore(s, k);
      EscapePrefix(s, k + 1);
    } else {
      assert s[..k] == s;
    }
  }

  /** Position of the character in the table of entities, or the length of the table. */
  method FindEntity(c: char) returns (k: nat)
    ensures k <= |ENTITIES| && (forall j :: 0 <= j < k ==> ENTITIES[j].c != c)
    ensures k < |ENTITIES| ==> ENTITIES[k].c == c
  {
    k := 0;
    while k < |ENTITIES| && ENTITIES[k].c != c
      invariant 0 <= k <= |ENTITIES| && forall j :: 0 <= j < k ==> ENTITIES[j].c != c
    {
      k := k + 1;
    }
  }

  /** ToXMLStringTool::lengthXMLString: the room that escaping takes. */
  method LengthXmlString(source: string) returns (r: nat)
    ensures r == |Escape(source)|
  {
    r := 0;
    var i := 0;
    while i < |source|
      invariant 0 <= i <= |source| && r == |Escape(source[..i])|
    {
      EscapeMore(source, i);
      var k := FindEntity(source[i]);
      EscapeByTable(source[i], k);
      r := r + if k < |ENTITIES| then |ENTITIES[k].s| else 1;
      i := i + 1;
    }
    assert source[..i] == source;
  }

  /** The buffer holds `text` at `at`. */
  ghost predicate Holds(buf: array<char>, at: int, text: string)
    reads buf
  {
    0 <= at <= at + |text| <= buf.Length && buf[at..at + |text|] == text
  }

  /** A copy of a C string; it also writes the terminator. */
  method CopyString(buf: array<char>, at: nat, text: string)
    requires at + |text| < buf.Length
    modifies buf
    ensures Holds(buf, at, text) && buf[at + |text|] == '\0'
    ensures forall j :: 0 <= j < buf.Length && !(at <= j <= at + |text|) ==> buf[j] == old(buf[j])
  {
    var i := 0;
    while i < |text|
      invariant 0 <= i <= |text| && buf[at..at + i] == text[..i]
      invariant forall j :: 0 <= j < buf.Length && !(at <= j < at + i) ==> buf[j] == old(buf[j])
    {
      buf[at + i] := text[i];
      assert buf[at..at + i + 1] == buf[at..at + i] + [text[i]];
      i := i + 1;
    }
    buf[at + i] := '\0';
    assert buf[at..at + |text|] == text;
  }

  /** Writes one escaped character; behind an entity also a terminator. */
  method WriteEscaped(dest: array<char>, d: nat, c: char) returns (d': nat)
    requires d + |EscapeChar(c)| < dest.Length
    modifies dest
    ensures d' == d + |EscapeChar(c)| && Holds(dest, d, EscapeChar(c))
    ensures forall j :: 0 <= j < dest.Length && !(d <= j <= d') ==> dest[j] == old(dest[j])
  {
    var k := FindEntity(c);
    EscapeByTable(c, k);
    if k < |ENTITIES| {
      CopyString(dest, d, ENTITIES[k].s);
      d' := d + |ENTITIES[k].s|;
    } else {
      dest[d] := c;
      d' := d + 1;
    }
  }

  lemma HoldsMore(buf: array<char>, at: nat, a: string, b: string)
    requires Holds(buf, at, a) && Holds(buf, at + |a|, b)
    ensures Holds(buf, at, a + b)
  {
    assert buf[at..at + |a + b|] == buf[at..at + |a|] + buf[at + |a|..at + |a| + |b|];
  }

  /** The buffer held `text` when it was `before`, and did not change there. */
  lemma HoldsStill(buf: array<char>, before: string, at: nat, text: string)
    requires |before| == buf.Length && at + |text| <= |before| && before[at..at + |text|] == text
    requires forall j :: at <= j < at + |text| ==> buf[j] == before[j]
    ensures Holds(buf, at, text)
  {
    forall j | 0 <= j < |text| ensures buf[at + j] == text[j] {
      assert before[at..at + |text|][j] == text[j];
    }
  }

  /** Writes one escaped character behind the text that is already there. */
  method AppendEscaped(dest: array<char>, at: nat, d: nat, ghost text: string, c: char) returns (d': nat)
    requires Holds(dest, at, text) && d == at + |text| && d + |EscapeChar(c)| < dest.Length
    modifies dest
    ensures d' == d + |EscapeChar(c)| && Holds(dest, at, text + EscapeChar(c))
    ensures forall j :: 0 <= j < dest.Length && !(d <= j <= d') ==> dest[j] == old(dest[j])
  {
    ghost var before := dest[..];
    d' := WriteEscaped(dest, d, c);
    HoldsStill(dest, before, at, text);
    HoldsMore(dest, at, text, EscapeChar(c));
  }

  /** ToXMLStringTool::toXMLUnSafe: writes the escaped text and a terminator, and nothing behind it. */
  method ToXmlUnsafe(dest: array<char>, at: nat, source: string)
    requires at + |Escape(source)| < dest.Length
    modifies dest
    ensures Holds(dest, at, Escape(source)) && dest[at + |Escape(source)|] == '\0'
    ensures forall j :: 0 <= j < dest.Length && !(at <= j <= at + |Escape(source)|) ==> dest[j] == old(dest[j])
  {
    var i, d := 0, at;
    assert Escape(source[..0]) == "" && dest[at..d] == "";
    hide Escape, EscapeChar;
    while i < |source|
      invariant 0 <= i <= |source| && d == at + |Escape(source[..i])| <= at + |Escape(source)|
      invariant Holds(dest, at, Escape(source[..i]))
      invariant forall j :: 0 <= j < dest.Length && !(at <= j <= at + |Escape(source)|) ==> dest[j] == old(dest[j])
    {
      EscapeMore(source, i);
      EscapePrefix(source, i + 1);
      d := AppendEscaped(dest, at, d, Escape(source[..i]), source[i]);
      i := i + 1;
    }
    assert source[..i] == source;
    ghost var written := dest[..];
    dest[d] := '\0';
    HoldsStill(dest, written, at, Escape(source));
  }

  /** ToXMLStringTool::toXML into a buffer of its own. */
  method ToXml(source: string) returns (buf: array<char>)
    ensures fresh(buf) && buf[..] == Escape(source) + "\0"
  {
    var l := LengthXmlString(source);
    buf := new char[l + 1](_ => '\0');
    ToXmlUnsafe(buf, 0, source);
    assert buf[..] == buf[0..l] + [buf[l]];
  }

  // ---------- Decoding ----------

  datatype DecodeError = UnknownCharacterEntity | CharacterCodeAbove255

  datatype Decoded = Text(s: string) | Failed(error: DecodeError)

  function Lower(c: char): char {
    if 'A' <= c <= 'Z' then c - 'A' + 'a' else c
  }

  /** Entity `k` stands at `i`, in any case. */
  predicate EntityAt(s: string, i: nat, k: nat)
    requires k < |ENTITIES|
  {
    && i + |ENTITIES[k].s| <= |s|
    && forall j :: 0 <= j < |ENTITIES[k].s| ==> Lower(s[i + j]) == ENTITIES[k].s[j]
  }

  /** The first entity of the table that stands at `i`, or the length of the table. */
  function EntityOf(s: string, i: nat): (k: nat)
    ensures k < |ENTITIES| ==> i + |ENTITIES[k].s| <= |s|
  {
    if EntityAt(s, i, 0) then 0
    else if EntityAt(s, i, 1) then 1
    else if EntityAt(s, i, 2) then 2
    else if EntityAt(s, i, 3) then 3
    else if EntityAt(s, i, 4) then 4
    else 5
  }

  /** The place of the first semicolon from `i` on. */
  function Semicolon(s: string, i: nat): (j: nat)
    requires i <= |s|
    ensures i <= j <= |s|
    decreases |s| - i
  {
    if i == |s| || s[i] == ';' then i else Semicolon(s, i + 1)
  }

  function Digit(c: char): int {
    if '0' <= c <= '9' then c as int - '0' as int
    else if 'A' <= c <= 'F' then c as int - 'A' as int + 10
    else if 'a' <= c <= 'f' then c as int - 'a' as int + 10
    else 16
  }

  /** The number that the characters from `a` to `b` denote, if they are digits of the base. */
  function Number(s: string, a: nat, b: nat, base: nat): Option<nat>
    requires a <= b <= |s|
    decreases b
  {
    if a == b then Some(0)
    else
      var n := Number(s, a, b - 1, base);
      var d := Digit(s[b - 1]);
      if n.None? || d >= base then None else Some(n.value * base + d)
  }

  /** The length of the character or reference at `i`, or 0 if it is no known, closed reference. */
  function ReferenceLength(s: string, i: nat): (l: nat)
    requires i < |s|
    ensures i + l <= |s|
  {
    if s[i] != '&' then 1
    else if i + 2 < |s| && s[i + 1] == '#' then
      var j := Semicolon(s, i + 2);
      if j < |s| then j + 1 - i else 0
    else
      var k := EntityOf(s, i);
      if k < |ENTITIES| then |ENTITIES[k].s| else 0
  }

  /** The character that the reference at `i` stands for. */
  function StoreChar(s: string, i: nat): (r: Decoded)
    requires i < |s| && ReferenceLength(s, i) > 0
    ensures r.Text? ==> |r.s| == 1
  {
    if s[i] != '&' then Text([s[i]])
    else if i + 2 < |s| && s[i + 1] == '#' then
      var j := i + ReferenceLength(s, i) - 1;
      var hex := i + 2 < j && (s[i + 2] == 'x' || s[i + 2] == 'X');
      var n := if hex then Number(s, i + 3, j, 16) else Number(s, i + 2, j, 10);
      if n.None? then Failed(UnknownCharacterEntity)
      else if n.value > 255 then Failed(CharacterCodeAbove255)
      else Text([n.value as char])
    else Text([ENTITIES[EntityOf(s, i)].c])
  }

  /** The number of characters from `i` on, unless there is an unknown or open reference. */
  function CountFrom(s: string, i: nat): Option<nat>
    requires i <= |s|
    decreases |s| - i
  {
    if i == |s| then Some(0)
    else
      var l := ReferenceLength(s, i);
      if l == 0 then None else Plus(1, CountFrom(s, i + l))
  }

  function Plus(n: nat, count: Option<nat>): Option<nat> {
    if count.None? then None else Some(n + count.value)
  }

  function Prefixed(a: string, r: Decoded): Decoded {
    if r.Failed? then r else Text(a + r.s)
  }

  /** The text from `i` on, or the first reference that cannot be stored. */
  function StoreFrom(s: string, i: nat): Decoded
    requires i <= |s| && CountFrom(s, i).Some?
    decreases |s| - i
  {
    if i == |s| then Text("")
    else
      var c := StoreChar(s, i);
      if c.Failed? then c else Prefixed(c.s, StoreFrom(s, i + ReferenceLength(s, i)))
  }

  /**
   The text that `s` stands for. An unknown entity or an unterminated reference anywhere is found first, in
   the counting pass; wrong digits and too large codes are found from left to right when the text is stored.
   */
  function Decode(s: string): Decoded {
    if CountFrom(s, 0).None? then Failed(UnknownCharacterEntity) else StoreFrom(s, 0)
  }

  /** The places of the characters with an entity in the table; the length of the table for the others. */
  function EntityNumber(c: char): nat {
    if c == '&' then 0 else if c == '<' then 1 else if c == '>' then 2 else if c == '\"' then 3
    else if c == '\'' then 4 else 5
  }

  /** At most one entity stands at a place. */
  lemma EntityIsOne(s: string, i: nat, k: nat)
    requires k < |ENTITIES| && EntityAt(s, i, k)
    ensures EntityOf(s, i) == k && s[i] == '&' && s[i + 1] != '#'
  {
    EntityLetters(s, i, k);
    forall m | 0 <= m < |ENTITIES| && m != k ensures !EntityAt(s, i, m) {
      EntityLetters(s, i, m);
      assert ENTITIES[m].s[1] != ENTITIES[k].s[1] || ENTITIES[m].s[2] != ENTITIES[k].s[2];
    }
  }

  lemma EntityLetters(s: string, i: nat, k: nat)
    requires k < |ENTITIES|
    ensures |ENTITIES[k].s| > 2
    ensures EntityAt(s, i, k) ==> i + 2 < |s| && s[i] == '&'
    ensures EntityAt(s, i, k) ==> Lower(s[i + 1]) == ENTITIES[k].s[1] && Lower(s[i + 2]) == ENTITIES[k].s[2]
  {
    assert ENTITIES[k].s[0] == '&';
    assert EntityAt(s, i, k) ==> Lower(s[i]) == ENTITIES[k].s[0];
  }

  lemma EntityIsRead(s: string, i: nat, k: nat)
    requires k < |ENTITIES| && EntityAt(s, i, k)
    ensures ReferenceLength(s, i) == |ENTITIES[k].s| && StoreChar(s, i) == Text([ENTITIES[k].c])
  {
    hide EntityOf, Semicolon, Number;
    EntityIsOne(s, i, k);
  }

  /** An escaped character is read back. */
  lemma EscapedChar(c: char, s: string, i: nat)
    requires i + |EscapeChar(c)| <= |s| && s[i..i + |EscapeChar(c)|] == EscapeChar(c)
    ensures i < |s| && ReferenceLength(s, i) == |EscapeChar(c)| && StoreChar(s, i) == Text([c])
  {
    hide EntityOf, Semicolon, Number;
    var e, k := EscapeChar(c), EntityNumber(c);
    forall j | 0 <= j < |e| ensures s[i + j] == e[j] {
      assert s[i..i + |e|][j] == s[i + j];
    }
    if k < |ENTITIES| {
      assert e == ENTITIES[k].s && c == ENTITIES[k].c;
      assert forall j :: 0 <= j < |e| ==> Lower(e[j]) == e[j];
      EntityIsRead(s, i, k);
    }
  }

  lemma {:induction false} DecodeEscapeFrom(t: string, k: nat)
    requires k <= |t|
    ensures
      var i := |Escape(t[..k])|;
      && i <= |Escape(t)| && CountFrom(Escape(t), i) == Some(|t| - k)
      && StoreFrom(Escape(t), i) == Text(t[k..])
    decreases |t| - k
  {
    hide CountFrom, StoreFrom, Escape, EscapeChar;
    EscapePrefix(t, k);
    if k < |t| {
      DecodeEscapeFrom(t, k + 1);
      EscapedStep(t, k, Escape(t));
      assert [t[k]] + t[k + 1..] == t[k..];
    } else {
      assert t[..k] == t;
      DecodeEnd(Escape(t));
    }
  }

  lemma DecodeEnd(s: string)
    ensures CountFrom(s, |s|) == Some(0) && StoreFrom(s, |s|) == Text("")
  {
  }

  lemma EscapedStep(t: string, k: nat, e: string)
    requires k < |t| && e == Escape(t)
    ensures
      var i, j := |Escape(t[..k])|, |Escape(t[..k + 1])|;
      && i <= |e| && j <= |e| && CountFrom(e, i) == Plus(1, CountFrom(e, j))
      && (CountFrom(e, j).Some? ==> StoreFrom(e, i) == Prefixed([t[k]], StoreFrom(e, j)))
  {
    hide ReferenceLength, StoreChar, EscapeChar;
    EscapePrefix(t, k);
    EscapePrefix(t, k + 1);
    EscapeMore(t, k);
    EscapeSplit(t, k);
    EscapedChar(t[k], e, |Escape(t[..k])|);
  }

  lemma EscapeSplit(t: string, k: nat)
    requires k < |t|
    ensures
      var i := |Escape(t[..k])|;
      && i + |EscapeChar(t[k])| <= |Escape(t)|
      && Escape(t)[i..i + |EscapeChar(t[k])|] == EscapeChar(t[k])
  {
    hide Escape, EscapeChar;
    EscapeConcat(t[..k + 1], t[k + 1..]);
    EscapeMore(t, k);
    assert t[..k + 1] + t[k + 1..] == t;
    MiddlePart(Escape(t[..k]), EscapeChar(t[k]), Escape(t[k + 1..]));
  }

  lemma MiddlePart(a: string, b: string, c: string)
    ensures (a + b + c)[|a|..|a| + |b|] == b
  {
  }

  lemma {:induction false} EscapeConcat(a: string, b: string)
    ensures Escape(a + b) == Escape(a) + Escape(b)
  {
    if a == "" {
      assert a + b == b;
    } else {
      assert (a + b)[1..] == a[1..] + b;
      EscapeConcat(a[1..], b);
      SeqAppend(EscapeChar(a[0]), Escape(a[1..]), Escape(b));
    }
  }

  /** Decoding undoes escaping, for every text, and the counting pass counts the characters. */
  lemma DecodeEscape(t: string)
    ensures Decode(Escape(t)) == Text(t) && CountFrom(Escape(t), 0) == Some(|t|)
  {
    DecodeEscapeFrom(t, 0);
    assert t[..0] == "" && t[0..] == t;
  }

  /** The storing pass fills exactly the buffer of the counting pass. */
  lemma {:induction false} StoreLength(s: string, i: nat)
    requires i <= |s| && CountFrom(s, i).Some? && StoreFrom(s, i).Text?
    ensures |StoreFrom(s, i).s| == CountFrom(s, i).value
    decreases |s| - i
  {
    if i < |s| {
      StoreLength(s, i + ReferenceLength(s, i));
    }
  }

  // ---------- Decoding step by step ----------

  /** The scan of the counting pass over one character or reference. */
  method ScanReference(s: string, i: nat) returns (l: nat)
    requires i < |s|
    ensures l == ReferenceLength(s, i)
  {
    if s[i] != '&' {
      return 1;
    }
    if i + 2 < |s| && s[i + 1] == '#' {
      var j := i + 2;
      while j < |s| && s[j] != ';'
        invariant i + 2 <= j <= |s| && Semicolon(s, i + 2) == Semicolon(s, j)
      {
        j := j + 1;
      }
      return if j < |s| then j + 1 - i else 0;
    }
    var k := ScanEntity(s, i);
    l := if k < |ENTITIES| then |ENTITIES[k].s| else 0;
  }

  /** The loop over the table of entities. */
  method ScanEntity(s: string, i: nat) returns (k: nat)
    ensures k == EntityOf(s, i)
  {
    k := 0;
    while k < |ENTITIES| && !EntityAt(s, i, k)
      invariant 0 <= k <= |ENTITIES|
      invariant forall j :: 0 <= j < k ==> !EntityAt(s, i, j)
    {
      k := k + 1;
    }
    assert k > 0 ==> !EntityAt(s, i, 0);
    assert k > 1 ==> !EntityAt(s, i, 1);
    assert k > 2 ==> !EntityAt(s, i, 2);
    assert k > 3 ==> !EntityAt(s, i, 3);
    assert k > 4 ==> !EntityAt(s, i, 4);
  }

  method ScanNumber(s: string, a: nat, b: nat, base: nat) returns (n: Option<nat>)
    requires a <= b <= |s|
    ensures n == Number(s, a, b, base)
  {
    var j, k := 0, a;
    while k < b
      invariant a <= k <= b && Number(s, a, k, base) == Some(j)
    {
      var d := Digit(s[k]);
      if d >= base {
        NumberFails(s, a, b, base, k + 1);
        return None;
      }
      j := j * base + d;
      k := k + 1;
    }
    n := Some(j);
  }

  lemma {:induction false} NumberFails(s: string, a: nat, b: nat, base: nat, k: nat)
    requires a <= k <= b <= |s| && Number(s, a, k, base).None?
    ensures Number(s, a, b, base).None?
    decreases b - k
  {
    if k < b {
      NumberFails(s, a, b, base, k + 1);
    }
  }

  /** The character that is stored for the reference at `i`. */
  method StoreReference(s: string, i: nat, l: nat) returns (r: Decoded)
    requires i < |s| && l == ReferenceLength(s, i) > 0
    ensures r == StoreChar(s, i)
  {
    if s[i] != '&' {
      return Text([s[i]]);
    }
    if i + 2 < |s| && s[i + 1] == '#' {
      var n;
      if i + 2 < i + l - 1 && (s[i + 2] == 'x' || s[i + 2] == 'X') {
        n := ScanNumber(s, i + 3, i + l - 1, 16);
      } else {
        n := ScanNumber(s, i + 2, i + l - 1, 10);
      }
      if n.None? {
        return Failed(UnknownCharacterEntity);
      }
      if n.value > 255 {
        return Failed(CharacterCodeAbove255);
      }
      return Text([n.value as char]);
    }
    var k := ScanEntity(s, i);
    return Text([ENTITIES[k].c]);
  }

  /** The first loop of fromXMLString */
  method CountPass(s: string) returns (ll: Option<nat>)
    ensures ll == CountFrom(s, 0)
  {
    var i, n := 0, 0;
    while i < |s|
      invariant 0 <= i <= |s| && CountFrom(s, 0) == Plus(n, CountFrom(s, i))
    {
      hide ReferenceLength;
      var l := ScanReference(s, i);
      if l == 0 {
        return None;
      }
      i := i + l;
      n := n + 1;
    }
    ll := Some(n);
  }

  /** The second loop of fromXMLString, which fills the buffer up to its last place. */
  method StorePass(d: array<char>, s: string) returns (failure: Decoded)
    requires CountFrom(s, 0) == Some(d.Length - 1)
    modifies d
    ensures StoreFrom(s, 0) == Prefixed(d[..d.Length - 1], failure)
    ensures failure.Text? ==> failure.s == ""
  {
    hide ReferenceLength, StoreChar, CountFrom, StoreFrom;
    var p, i := 0, 0;
    failure := Text("");
    while p < d.Length - 1
      invariant 0 <= i <= |s| && 0 <= p < d.Length && CountFrom(s, i) == Some(d.Length - 1 - p)
      invariant StoreFrom(s, 0) == Prefixed(d[..p], StoreFrom(s, i))
    {
      StoreStep(s, i, d[..p], d.Length - 1 - p);
      var l := ScanReference(s, i);
      var c := StoreReference(s, i, l);
      if c.Failed? {
        failure := c;
        return;
      }
      ghost var before := d[..p];
      d[p] := c.s[0];
      assert d[..p + 1] == before + c.s;
      p, i := p + 1, i + l;
    }
    StoreEnds(s, i);
  }

  lemma StoreEnds(s: string, i: nat)
    requires i <= |s| && CountFrom(s, i) == Some(0)
    ensures StoreFrom(s, i) == Text("")
  {
  }

  /** One round of the second pass. */
  lemma StoreStep(s: string, i: nat, before: string, n: nat)
    requires i <= |s| && CountFrom(s, i) == Some(n) && n > 0
    ensures i < |s| && ReferenceLength(s, i) > 0
    ensures
      var l, c := ReferenceLength(s, i), StoreChar(s, i);
      && CountFrom(s, i + l) == Some(n - 1)
      && (c.Failed? ==> StoreFrom(s, i) == c)
      && (c.Text? ==> Prefixed(before, StoreFrom(s, i)) == Prefixed(before + c.s, StoreFrom(s, i + l)))
  {
    hide ReferenceLength, StoreChar;
    if StoreChar(s, i).Text? {
      PrefixedTwice(before, StoreChar(s, i).s, StoreFrom(s, i + ReferenceLength(s, i)));
    }
  }

  lemma PrefixedTwice(a: string, b: string, r: Decoded)
    ensures Prefixed(a, Prefixed(b, r)) == Prefixed(a + b, r)
  {
    assert r.Text? ==> a + (b + r.s) == (a + b) + r.s;
  }

  /** fromXMLString: decodes a text, in a buffer of the size that the counting pass found. */
  method FromXmlString(s: string) returns (r: Decoded)
    ensures r == Decode(s)
    ensures r.Text? ==> CountFrom(s, 0) == Some(|r.s|)
  {
    var ll := CountPass(s);
    if ll.None? {
      return Failed(UnknownCharacterEntity);
    }
    var d := new char[ll.value + 1](_ => '\0');
    r := StorePass(d, s);
    if r.Text? {
      r := Text(d[..ll.value]);
      assert d[..ll.value] + "" == d[..ll.value];
      d[ll.value] := '\0';
    }
  }
}
