/**
 What a text of an XML document stands for, told by how it is spelled: a text is a row of pieces, which are plain
 characters, named entities in any case, and numeric references in either base. fromXMLString reads every such text
 as the characters that its pieces stand for, and no other text.
 */
module XmlReferences {

  import opened Options
  import opened XmlText

  // ---------- Numbers ----------

  const DIGITS := "0123456789abcdef"
  const CAPITALS := "0123456789ABCDEF"

  /** The value of a digit of the base; the base itself for any other character. */
  function DigitValue(c: char, base: nat): (v: nat)
    requires base <= 16
    ensures v < base ==> c == DIGITS[v] || c == CAPITALS[v]
    ensures v <= base
  {
    DigitFrom(c, base, 0)
  }

  function DigitFrom(c: char, base: nat, v: nat): (r: nat)
    requires v <= base <= 16
    ensures v <= r <= base
    ensures r < base ==> c == DIGITS[r] || c == CAPITALS[r]
    ensures forall u :: v <= u < r ==> c != DIGITS[u] && c != CAPITALS[u]
    decreases base - v
  {
    if v == base || c == DIGITS[v] || c == CAPITALS[v] then v else DigitFrom(c, base, v + 1)
  }

  function Power(base: nat, n: nat): nat {
    if n == 0 then 1 else base * Power(base, n - 1)
  }

  predicate AllDigits(w: string, base: nat)
    requires base <= 16
  {
    forall j :: 0 <= j < |w| ==> DigitValue(w[j], base) < base
  }

  function Times(a: nat, b: nat): nat {
    a * b
  }

  /** The sum of the digits, each times its power of the base. */
  function Value(w: string, base: nat): nat
    requires base <= 16
  {
    if w == "" then 0 else Times(DigitValue(w[0], base), Power(base, |w| - 1)) + Value(w[1..], base)
  }

  lemma DigitsAgree(c: char, base: nat)
    requires base == 10 || base == 16
    ensures if DigitValue(c, base) < base then Digit(c) == DigitValue(c, base) else Digit(c) >= base
  {
    var v := DigitValue(c, base);
    assert v < base ==> Digit(DIGITS[v]) == Digit(CAPITALS[v]) == v by {
      DigitOfTable(v);
    }
    if Digit(c) < base {
      TableHas(c);
    }
  }

  lemma DigitOfTable(v: nat)
    ensures v < 16 ==> Digit(DIGITS[v]) == Digit(CAPITALS[v]) == v
  {
  }

  lemma TableHas(c: char)
    ensures Digit(c) < 16 ==> Digit(c) >= 0 && (c == DIGITS[Digit(c)] || c == CAPITALS[Digit(c)])
  {
  }

  lemma {:induction false} ValueMore(w: string, c: char, base: nat)
    requires base <= 16
    ensures Value(w + [c], base) == Value(w, base) * base + DigitValue(c, base)
  {
    hide DigitValue;
    if w == "" {
      assert (w + [c])[1..] == "" && Power(base, 0) == 1;
      assert Value([c], base) == DigitValue(c, base) * 1 + Value([c][1..], base);
    } else {
      ValueMore(w[1..], c, base);
      assert (w + [c])[1..] == w[1..] + [c];
      var d, p := DigitValue(w[0], base), Power(base, |w| - 1);
      assert Power(base, |w|) == base * p;
      Distribute(d, p, Value(w[1..], base), base);
    }
  }

  lemma Distribute(d: nat, p: nat, v: nat, base: nat)
    ensures (d * p + v) * base == d * (base * p) + v * base
  {
  }

  /** Reading digit by digit from the left computes that sum. */
  lemma {:induction false} NumberIsValue(s: string, a: nat, b: nat, base: nat)
    requires a <= b <= |s| && (base == 10 || base == 16)
    ensures Number(s, a, b, base) == if AllDigits(s[a..b], base) then Some(Value(s[a..b], base)) else None
    decreases b
  {
    hide Value, DigitValue, Digit;
    if a == b {
      ValueEmpty(base);
    } else {
      NumberIsValue(s, a, b - 1, base);
      var w := s[a..b - 1];
      assert s[a..b] == w + [s[b - 1]];
      ValueMore(w, s[b - 1], base);
      DigitsAgree(s[b - 1], base);
      AllDigitsMore(w, s[b - 1], base);
    }
  }

  lemma ValueEmpty(base: nat)
    requires base <= 16
    ensures Value("", base) == 0
  {
  }

  lemma AllDigitsMore(w: string, c: char, base: nat)
    requires base <= 16
    ensures AllDigits(w + [c], base) <==> AllDigits(w, base) && DigitValue(c, base) < base
  {
    hide DigitValue;
    assert forall j :: 0 <= j < |w| ==> (w + [c])[j] == w[j];
    assert (w + [c])[|w|] == c;
  }

  /** The number in the base, without leading zeros. */
  function Printed(n: nat, base: nat, digits: string): (w: string)
    requires 2 <= base <= 16 && |digits| == 16
  {
    if n < base then [digits[n]] else Printed(n / base, base, digits) + [digits[n % base]]
  }

  function Zeros(k: nat): string {
    if k == 0 then "" else Zeros(k - 1) + "0"
  }

  lemma {:induction false} PrintedValue(n: nat, base: nat, digits: string, k: nat)
    requires (base == 10 || base == 16) && (digits == DIGITS || digits == CAPITALS)
    ensures AllDigits(Zeros(k) + Printed(n, base, digits), base)
    ensures Value(Zeros(k) + Printed(n, base, digits), base) == n
    ensures Printed(n, base, digits) != "" && forall j :: 0 <= j < |Printed(n, base, digits)| ==>
              Printed(n, base, digits)[j] != ';' && Printed(n, base, digits)[j] in digits
  {
    hide Value, DigitValue;
    if n < base {
      ZerosValue(k, base);
      DigitIsIts(n, base, digits);
      ValueMore(Zeros(k), digits[n], base);
      AllDigitsMore(Zeros(k), digits[n], base);
    } else {
      PrintedValue(n / base, base, digits, k);
      var w := Zeros(k) + Printed(n / base, base, digits);
      DigitIsIts(n % base, base, digits);
      ValueMore(w, digits[n % base], base);
      AllDigitsMore(w, digits[n % base], base);
      assert w + [digits[n % base]] == Zeros(k) + Printed(n, base, digits);
    }
  }

  lemma DigitIsIts(v: nat, base: nat, digits: string)
    requires v < base <= 16 && (digits == DIGITS || digits == CAPITALS)
    ensures DigitValue(digits[v], base) == v && digits[v] != ';'
  {
    var u := DigitValue(digits[v], base);
    DigitOfTable(v);
    DigitOfTable(u);
    assert u <= v;
  }

  lemma {:induction false} ZerosValue(k: nat, base: nat)
    requires 1 <= base <= 16
    ensures AllDigits(Zeros(k), base) && Value(Zeros(k), base) == 0 && |Zeros(k)| == k
    ensures forall j :: 0 <= j < k ==> Zeros(k)[j] == '0'
  {
    hide Value, DigitValue;
    if k == 0 {
      ValueEmpty(base);
    } else {
      ZerosValue(k - 1, base);
      DigitIsIts(0, base, DIGITS);
      ValueMore(Zeros(k - 1), '0', base);
      AllDigitsMore(Zeros(k - 1), '0', base);
    }
  }

  // ---------- The pieces of a text ----------

  /** A character, an entity spelled `w`, or the digits `w` of a number; `x` is empty for decimal ones. */
  datatype Piece = Plain(c: char) | Named(k: nat, w: string) | Coded(x: string, w: string)

  /** The same letter in either case, or the same character. */
  predicate SameLetter(a: char, b: char) {
    || a == b
    || ('A' <= a <= 'Z' && 'a' <= b <= 'z' && b as int - a as int == 32)
    || ('A' <= b <= 'Z' && 'a' <= a <= 'z' && a as int - b as int == 32)
  }

  lemma SameLower(a: char, b: char)
    requires SameLetter(a, b)
    ensures Lower(a) == Lower(b)
  {
  }

  function EntityName(k: nat): string {
    if k == 0 then "&amp;" else if k == 1 then "&lt;" else if k == 2 then "&gt;" else if k == 3 then "&quot;"
    else "&apos;"
  }

  function EntityChar(k: nat): char {
    if k == 0 then '&' else if k == 1 then '<' else if k == 2 then '>' else if k == 3 then '\"' else '\''
  }

  lemma EntityTable(k: nat)
    requires k < 5
    ensures |ENTITIES| == 5 && ENTITIES[k] == Entity(EntityName(k), EntityChar(k))
    ensures forall j :: 0 <= j < |EntityName(k)| ==> Lower(EntityName(k)[j]) == EntityName(k)[j]
  {
  }

  predicate WellSpelled(p: Piece) {
    match p
    case Plain(c) => c != '&'
    case Named(k, w) =>
      k < 5 && |w| == |EntityName(k)| && forall j :: 0 <= j < |w| ==> SameLetter(w[j], EntityName(k)[j])
    case Coded(x, w) =>
      && (x == "" || x == "x" || x == "X") && ';' !in w
      && (x == "" && w != "" ==> w[0] != 'x' && w[0] != 'X')
  }

  function Spell(p: Piece): string {
    match p
    case Plain(c) => [c]
    case Named(_, w) => w
    case Coded(x, w) => "&#" + x + w + ";"
  }

  /** What a piece stands for. */
  function Meant(p: Piece): Decoded
    requires WellSpelled(p)
  {
    match p
    case Plain(c) => Text([c])
    case Named(k, _) => Text([EntityChar(k)])
    case Coded(x, w) =>
      var base := if x == "" then 10 else 16;
      if !AllDigits(w, base) then Failed(UnknownCharacterEntity)
      else if Value(w, base) > 255 then Failed(CharacterCodeAbove255)
      else Text([Value(w, base) as char])
  }

  predicate AllWellSpelled(ps: seq<Piece>) {
    forall k :: 0 <= k < |ps| ==> WellSpelled(ps[k])
  }

  function Spelled(ps: seq<Piece>): string {
    if ps == [] then "" else Spell(ps[0]) + Spelled(ps[1..])
  }

  /** The characters that the pieces stand for, or the first error among them. */
  function Meaning(ps: seq<Piece>): Decoded
    requires AllWellSpelled(ps)
  {
    if ps == [] then Text("")
    else if Meant(ps[0]).Failed? then Meant(ps[0])
    else if Meaning(ps[1..]).Failed? then Meaning(ps[1..])
    else Text(Meant(ps[0]).s + Meaning(ps[1..]).s)
  }

  /** `w` stands at `i`. */
  predicate StandsAt(s: string, i: nat, w: string) {
    i + |w| <= |s| && forall j :: 0 <= j < |w| ==> s[i + j] == w[j]
  }

  lemma {:induction false} SemicolonAt(s: string, i: nat, e: nat)
    requires i <= e < |s| && s[e] == ';' && forall j :: i <= j < e ==> s[j] != ';'
    ensures Semicolon(s, i) == e
    decreases e - i
  {
    if i < e {
      SemicolonAt(s, i + 1, e);
    }
  }

  lemma CodedIsRead(s: string, i: nat, x: string, w: string)
    requires WellSpelled(Coded(x, w)) && StandsAt(s, i, Spell(Coded(x, w)))
    ensures ReferenceLength(s, i) == |Spell(Coded(x, w))| && StoreChar(s, i) == Meant(Coded(x, w))
  {
    hide Number, Digit, DigitValue, Value, AllDigits, Semicolon;
    var t := Spell(Coded(x, w));
    var a, e := i + 2 + |x|, i + |t| - 1;
    CodedParts(s, i, x, w);
    SemicolonAt(s, i + 2, e);
    NumberIsValue(s, a, e, if x == "" then 10 else 16);
  }

  lemma CodedParts(s: string, i: nat, x: string, w: string)
    requires WellSpelled(Coded(x, w)) && StandsAt(s, i, Spell(Coded(x, w)))
    ensures
      var a, e := i + 2 + |x|, i + 2 + |x| + |w|;
      && |Spell(Coded(x, w))| == |x| + |w| + 3 && e < |s| && s[i] == '&' && s[i + 1] == '#' && s[e] == ';'
      && s[a..e] == w && (forall j :: i + 2 <= j < e ==> s[j] != ';')
      && (x != "" ==> s[i + 2] == 'x' || s[i + 2] == 'X')
      && (x == "" && w != "" ==> s[i + 2] != 'x' && s[i + 2] != 'X')
  {
    var t := Spell(Coded(x, w));
    assert t[0] == '&' && t[1] == '#' && t[2 + |x| + |w|] == ';';
    assert forall j :: 0 <= j < |x| ==> t[2 + j] == x[j];
    assert forall j :: 0 <= j < |w| ==> t[2 + |x| + j] == w[j];
    forall j | 0 <= j < |w| ensures s[i + 2 + |x| + j] == w[j] {
      assert s[i + (2 + |x| + j)] == t[2 + |x| + j];
    }
    assert s[i + 0] == t[0] && s[i + 1] == t[1] && s[i + (2 + |x| + |w|)] == ';';
    assert x != "" ==> s[i + 2] == t[2] == x[0];
    assert x == "" && w != "" ==> s[i + 2] == w[0];
    forall j | i + 2 <= j < i + 2 + |x| + |w| ensures s[j] != ';' {
      if j < i + 2 + |x| {
        assert s[i + (j - i)] == t[j - i] == x[j - i - 2];
      } else {
        assert s[j] == w[j - i - 2 - |x|];
      }
    }
  }

  lemma PieceIsRead(s: string, i: nat, p: Piece)
    requires WellSpelled(p) && StandsAt(s, i, Spell(p))
    ensures i < |s| && ReferenceLength(s, i) == |Spell(p)| > 0 && StoreChar(s, i) == Meant(p)
  {
    match p
    case Plain(c) => assert s[i + 0] == Spell(p)[0];
    case Named(k, w) => NamedIsRead(s, i, k, w);
    case Coded(x, w) => CodedIsRead(s, i, x, w);
  }

  lemma NamedIsRead(s: string, i: nat, k: nat, w: string)
    requires WellSpelled(Named(k, w)) && StandsAt(s, i, w)
    ensures i < |s| && ReferenceLength(s, i) == |w| > 0 && StoreChar(s, i) == Text([EntityChar(k)])
  {
    EntityTable(k);
    forall j | 0 <= j < |w| ensures Lower(s[i + j]) == ENTITIES[k].s[j] {
      SameLower(w[j], EntityName(k)[j]);
    }
    assert EntityAt(s, i, k);
    EntityLetters(s, i, k);
    EntityIsRead(s, i, k);
  }

  lemma {:induction false} SpelledIsRead(s: string, i: nat, ps: seq<Piece>)
    requires AllWellSpelled(ps) && StandsAt(s, i, Spelled(ps)) && i + |Spelled(ps)| == |s|
    ensures CountFrom(s, i) == Some(|ps|) && StoreFrom(s, i) == Meaning(ps)
    decreases |ps|
  {
    hide WellSpelled, Spell, Meant, ReferenceLength, StoreChar;
    if ps != [] {
      var w, rest := Spell(ps[0]), Spelled(ps[1..]);
      assert forall j :: 0 <= j < |w| ==> Spelled(ps)[j] == w[j];
      forall j | 0 <= j < |rest| ensures s[i + |w| + j] == rest[j] {
        assert s[i + (|w| + j)] == Spelled(ps)[|w| + j];
      }
      PieceIsRead(s, i, ps[0]);
      SpelledIsRead(s, i + |w|, ps[1..]);
    }
  }

  /** A text that is spelled by pieces is read as what they stand for, with the first error among them. */
  lemma DecodeSpelled(ps: seq<Piece>)
    requires AllWellSpelled(ps)
    ensures Decode(Spelled(ps)) == Meaning(ps)
  {
    SpelledIsRead(Spelled(ps), 0, ps);
  }

  // ---------- And no other text ----------

  /** The pieces of a text in which every reference is known and closed. */
  lemma {:induction false} PiecesFrom(s: string, i: nat) returns (ps: seq<Piece>)
    requires i <= |s| && CountFrom(s, i).Some?
    ensures AllWellSpelled(ps) && Spelled(ps) == s[i..]
    decreases |s| - i
  {
    hide ReferenceLength;
    ps := [];
    if i < |s| {
      var l := ReferenceLength(s, i);
      var p := PieceAt(s, i);
      var rest := PiecesFrom(s, i + l);
      ps := [p] + rest;
      assert ps[1..] == rest && s[i..] == s[i..i + l] + s[i + l..];
    }
  }

  lemma PieceAt(s: string, i: nat) returns (p: Piece)
    requires i < |s| && ReferenceLength(s, i) > 0
    ensures WellSpelled(p) && Spell(p) == s[i..i + ReferenceLength(s, i)]
  {
    hide Semicolon;
    if s[i] != '&' {
      p := Plain(s[i]);
    } else if i + 2 < |s| && s[i + 1] == '#' {
      p := CodedPiece(s, i, Semicolon(s, i + 2));
    } else {
      var k := EntityOf(s, i);
      EntityTable(k);
      assert EntityAt(s, i, k);
      p := Named(k, s[i..i + ReferenceLength(s, i)]);
      forall j | 0 <= j < |p.w| ensures SameLetter(p.w[j], EntityName(k)[j]) {
        assert Lower(s[i + j]) == ENTITIES[k].s[j] == EntityName(k)[j];
        LowerSame(s[i + j], EntityName(k)[j]);
      }
    }
  }

  lemma LowerSame(a: char, b: char)
    requires Lower(a) == b == Lower(b)
    ensures SameLetter(a, b)
  {
  }

  lemma CodedPiece(s: string, i: nat, j: nat) returns (p: Piece)
    requires i + 2 < |s| && s[i] == '&' && s[i + 1] == '#' && j == Semicolon(s, i + 2) < |s|
    ensures WellSpelled(p) && Spell(p) == s[i..j + 1]
  {
    hide Semicolon;
    SemicolonIsFirst(s, i + 2);
    if i + 2 < j && (s[i + 2] == 'x' || s[i + 2] == 'X') {
      p := Coded(s[i + 2..i + 3], s[i + 3..j]);
      assert s[i..j + 1] == "&#" + s[i + 2..i + 3] + s[i + 3..j] + ";";
      assert s[i + 2..i + 3] == [s[i + 2]];
    } else {
      p := Coded("", s[i + 2..j]);
      assert s[i..j + 1] == "&#" + "" + s[i + 2..j] + ";";
    }
  }

  lemma {:induction false} SemicolonIsFirst(s: string, i: nat)
    requires i <= |s|
    ensures forall j :: i <= j < Semicolon(s, i) ==> s[j] != ';'
    ensures Semicolon(s, i) < |s| ==> s[Semicolon(s, i)] == ';'
    decreases |s| - i
  {
    if i < |s| && s[i] != ';' {
      SemicolonIsFirst(s, i + 1);
    }
  }

  /** A text that no pieces spell has an unknown or open reference, and fails for that whatever else is in it. */
  lemma DecodeUnspelled(s: string)
    requires forall ps :: AllWellSpelled(ps) ==> Spelled(ps) != s
    ensures Decode(s) == Failed(UnknownCharacterEntity)
  {
    assert s[0..] == s;
    if CountFrom(s, 0).Some? {
      var ps := PiecesFrom(s, 0);
    }
  }

  lemma {:induction false} SpelledMore(ps: seq<Piece>, p: Piece)
    ensures Spelled(ps + [p]) == Spelled(ps) + Spell(p)
  {
    hide Spell;
    if ps == [] {
      assert [p][1..] == [];
    } else {
      assert (ps + [p])[1..] == ps[1..] + [p];
      SpelledMore(ps[1..], p);
    }
  }

  lemma {:induction false} MeaningMore(ps: seq<Piece>, c: char)
    requires AllWellSpelled(ps) && c != '&'
    ensures AllWellSpelled(ps + [Plain(c)])
    ensures Meaning(ps + [Plain(c)]) == if Meaning(ps).Failed? then Meaning(ps) else Text(Meaning(ps).s + [c])
  {
    if ps == [] {
      assert [Plain(c)][1..] == [];
    } else {
      assert (ps + [Plain(c)])[1..] == ps[1..] + [Plain(c)];
      MeaningMore(ps[1..], c);
    }
  }

  lemma LastOfPiece(p: Piece)
    requires WellSpelled(p)
    ensures Spell(p) != "" && (!p.Plain? ==> Spell(p)[|Spell(p)| - 1] == ';') && (p.Plain? ==> Spell(p) == [p.c])
  {
    if p.Named? {
      assert SameLetter(p.w[|p.w| - 1], EntityName(p.k)[|p.w| - 1]);
    }
  }

  /** What ends in a plain character ends in that piece. */
  lemma LastIsPlain(ps: seq<Piece>, w: string, c: char)
    requires AllWellSpelled(ps) && Spelled(ps) == w + [c] && c != ';'
    ensures ps != [] && ps[|ps| - 1] == Plain(c) && Spelled(ps[..|ps| - 1]) == w
  {
    hide Spell, WellSpelled, Spelled;
    NothingSpelled();
    var n := |ps| - 1;
    var front, p := ps[..n], ps[n];
    assert ps == front + [p];
    SpelledMore(front, p);
    LastOfPiece(p);
    var s := w + [c];
    assert s[|w|] == (Spelled(front) + Spell(p))[|w|] == Spell(p)[|Spell(p)| - 1];
    assert s[..|w|] == w;
  }

  lemma NothingSpelled()
    ensures Spelled([]) == ""
  {
  }

  /** A plain character at the end of a text stands for itself. */
  lemma DecodeMore(w: string, c: char)
    requires c != '&' && c != ';' && Decode(w + [c]).Text?
    ensures Decode(w).Text? && Decode(w + [c]) == Text(Decode(w).s + [c])
  {
    hide Spell, Meaning, Spelled, StoreFrom;
    var s := w + [c];
    assert s[0..] == s;
    var ps := PiecesFrom(s, 0);
    LastIsPlain(ps, w, c);
    var front := ps[..|ps| - 1];
    assert ps == front + [Plain(c)];
    MeaningMore(front, c);
    DecodeSpelled(front);
    DecodeSpelled(ps);
  }

  /** A character by its number, in either base, with any number of leading zeros. */
  lemma DecodePrinted(n: nat, x: string, digits: string, zeros: nat)
    requires (x == "" || x == "x" || x == "X") && (digits == DIGITS || digits == CAPITALS)
    ensures Decode("&#" + x + Zeros(zeros) + Printed(n, if x == "" then 10 else 16, digits) + ";")
      == if n <= 255 then Text([n as char]) else Failed(CharacterCodeAbove255)
  {
    hide Value, DigitValue, Decode;
    var base := if x == "" then 10 else 16;
    PrintedValue(n, base, digits, zeros);
    ZerosValue(zeros, base);
    var w := Zeros(zeros) + Printed(n, base, digits);
    var p := Coded(x, w);
    NoX(w, base);
    assert "&#" + x + Zeros(zeros) + Printed(n, base, digits) + ";" == Spell(p);
    assert [p][1..] == [] && Spelled([p]) == Spell(p) + Spelled([p][1..]) == Spell(p);
    DecodeSpelled([p]);
  }

  lemma NoX(w: string, base: nat)
    requires base <= 16 && AllDigits(w, base)
    ensures w != "" ==> w[0] != 'x' && w[0] != 'X'
  {
    if w != "" {
      var v := DigitValue(w[0], base);
      assert w[0] == DIGITS[v] || w[0] == CAPITALS[v];
    }
  }
}
