/**
 The Base64 codec of xmlParser.cpp (XMLParserBase64Tool). Shifts and masks are written as divisions and
 remainders by powers of two.
 */
module Base64 {

  import opened XmlText

  type byte = x: int | 0 <= x < 256

  const FILL := '='

  /** The alphabet of section 4 of RFC 4648. */
  function Letter(v: int): char
    requires 0 <= v < 64
  {
    if v < 26 then 'A' + v as char
    else if v < 52 then 'a' + (v - 26) as char
    else if v < 62 then '0' + (v - 52) as char
    else if v == 62 then '+' else '/'
  }

  /** The decode table: the value of a letter, or 96 for the fill character, 97 space, 98 illegal, 99 end. */
  function Code(c: char): (r: int)
    ensures 0 <= r < 64 || 96 <= r <= 99
  {
    if 'A' <= c <= 'Z' then c as int - 'A' as int
    else if 'a' <= c <= 'z' then c as int - 'a' as int + 26
    else if '0' <= c <= '9' then c as int - '0' as int + 52
    else if c == '+' then 62
    else if c == '/' then 63
    else if c == FILL then 96
    else if c == '\t' || c == '\n' || c == '\r' || c == ' ' then 97
    else if c == '\0' then 99
    else 98
  }

  lemma LetterCode(v: int)
    requires 0 <= v < 64
    ensures Code(Letter(v)) == v && Letter(v) != FILL && Letter(v) != '\n' && Letter(v) != '\0'
  {
  }

  // ---------- Encoding ----------

  /** Three bytes as four letters, most significant bits first. */
  function Quad(a: byte, b: byte, c: byte): string {
    [Letter(a / 4), Letter(a % 4 * 16 + b / 16), Letter(b % 16 * 4 + c / 64), Letter(c % 64)]
  }

  /** The first `k` groups of three bytes; with line breaks, a new line follows every 18 groups. */
  function Groups(x: seq<byte>, k: nat, formatted: bool): string
    requires 3 * k <= |x|
  {
    if k == 0 then ""
    else
      Groups(x, k - 1, formatted) + Quad(x[3 * k - 3], x[3 * k - 2], x[3 * k - 1])
      + if formatted && k % 18 == 0 then "\n" else ""
  }

  /** The last one or two bytes, filled up. */
  function Tail(x: seq<byte>): string {
    var k := |x| / 3;
    if |x| % 3 == 1 then [Letter(x[3 * k] / 4), Letter(x[3 * k] % 4 * 16), FILL, FILL]
    else if |x| % 3 == 2 then
      [Letter(x[3 * k] / 4), Letter(x[3 * k] % 4 * 16 + x[3 * k + 1] / 16), Letter(x[3 * k + 1] % 16 * 4), FILL]
    else ""
  }

  function Encode(x: seq<byte>, formatted: bool): string {
    Groups(x, |x| / 3, formatted) + Tail(x)
  }

  lemma {:induction false} GroupsLength(x: seq<byte>, k: nat, formatted: bool)
    requires 3 * k <= |x|
    ensures |Groups(x, k, formatted)| == 4 * k + if formatted then k / 18 else 0
  {
    if k > 0 {
      GroupsLength(x, k - 1, formatted);
    }
  }

  /** C division of an int, which truncates towards zero. */
  function DivC(a: int, b: int): int
    requires b > 0
  {
    if a >= 0 then a / b else -(-a / b)
  }

  function EncodeLength(inlen: nat, formatted: bool): int {
    DivC(inlen - 1, 3) * 4 + 4 + 1 + if formatted then inlen / 54 else 0
  }

  /** The buffer has exactly the room that is written, but for the empty input, where four places stay unused. */
  lemma EncodeFits(x: seq<byte>, formatted: bool)
    ensures |Encode(x, formatted)| + 1
      == if x == [] then EncodeLength(0, formatted) - 4 else EncodeLength(|x|, formatted)
  {
    GroupsLength(x, |x| / 3, formatted);
    if x != [] {
      LineBreaks(|x|);
    }
  }

  lemma LineBreaks(n: int)
    requires n > 0
    ensures n / 3 / 18 == n / 54
    ensures (n - 1) / 3 * 4 + 4 == 4 * (n / 3) + if n % 3 == 0 then 0 else 4
  {
    var q, r := n / 54, n % 54;
    assert n / 3 == q * 18 + r / 3;
  }

  /** The shifts of the source on three bytes put together. */
  lemma QuadByShifts(a: byte, b: byte, c: byte)
    ensures
      var j := a * 65536 + b * 256 + c;
      && j / 262144 == a / 4 && (j / 4096) % 64 == a % 4 * 16 + b / 16
      && (j / 64) % 64 == b % 16 * 4 + c / 64 && j % 64 == c % 64
  {
    var v0, v1, v2, v3 := a / 4, a % 4 * 16 + b / 16, b % 16 * 4 + c / 64, c % 64;
    DigitsOfQuad(a * 65536 + b * 256 + c, v0, v1, v2, v3);
  }

  lemma DigitsOfQuad(j: int, v0: int, v1: int, v2: int, v3: int)
    requires j == v0 * 262144 + v1 * 4096 + v2 * 64 + v3
    requires 0 <= v1 < 64 && 0 <= v2 < 64 && 0 <= v3 < 64
    ensures j / 262144 == v0 && (j / 4096) % 64 == v1 && (j / 64) % 64 == v2 && j % 64 == v3
  {
    DivideBy64(j, v0 * 4096 + v1 * 64 + v2, v3);
    DivideBy64(j / 64, v0 * 64 + v1, v2);
    DivideBy64(j / 64 / 64, v0, v1);
    Divisions(j);
  }

  lemma DivideBy64(j: int, q: int, r: int)
    requires j == q * 64 + r && 0 <= r < 64
    ensures j / 64 == q && j % 64 == r
  {
  }

  lemma Divisions(j: int)
    ensures j / 4096 == j / 64 / 64 && j / 262144 == j / 64 / 64 / 64 && j / 1024 == j / 16 / 64
  {
  }

  lemma PairByShifts(a: byte, b: byte)
    ensures
      var j := a * 256 + b;
      j / 1024 == a / 4 && (j / 16) % 64 == a % 4 * 16 + b / 16 && (j * 4) % 64 == b % 16 * 4
  {
    DigitsOfPair(a * 256 + b, a / 4, a % 4 * 16 + b / 16, b % 16);
  }

  lemma DigitsOfPair(j: int, v0: int, v1: int, r: int)
    requires j == v0 * 1024 + v1 * 16 + r && 0 <= v1 < 64 && 0 <= r < 16
    ensures j / 1024 == v0 && (j / 16) % 64 == v1 && (j * 4) % 64 == r * 4
  {
    DivideBy64(j * 4, v0 * 64 + v1, r * 4);
    DivideBy16(j, v0 * 64 + v1, r);
    DivideBy64(j / 16, v0, v1);
    Divisions(j);
  }

  lemma DivideBy16(j: int, q: int, r: int)
    requires j == q * 16 + r && 0 <= r < 16
    ensures j / 16 == q
  {
  }

  method PutFour(buf: array<char>, curr: nat, a: char, b: char, c: char, d: char)
    requires curr + 4 <= buf.Length
    modifies buf
    ensures buf[..curr + 4] == old(buf[..curr]) + [a, b, c, d]
  {
    buf[curr], buf[curr + 1], buf[curr + 2], buf[curr + 3] := a, b, c, d;
  }

  /** Three bytes become four characters. */
  method PutQuad(buf: array<char>, curr: nat, a: int, b: int, c: int)
    requires 0 <= a < 256 && 0 <= b < 256 && 0 <= c < 256 && curr + 4 <= buf.Length
    modifies buf
    ensures buf[..curr + 4] == old(buf[..curr]) + Quad(a, b, c)
  {
    var j := a * 65536 + b * 256 + c;
    QuadByShifts(a, b, c);
    PutFour(buf, curr, Letter(j / 262144), Letter(j / 4096 % 64), Letter(j / 64 % 64), Letter(j % 64));
  }

  /** The last one or two bytes. */
  method PutTail(buf: array<char>, curr: nat, x: seq<byte>)
    requires curr + |Tail(x)| <= buf.Length
    modifies buf
    ensures buf[..curr + |Tail(x)|] == old(buf[..curr]) + Tail(x)
  {
    hide Letter;
    var p, rest := |x| / 3 * 3, |x| % 3;
    if rest == 1 {
      var a: int := x[p];
      PutFour(buf, curr, Letter(a / 4), Letter(a * 16 % 64), FILL, FILL);
    } else if rest == 2 {
      var a: int, b: int := x[p], x[p + 1];
      var j := a * 256 + b;
      PairByShifts(x[p], x[p + 1]);
      PutFour(buf, curr, Letter(j / 1024), Letter(j / 16 % 64), Letter(j * 4 % 64), FILL);
    }
  }

  /** XMLParserBase64Tool::encode */
  method EncodeInto(x: seq<byte>, formatted: bool) returns (buf: array<char>)
    ensures fresh(buf) && buf.Length == EncodeLength(|x|, formatted)
    ensures |Encode(x, formatted)| < buf.Length && buf[..|Encode(x, formatted)|] == Encode(x, formatted)
    ensures buf[|Encode(x, formatted)|] == '\0'
  {
    hide Groups, Tail;
    EncodeFits(x, formatted);
    buf := new char[EncodeLength(|x|, formatted)](_ => '\0');
    var curr := EncodeGroups(x, |x| / 3, formatted, buf);
    PutTail(buf, curr, x);
    curr := curr + |Tail(x)|;
    ghost var written := buf[..curr];
    buf[curr] := '\0';
    assert buf[..curr] == written;
  }

  lemma GroupsStep(x: seq<byte>, i: nat, formatted: bool)
    requires 3 * i + 3 <= |x|
    ensures Groups(x, i + 1, formatted) ==
      Groups(x, i, formatted) + Quad(x[3 * i], x[3 * i + 1], x[3 * i + 2])
      + if formatted && (i + 1) % 18 == 0 then "\n" else ""
  {
  }

  /** One group, and a line break when the countdown `k` says so. */
  method EncodeGroup(x: seq<byte>, i: nat, formatted: bool, buf: array<char>, curr: nat, k: int)
    returns (curr': nat, k': int)
    requires 3 * i + 3 <= |x| && curr + 4 < buf.Length && (formatted ==> k == 17 - i % 18)
    requires formatted && k == 0 ==> curr + 5 < buf.Length
    modifies buf
    ensures formatted ==> k' == 17 - (i + 1) % 18
    ensures curr <= curr' < buf.Length
    ensures buf[..curr'] == old(buf[..curr]) + Quad(x[3 * i], x[3 * i + 1], x[3 * i + 2])
      + if formatted && (i + 1) % 18 == 0 then "\n" else ""
  {
    hide Quad;
    QuadLength(x[3 * i], x[3 * i + 1], x[3 * i + 2]);
    Countdown(i);
    PutQuad(buf, curr, x[3 * i], x[3 * i + 1], x[3 * i + 2]);
    curr', k' := curr + 4, k;
    if formatted {
      if k' == 0 {
        ghost var written := buf[..curr'];
        buf[curr'] := '\n';
        assert buf[..curr' + 1] == written + "\n";
        curr' := curr' + 1;
        k' := 18;
      }
      k' := k' - 1;
    }
  }

  /** The loop over the full groups. */
  method EncodeGroups(x: seq<byte>, eLen: nat, formatted: bool, buf: array<char>) returns (curr: nat)
    requires 3 * eLen <= |x| && |Groups(x, eLen, formatted)| < buf.Length
    modifies buf
    ensures curr == |Groups(x, eLen, formatted)| && buf[..curr] == Groups(x, eLen, formatted)
  {
    var i, k: int := 0, 17;
    curr := 0;
    while i < eLen
      invariant 0 <= i <= eLen && (formatted ==> k == 17 - i % 18)
      invariant curr == |Groups(x, i, formatted)| && curr < buf.Length && buf[..curr] == Groups(x, i, formatted)
    {
      hide Groups, Quad;
      GroupsStep(x, i, formatted);
      GroupsGrow(x, i + 1, eLen, formatted);
      QuadLength(x[3 * i], x[3 * i + 1], x[3 * i + 2]);
      Countdown(i);
      curr, k := EncodeGroup(x, i, formatted, buf, curr, k);
      i := i + 1;
    }
  }

  lemma QuadLength(a: byte, b: byte, c: byte)
    ensures |Quad(a, b, c)| == 4
  {
  }

  lemma Countdown(i: nat)
    ensures (i + 1) % 18 == if i % 18 == 17 then 0 else i % 18 + 1
  {
  }

  lemma {:induction false} GroupsGrow(x: seq<byte>, k: nat, n: nat, formatted: bool)
    requires k <= n && 3 * n <= |x|
    ensures |Groups(x, k, formatted)| <= |Groups(x, n, formatted)|
  {
    if k < n {
      GroupsGrow(x, k, n - 1, formatted);
    }
  }

  // ---------- Decoding ----------

  datatype DecodeError = NoError | IllegalCharacter | SizeIsNotMultipleOf4 | TruncatedData | BufferTooSmall

  /** How many characters are letters or fill characters; -1 if one is illegal. */
  function CountCodes(s: string, i: nat): int
    requires i <= |s|
    decreases |s| - i
  {
    if i == |s| || Code(s[i]) == 99 then 0
    else
      var rest := CountCodes(s, i + 1);
      if Code(s[i]) == 98 || rest < 0 then -1 else if Code(s[i]) < 97 then rest + 1 else rest
  }

  /** The fill characters at the end of the first `n` characters. */
  function Fills(s: string, n: nat): nat
    requires n <= |s|
  {
    if n > 0 && s[n - 1] == FILL then Fills(s, n - 1) + 1 else 0
  }

  /** decodeSize without an error: three bytes for four characters. */
  function DecodeSize(s: string): int {
    var size := CountCodes(s, 0);
    if size <= 0 then 0 else (size - Fills(s, |s|)) * 3 / 4
  }

  /** The next code that is no space, and where the one after it is looked for. */
  function NextCode(s: string, i: nat): (r: (int, nat))
    ensures r.1 > i && r.0 != 97 && (0 <= r.0 < 64 || r.0 == 96 || r.0 == 98 || r.0 == 99)
    ensures r.0 != 99 ==> r.1 <= |s|
    decreases |s| - i
  {
    var c := Code(At(s, i));
    if c == 97 then NextCode(s, i + 1) else (c, i + 1)
  }

  /** The result of decode: its return value, the error it reports, and the bytes in the buffer. */
  datatype Decoded64 = Decoded64(status: int, error: DecodeError, bytes: seq<byte>)

  function DecodeFrom(s: string, i: nat, len: nat, out: seq<byte>): Decoded64
    requires |out| <= len
    decreases |s| - i
  {
    var (c, i1) := NextCode(s, i);
    if c == 98 then Decoded64(0, IllegalCharacter, out)
    else if c == 99 then Decoded64(2, NoError, out)
    else if c == 96 then
      if |out| == len then Decoded64(2, NoError, out) else Decoded64(1, TruncatedData, out)
    else
      var (d, i2) := NextCode(s, i1);
      if d == 98 then Decoded64(0, IllegalCharacter, out)
      else if d == 99 || d == 96 then Decoded64(1, TruncatedData, out)
      else if |out| == len then Decoded64(0, BufferTooSmall, out)
      else
        var out1 := out + [c * 4 % 256 + d / 16 % 4];
        var (e, i3) := NextCode(s, i2);
        if e == 98 then Decoded64(0, IllegalCharacter, out1)
        else if e == 99 then Decoded64(1, TruncatedData, out1)
        else if |out1| == len then
          if e == 96 then Decoded64(2, NoError, out1) else Decoded64(0, BufferTooSmall, out1)
        else if e == 96 then Decoded64(1, TruncatedData, out1)
        else
          var out2 := out1 + [d % 16 * 16 + e / 4 % 16];
          var (g, i4) := NextCode(s, i3);
          if g == 98 then Decoded64(0, IllegalCharacter, out2)
          else if g == 99 then Decoded64(1, TruncatedData, out2)
          else if |out2| == len then
            if g == 96 then Decoded64(2, NoError, out2) else Decoded64(0, BufferTooSmall, out2)
          else if g == 96 then Decoded64(1, TruncatedData, out2)
          else DecodeFrom(s, i4, len, out2 + [e % 4 * 64 + g])
  }

  // ---------- The round trip ----------

  lemma {:induction false} GroupsPrefix(x: seq<byte>, k: nat, n: nat, formatted: bool)
    requires k <= n && 3 * n <= |x|
    ensures |Groups(x, k, formatted)| <= |Groups(x, n, formatted)|
    ensures Groups(x, n, formatted)[..|Groups(x, k, formatted)|] == Groups(x, k, formatted)
  {
    if k < n {
      GroupsPrefix(x, k, n - 1, formatted);
    }
  }

  /** Where group `k` starts in the encoded text. */
  function GroupAt(x: seq<byte>, k: nat, formatted: bool): nat
    requires 3 * k <= |x|
  {
    |Groups(x, k, formatted)|
  }

  /** The letters of group `k` in the encoded text, and the line break behind them. */
  lemma GroupStands(x: seq<byte>, k: nat, formatted: bool)
    requires 3 * k + 3 <= |x|
    ensures
      var s, p := Encode(x, formatted), GroupAt(x, k, formatted);
      var q := Quad(x[3 * k], x[3 * k + 1], x[3 * k + 2]);
      && p + 4 <= |s| && s[p] == q[0] && s[p + 1] == q[1] && s[p + 2] == q[2] && s[p + 3] == q[3]
      && GroupAt(x, k + 1, formatted) == (if formatted && (k + 1) % 18 == 0 then p + 5 else p + 4)
      && GroupAt(x, k + 1, formatted) <= |s|
      && (formatted && (k + 1) % 18 == 0 ==> s[p + 4] == '\n')
  {
    hide Quad;
    var q := Quad(x[3 * k], x[3 * k + 1], x[3 * k + 2]);
    QuadLength(x[3 * k], x[3 * k + 1], x[3 * k + 2]);
    GroupsStep(x, k, formatted);
    GroupsPrefix(x, k + 1, |x| / 3, formatted);
    var g, n := Groups(x, k + 1, formatted), Groups(x, |x| / 3, formatted);
    var s, p := Encode(x, formatted), GroupAt(x, k, formatted);
    assert s[..|g|] == n[..|g|] == g;
    forall j | 0 <= j < 4 ensures s[p + j] == q[j] {
      assert s[..|g|][p + j] == g[p + j] == q[j];
    }
    if formatted && (k + 1) % 18 == 0 {
      assert s[..|g|][p + 4] == g[p + 4] == '\n';
    }
  }

  /** A letter is read as its value. */
  lemma NextLetter(s: string, i: nat, v: int)
    requires 0 <= v < 64 && i < |s| && s[i] == Letter(v)
    ensures NextCode(s, i) == (v, i + 1)
  {
    LetterCode(v);
  }

  lemma QuadBytes(a: byte, b: byte, c: byte)
    ensures
      var v0, v1, v2, v3 := a / 4, a % 4 * 16 + b / 16, b % 16 * 4 + c / 64, c % 64;
      && 0 <= v0 < 64 && 0 <= v1 < 64 && 0 <= v2 < 64 && 0 <= v3 < 64
      && v0 * 4 % 256 + v1 / 16 % 4 == a && v1 % 16 * 16 + v2 / 4 % 16 == b && v2 % 4 * 64 + v3 == c
  {
  }

  /** Four letters are read as three bytes. */
  lemma DecodeQuad(s: string, i: nat, len: nat, out: seq<byte>, a: byte, b: byte, c: byte)
    requires i + 4 <= |s| && |out| + 3 <= len
    requires
      var q := Quad(a, b, c);
      s[i] == q[0] && s[i + 1] == q[1] && s[i + 2] == q[2] && s[i + 3] == q[3]
    ensures DecodeFrom(s, i, len, out) == DecodeFrom(s, i + 4, len, out + [a, b, c])
  {
    hide Letter, NextCode;
    QuadBytes(a, b, c);
    NextLetter(s, i, a / 4);
    NextLetter(s, i + 1, a % 4 * 16 + b / 16);
    NextLetter(s, i + 2, b % 16 * 4 + c / 64);
    NextLetter(s, i + 3, c % 64);
    assert out + [a] + [b] + [c] == out + [a, b, c];
  }

  lemma DecodeNewLine(s: string, i: nat, len: nat, out: seq<byte>)
    requires i < |s| && s[i] == '\n' && |out| <= len
    ensures DecodeFrom(s, i, len, out) == DecodeFrom(s, i + 1, len, out)
  {
    hide NextCode;
    SkipNewLine(s, i);
  }

  lemma SkipNewLine(s: string, i: nat)
    requires i < |s| && s[i] == '\n'
    ensures NextCode(s, i) == NextCode(s, i + 1)
  {
  }

  lemma TailStands(x: seq<byte>, formatted: bool)
    ensures
      var s, p := Encode(x, formatted), GroupAt(x, |x| / 3, formatted);
      p + |Tail(x)| == |s| && s[p..] == Tail(x)
  {
  }

  lemma DecodeOne(s: string, i: nat, out: seq<byte>, a: byte)
    requires i + 3 <= |s| && s[i] == Letter(a / 4) && s[i + 1] == Letter(a % 4 * 16) && s[i + 2] == FILL
    ensures DecodeFrom(s, i, |out| + 1, out) == Decoded64(2, NoError, out + [a])
  {
    hide Letter;
    QuadBytes(a, 0, 0);
    NextLetter(s, i, a / 4);
    NextLetter(s, i + 1, a % 4 * 16);
  }

  lemma DecodeTwo(s: string, i: nat, out: seq<byte>, a: byte, b: byte)
    requires i + 4 <= |s| && s[i] == Letter(a / 4) && s[i + 1] == Letter(a % 4 * 16 + b / 16)
    requires s[i + 2] == Letter(b % 16 * 4) && s[i + 3] == FILL
    ensures DecodeFrom(s, i, |out| + 2, out) == Decoded64(2, NoError, out + [a] + [b])
  {
    hide Letter;
    QuadBytes(a, b, 0);
    NextLetter(s, i, a / 4);
    NextLetter(s, i + 1, a % 4 * 16 + b / 16);
    NextLetter(s, i + 2, b % 16 * 4);
  }

  lemma DecodeTail(s: string, i: nat, x: seq<byte>)
    requires i <= |s| && s[i..] == Tail(x)
    ensures DecodeFrom(s, i, |x|, x[..|x| / 3 * 3]) == Decoded64(2, NoError, x)
  {
    hide Letter, NextCode, DecodeFrom;
    var p := |x| / 3 * 3;
    var out := x[..p];
    if |x| % 3 == 0 {
      DecodeNothing(s, i, out);
      assert out == x;
    } else {
      TailLetters(s, i, x);
      if |x| % 3 == 1 {
        DecodeOne(s, i, out, x[p]);
        assert out + [x[p]] == x;
      } else {
        DecodeTwo(s, i, out, x[p], x[p + 1]);
        assert out + [x[p]] + [x[p + 1]] == x;
      }
    }
  }

  lemma TailLetters(s: string, i: nat, x: seq<byte>)
    requires i <= |s| && s[i..] == Tail(x) && |x| % 3 != 0
    ensures i + 4 == |s|
    ensures forall j :: 0 <= j < 4 ==> s[i + j] == Tail(x)[j]
  {
    hide Letter;
    forall j | 0 <= j < 4 ensures s[i + j] == Tail(x)[j] {
      assert s[i..][j] == s[i + j];
    }
  }

  lemma DecodeNothing(s: string, i: nat, out: seq<byte>)
    requires i == |s|
    ensures DecodeFrom(s, i, |out|, out) == Decoded64(2, NoError, out)
  {
  }

  lemma {:induction false} DecodeGroups(x: seq<byte>, formatted: bool, k: nat)
    requires 3 * k <= |x|
    ensures DecodeFrom(Encode(x, formatted), GroupAt(x, k, formatted), |x|, x[..3 * k]) == Decoded64(2, NoError, x)
    decreases |x| - 3 * k
  {
    hide DecodeFrom, Encode, Quad, Tail, GroupAt;
    var s, p := Encode(x, formatted), GroupAt(x, k, formatted);
    if 3 * k + 3 <= |x| {
      GroupStands(x, k, formatted);
      DecodeGroups(x, formatted, k + 1);
      DecodeQuad(s, p, |x|, x[..3 * k], x[3 * k], x[3 * k + 1], x[3 * k + 2]);
      assert x[..3 * k] + [x[3 * k], x[3 * k + 1], x[3 * k + 2]] == x[..3 * (k + 1)];
      if formatted && (k + 1) % 18 == 0 {
        DecodeNewLine(s, p + 4, |x|, x[..3 * (k + 1)]);
      }
    } else {
      TailStands(x, formatted);
      DecodeTail(s, p, x);
    }
  }

  /** Decoding undoes encoding, with and without line breaks, into a buffer of exactly the decoded size. */
  lemma DecodeEncode(x: seq<byte>, formatted: bool)
    ensures DecodeFrom(Encode(x, formatted), 0, |x|, []) == Decoded64(2, NoError, x)
  {
    DecodeGroups(x, formatted, 0);
    assert x[..0] == [];
  }

  lemma {:induction false} CountGroups(x: seq<byte>, formatted: bool, k: nat)
    requires 3 * k <= |x|
    ensures GroupAt(x, k, formatted) <= |Encode(x, formatted)|
    ensures CountCodes(Encode(x, formatted), GroupAt(x, k, formatted)) == 4 * (|x| / 3 - k) + |Tail(x)|
    decreases |x| - 3 * k
  {
    hide Encode, Tail, GroupAt, Letter;
    var s, p := Encode(x, formatted), GroupAt(x, k, formatted);
    if 3 * k + 3 <= |x| {
      GroupStands(x, k, formatted);
      CountGroups(x, formatted, k + 1);
      QuadBytes(x[3 * k], x[3 * k + 1], x[3 * k + 2]);
      LetterCode(x[3 * k] / 4);
      LetterCode(x[3 * k] % 4 * 16 + x[3 * k + 1] / 16);
      LetterCode(x[3 * k + 1] % 16 * 4 + x[3 * k + 2] / 64);
      LetterCode(x[3 * k + 2] % 64);
      CountFour(s, p);
    } else {
      TailStands(x, formatted);
      CountTail(s, p, x);
    }
  }

  lemma CountFour(s: string, p: nat)
    requires p + 4 <= |s| && forall j :: p <= j < p + 4 ==> Code(s[j]) < 97
    ensures
      var rest := CountCodes(s, p + 4);
      CountCodes(s, p) == if rest < 0 then -1 else rest + 4
  {
    assert CountCodes(s, p + 3) == var rest := CountCodes(s, p + 4); if rest < 0 then -1 else rest + 1;
    assert CountCodes(s, p + 2) == var rest := CountCodes(s, p + 3); if rest < 0 then -1 else rest + 1;
    assert CountCodes(s, p + 1) == var rest := CountCodes(s, p + 2); if rest < 0 then -1 else rest + 1;
  }

  lemma CountTail(s: string, p: nat, x: seq<byte>)
    requires p <= |s| && s[p..] == Tail(x)
    ensures CountCodes(s, p) == |Tail(x)|
  {
    var t := Tail(x);
    if t != "" {
      var k := |x| / 3;
      forall j | p <= j < p + 4 ensures Code(s[j]) < 97 {
        assert s[j] == s[p..][j - p];
        TailCode(x, j - p);
      }
      CountFour(s, p);
    }
  }

  lemma TailCode(x: seq<byte>, j: nat)
    requires j < |Tail(x)|
    ensures Code(Tail(x)[j]) < 97
  {
    var k := |x| / 3;
    if |x| % 3 == 1 {
      QuadBytes(x[3 * k], 0, 0);
      LetterCode(x[3 * k] / 4);
      LetterCode(x[3 * k] % 4 * 16);
    } else {
      QuadBytes(x[3 * k], x[3 * k + 1], 0);
      LetterCode(x[3 * k] / 4);
      LetterCode(x[3 * k] % 4 * 16 + x[3 * k + 1] / 16);
      LetterCode(x[3 * k + 1] % 16 * 4);
    }
  }

  lemma FillsOfEncoded(x: seq<byte>, formatted: bool)
    ensures
      var s := Encode(x, formatted);
      Fills(s, |s|) == if |x| % 3 == 1 then 2 else if |x| % 3 == 2 then 1 else 0
  {
    hide Encode, Tail, GroupAt;
    var s := Encode(x, formatted);
    TailStands(x, formatted);
    if |x| % 3 == 0 {
      LastGroup(x, formatted);
    } else {
      TailFills(s, GroupAt(x, |x| / 3, formatted), x);
    }
  }

  lemma FillsTwo(s: string)
    requires |s| >= 3 && s[|s| - 1] == FILL && s[|s| - 2] == FILL && s[|s| - 3] != FILL
    ensures Fills(s, |s|) == 2
  {
    assert Fills(s, |s| - 2) == 0;
    assert Fills(s, |s| - 1) == 1;
  }

  lemma FillsOne(s: string)
    requires |s| >= 2 && s[|s| - 1] == FILL && s[|s| - 2] != FILL
    ensures Fills(s, |s|) == 1
  {
    assert Fills(s, |s| - 1) == 0;
  }

  lemma TailEnds(x: seq<byte>)
    requires |x| % 3 != 0
    ensures
      var t := Tail(x);
      |t| == 4 && t[3] == FILL && t[1] != FILL && (t[2] == FILL <==> |x| % 3 == 1)
  {
    hide Letter;
    var k := |x| / 3;
    if |x| % 3 == 1 {
      QuadBytes(x[3 * k], 0, 0);
      LetterCode(x[3 * k] % 4 * 16);
    } else {
      QuadBytes(x[3 * k], x[3 * k + 1], 0);
      LetterCode(x[3 * k] % 4 * 16 + x[3 * k + 1] / 16);
      LetterCode(x[3 * k + 1] % 16 * 4);
    }
  }

  lemma TailFills(s: string, p: nat, x: seq<byte>)
    requires p <= |s| && s[p..] == Tail(x) && |x| % 3 != 0
    ensures Fills(s, |s|) == if |x| % 3 == 1 then 2 else 1
  {
    hide Letter, Tail, Fills;
    TailLetters(s, p, x);
    TailEnds(x);
    if |x| % 3 == 1 {
      FillsTwo(s);
    } else {
      FillsOne(s);
    }
  }

  lemma LastGroup(x: seq<byte>, formatted: bool)
    requires |x| % 3 == 0
    ensures Fills(Encode(x, formatted), |Encode(x, formatted)|) == 0
  {
    hide Letter;
    var s, k := Encode(x, formatted), |x| / 3;
    assert Tail(x) == "";
    if k > 0 {
      GroupStands(x, k - 1, formatted);
      QuadBytes(x[3 * k - 3], x[3 * k - 2], x[3 * k - 1]);
      LetterCode(x[3 * k - 1] % 64);
    }
  }

  /** decodeSize finds the number of encoded bytes. */
  lemma DecodeSizeEncode(x: seq<byte>, formatted: bool)
    ensures DecodeSize(Encode(x, formatted)) == |x|
  {
    CountGroups(x, formatted, 0);
    FillsOfEncoded(x, formatted);
  }

  // ---------- Spaces ----------

  /** The first `i` characters without spaces. */
  function Stripped(s: string, i: nat): string
    requires i <= |s|
  {
    if i == 0 then "" else Stripped(s, i - 1) + if Code(s[i - 1]) == 97 then "" else [s[i - 1]]
  }

  lemma {:induction false} StrippedPrefix(s: string, i: nat, j: nat)
    requires i <= j <= |s|
    ensures Stripped(s, i) <= Stripped(s, j)
  {
    if i < j {
      StrippedPrefix(s, i, j - 1);
    }
  }

  /** A character that is no space stands behind the stripped characters in front of it. */
  lemma StrippedAt(s: string, i: nat)
    requires i < |s| && Code(s[i]) != 97
    ensures
      var w, p := Stripped(s, |s|), |Stripped(s, i)|;
      p < |w| && w[p] == s[i] && |Stripped(s, i + 1)| == p + 1
  {
    StrippedPrefix(s, i + 1, |s|);
  }

  lemma {:induction false} NextStripped(s: string, i: nat)
    requires i <= |s|
    ensures
      var (c, i'), (d, j') := NextCode(s, i), NextCode(Stripped(s, |s|), |Stripped(s, i)|);
      c == d && (i' <= |s| ==> j' == |Stripped(s, i')|)
    decreases |s| - i
  {
    hide Code;
    if i == |s| {
      CodeOfNul();
    } else if Code(s[i]) == 97 {
      NextStripped(s, i + 1);
    } else {
      StrippedAt(s, i);
    }
  }

  lemma CodeOfNul()
    ensures Code('\0') == 99
  {
  }

  /** Spaces and line breaks do not matter to decode, whatever the text is, and also when it reports an error. */
  lemma {:induction false} DecodeStripped(s: string, i: nat, len: nat, out: seq<byte>)
    requires i <= |s| && |out| <= len
    ensures DecodeFrom(s, i, len, out) == DecodeFrom(Stripped(s, |s|), |Stripped(s, i)|, len, out)
    decreases |s| - i
  {
    hide NextCode, Stripped;
    var (c, i1) := NextCode(s, i);
    NextStripped(s, i);
    if c < 64 {
      var (d, i2) := NextCode(s, i1);
      NextStripped(s, i1);
      if d < 64 && |out| < len {
        var (e, i3) := NextCode(s, i2);
        NextStripped(s, i2);
        if e < 64 && |out| + 1 < len {
          var (g, i4) := NextCode(s, i3);
          NextStripped(s, i3);
          if g < 64 && |out| + 2 < len {
            DecodeStripped(s, i4, len,
              out + [c * 4 % 256 + d / 16 % 4] + [d % 16 * 16 + e / 4 % 16] + [e % 4 * 64 + g]);
          }
        }
      }
    }
  }

  // ---------- Decoding step by step ----------

  /**
   XMLParserBase64Tool::decodeSize: the size, and the error that it reports. The search from the end for a character
   that is no fill character stays `inside` the text exactly if there is one, or nothing is counted at all.
   */
  method DecodeSizeOf(s: string) returns (size: int, error: DecodeError, inside: bool)
    requires '\0' !in s
    ensures inside <==> (CountCodes(s, 0) <= 0 || Fills(s, |s|) < |s|)
    ensures inside ==> size == DecodeSize(s)
    ensures error == if CountCodes(s, 0) < 0 then IllegalCharacter
                     else if CountCodes(s, 0) % 4 != 0 then SizeIsNotMultipleOf4 else NoError
  {
    error, inside := NoError, true;
    size := 0;
    var i := 0;
    while i < |s|
      invariant 0 <= i <= |s| && size >= 0
      invariant CountCodes(s, 0) == if CountCodes(s, i) < 0 then -1 else size + CountCodes(s, i)
    {
      assert s[i] in s;
      var c := Code(s[i]);
      if c < 97 {
        size := size + 1;
      } else if c == 98 {
        return 0, IllegalCharacter, true;
      }
      i := i + 1;
    }
    if size % 4 != 0 {
      error := SizeIsNotMultipleOf4;
    }
    if size == 0 {
      return;
    }
    ghost var all := size;
    i, size := i - 1, size - 1;
    while i >= 0 && s[i] == FILL
      invariant -1 <= i < |s| && all - Fills(s, |s|) == size + 1 - Fills(s, i + 1)
      invariant Fills(s, |s|) == |s| - (i + 1) + Fills(s, i + 1)
    {
      i, size := i - 1, size - 1;
    }
    inside := i >= 0;
    size := (size + 1) * 3 / 4;
  }

  method ReadNextCode(s: string, i: nat) returns (c: int, i': nat)
    ensures (c, i') == NextCode(s, i)
  {
    i' := i;
    while true
      invariant NextCode(s, i) == NextCode(s, i')
      decreases |s| - i'
    {
      c := Code(At(s, i'));
      i' := i' + 1;
      if c != 97 {
        return;
      }
    }
  }

  method PutByte(buf: array<byte>, p: nat, v: int)
    requires p < buf.Length && 0 <= v < 256
    modifies buf
    ensures buf[..p + 1] == old(buf[..p]) + [v]
  {
    buf[p] := v;
  }

  /** One round of the loop of decode: four characters, or fewer at the end or at an error. */
  method DecodeRound(s: string, i: nat, buf: array<byte>, p: nat)
    returns (stop: bool, status: int, error: DecodeError, i': nat, p': nat)
    requires p <= buf.Length
    modifies buf
    ensures p <= p' <= buf.Length
    ensures stop ==> Decoded64(status, error, buf[..p']) == DecodeFrom(s, i, buf.Length, old(buf[..p]))
    ensures !stop ==>
      i < i' <= |s| && DecodeFrom(s, i', buf.Length, buf[..p']) == DecodeFrom(s, i, buf.Length, old(buf[..p]))
  {
    hide NextCode;
    var len := buf.Length;
    var c, d, e, g, i1, i2, i3;
    c, i1 := ReadNextCode(s, i);
    if c == 98 {
      return true, 0, IllegalCharacter, i1, p;
    }
    if c == 99 {
      return true, 2, NoError, i1, p;
    }
    if c == 96 {
      if p == len {
        return true, 2, NoError, i1, p;
      }
      return true, 1, TruncatedData, i1, p;
    }
    d, i2 := ReadNextCode(s, i1);
    if d == 98 {
      return true, 0, IllegalCharacter, i2, p;
    }
    if d == 99 || d == 96 {
      return true, 1, TruncatedData, i2, p;
    }
    if p == len {
      return true, 0, BufferTooSmall, i2, p;
    }
    PutByte(buf, p, c * 4 % 256 + d / 16 % 4);
    e, i3 := ReadNextCode(s, i2);
    if e == 98 {
      return true, 0, IllegalCharacter, i3, p + 1;
    }
    if e == 99 {
      return true, 1, TruncatedData, i3, p + 1;
    }
    if p + 1 == len {
      if e == 96 {
        return true, 2, NoError, i3, p + 1;
      }
      return true, 0, BufferTooSmall, i3, p + 1;
    }
    if e == 96 {
      return true, 1, TruncatedData, i3, p + 1;
    }
    PutByte(buf, p + 1, d % 16 * 16 + e / 4 % 16);
    g, i' := ReadNextCode(s, i3);
    if g == 98 {
      return true, 0, IllegalCharacter, i', p + 2;
    }
    if g == 99 {
      return true, 1, TruncatedData, i', p + 2;
    }
    if p + 2 == len {
      if g == 96 {
        return true, 2, NoError, i', p + 2;
      }
      return true, 0, BufferTooSmall, i', p + 2;
    }
    if g == 96 {
      return true, 1, TruncatedData, i', p + 2;
    }
    PutByte(buf, p + 2, e % 4 * 64 + g);
    return false, 0, NoError, i', p + 3;
  }

  /** XMLParserBase64Tool::decode: the bytes are the first `p` places of the buffer. */
  method DecodeInto(s: string, buf: array<byte>) returns (status: int, error: DecodeError, p: nat)
    modifies buf
    ensures p <= buf.Length
    ensures Decoded64(status, error, buf[..p]) == DecodeFrom(s, 0, buf.Length, [])
  {
    p := 0;
    var i := 0;
    var stop := false;
    status, error := 0, NoError;
    assert buf[..0] == [];
    while !stop
      invariant p <= buf.Length && (i <= |s| || stop)
      invariant if stop then Decoded64(status, error, buf[..p]) == DecodeFrom(s, 0, buf.Length, [])
                else DecodeFrom(s, i, buf.Length, buf[..p]) == DecodeFrom(s, 0, buf.Length, [])
      decreases !stop, |s| - i
    {
      hide DecodeFrom;
      stop, status, error, i, p := DecodeRound(s, i, buf, p);
    }
  }
}
