/**
 What the Base64 decoder of xmlParser.cpp makes of any text: blanks are dropped, the letters up to the first character
 that is none give eight bits out of every six of them, and that character and the room decide the result.
 */
module Base64Reading {

  import opened XmlText
  import opened Base64

  /** Table 1 of RFC 4648. */
  const CAPITALS := "ABCDEFGHIJKLMNOPQRSTUVWXYZ"
  const SMALL := "abcdefghijklmnopqrstuvwxyz"
  const ALPHABET: string := CAPITALS + SMALL + "0123456789+/"

  predicate IsBlank(c: char) {
    c == ' ' || c == '\t' || c == '\n' || c == '\r'
  }

  /** The place of a character in the alphabet from `v` on, or 64. */
  function IndexFrom(c: char, v: nat): (r: nat)
    requires v <= 64 == |ALPHABET|
    ensures v <= r <= 64 && (r < 64 ==> ALPHABET[r] == c) && forall u :: v <= u < r ==> ALPHABET[u] != c
    decreases 64 - v
  {
    if v == 64 || ALPHABET[v] == c then v else IndexFrom(c, v + 1)
  }

  lemma CapitalIs(v: nat)
    requires v < 26
    ensures |CAPITALS| == 26 && CAPITALS[v] == 'A' + v as char
  {
  }

  lemma SmallIs(v: nat)
    requires v < 26
    ensures |SMALL| == 26 && SMALL[v] == 'a' + v as char
  {
  }

  lemma LetterIs(v: nat)
    requires v < 64
    ensures |ALPHABET| == 64 && Letter(v) == ALPHABET[v]
  {
    if v < 26 {
      CapitalIs(v);
    } else if v < 52 {
      SmallIs(v - 26);
      assert ALPHABET[v] == SMALL[v - 26];
    } else {
      assert ALPHABET[v] == "0123456789+/"[v - 52];
    }
  }

  /** The letter of each value, and the value of each letter, are those of the alphabet. */
  lemma AlphabetOf(v: nat)
    requires v < 64
    ensures |ALPHABET| == 64 && Letter(v) == ALPHABET[v] && Code(ALPHABET[v]) == v
  {
    LetterIs(v);
    LetterCode(v);
  }

  lemma CodeIsLetter(c: char)
    ensures Code(c) < 64 ==> Letter(Code(c)) == c
    ensures Code(c) == 96 <==> c == '='
    ensures Code(c) == 97 <==> IsBlank(c)
    ensures Code(c) == 99 <==> c == '\0'
  {
  }

  lemma CodeIs(c: char)
    ensures |ALPHABET| == 64 && (Code(c) < 64 <==> IndexFrom(c, 0) < 64)
    ensures Code(c) < 64 ==> Code(c) == IndexFrom(c, 0)
  {
    hide Code, Letter;
    CodeIsLetter(c);
    if Code(c) < 64 {
      AlphabetOf(Code(c));
    }
    var v := IndexFrom(c, 0);
    if v < 64 {
      AlphabetOf(v);
    }
  }

  // ---------- What a text is for the decoder ----------

  /** The text without blanks. */
  function Cleaned(s: string): string {
    if s == "" then "" else (if IsBlank(s[0]) then "" else [s[0]]) + Cleaned(s[1..])
  }

  /** The values of the letters in front of the first character that is none. */
  function Letters(w: string): (v: seq<nat>)
    requires |ALPHABET| == 64
    ensures |v| <= |w|
  {
    if w == "" || IndexFrom(w[0], 0) == 64 then [] else [IndexFrom(w[0], 0)] + Letters(w[1..])
  }

  /** That character, or NUL at the end. */
  function Stop(w: string): char
    requires |ALPHABET| == 64
  {
    if |Letters(w)| == |w| then '\0' else w[|Letters(w)|]
  }

  /** How many bytes are full with `n` letters. */
  function Full(n: nat): nat {
    n / 4 * 3 + if n % 4 == 0 then 0 else n % 4 - 1
  }

  /** Byte `k`: eight of the twelve bits of two letters. */
  function ByteAt(v: seq<nat>, k: nat): byte
    requires k / 3 * 4 + k % 3 + 1 < |v|
  {
    var i := k / 3 * 4 + k % 3;
    (v[i] * 64 + v[i + 1]) / (if k % 3 == 0 then 16 else if k % 3 == 1 then 4 else 1) % 256
  }

  lemma FullLetters(k: nat, n: nat)
    requires k < Full(n)
    ensures k / 3 * 4 + k % 3 + 1 < n
  {
  }

  function BytesOf(v: seq<nat>): (b: seq<byte>)
    ensures |b| == Full(|v|)
    ensures forall k :: 0 <= k < Full(|v|) ==> k / 3 * 4 + k % 3 + 1 < |v| && b[k] == ByteAt(v, k)
  {
    seq(Full(|v|), k requires 0 <= k < Full(|v|) => FullLetters(k, |v|); ByteAt(v, k))
  }

  /** The result: the room decides first, then the character behind the letters. */
  predicate Decodes(v: seq<nat>, stop: char, len: nat, r: Decoded64) {
    if Full(|v|) > len then r.status == 0 && r.error == BufferTooSmall && r.bytes == BytesOf(v)[..len]
    else
      && r.bytes == BytesOf(v)
      && if stop != '\0' && stop != '=' then r.status == 0 && r.error == IllegalCharacter
         else if (stop == '\0' && |v| % 4 == 0) || (stop == '=' && |v| % 4 != 1 && Full(|v|) == len) then
           r.status == 2 && r.error == NoError
         else r.status == 1 && r.error == TruncatedData
  }

  // ---------- And what it does ----------

  predicate NoBlank(w: string) {
    forall j :: 0 <= j < |w| ==> !IsBlank(w[j]) && w[j] != '\0'
  }

  lemma {:induction false} LettersAt(w: string, i: nat)
    requires |ALPHABET| == 64 && NoBlank(w)
    ensures i < |Letters(w)| ==> Letters(w)[i] == Code(w[i]) < 64
    ensures i == |Letters(w)| ==> Code(At(w, i)) >= 96 && Code(At(w, i)) != 97 && At(w, i) == Stop(w)
    decreases |w|
  {
    hide Code, IndexFrom;
    if w == "" {
      CodeIsLetter('\0');
    } else {
      CodeIs(w[0]);
      CodeIsLetter(w[0]);
      if i > 0 && IndexFrom(w[0], 0) < 64 {
        assert NoBlank(w[1..]);
        LettersAt(w[1..], i - 1);
      }
    }
  }

  lemma NextOf(w: string, i: nat)
    requires NoBlank(w)
    ensures NextCode(w, i) == (Code(At(w, i)), i + 1)
  {
    hide Code;
    CodeIsLetter(At(w, i));
  }

  lemma OneByte(v: seq<nat>, k: nat, r: nat)
    requires r < 3 && 4 * k + r + 1 < |v|
    ensures 3 * k + r < Full(|v|)
    ensures BytesOf(v)[3 * k + r] ==
      (v[4 * k + r] * 64 + v[4 * k + r + 1]) / (if r == 0 then 16 else if r == 1 then 4 else 1) % 256
  {
    assert (3 * k + r) / 3 == k && (3 * k + r) % 3 == r;
  }

  /** The bytes of group `k`, as far as its letters go. */
  lemma FirstByte(v: seq<nat>, k: nat)
    requires 4 * k + 1 < |v| && v[4 * k] < 64 && v[4 * k + 1] < 64
    ensures 3 * k < Full(|v|) && BytesOf(v)[3 * k] == v[4 * k] * 4 % 256 + v[4 * k + 1] / 16 % 4
  {
    OneByte(v, k, 0);
    FirstBits(v[4 * k], v[4 * k + 1]);
  }

  lemma SecondByte(v: seq<nat>, k: nat)
    requires 4 * k + 2 < |v| && v[4 * k + 1] < 64 && v[4 * k + 2] < 64
    ensures 3 * k + 1 < Full(|v|) && BytesOf(v)[3 * k + 1] == v[4 * k + 1] % 16 * 16 + v[4 * k + 2] / 4 % 16
  {
    OneByte(v, k, 1);
    SecondBits(v[4 * k + 1], v[4 * k + 2]);
  }

  lemma ThirdByte(v: seq<nat>, k: nat)
    requires 4 * k + 3 < |v| && v[4 * k + 2] < 64 && v[4 * k + 3] < 64
    ensures 3 * k + 2 < Full(|v|) && BytesOf(v)[3 * k + 2] == v[4 * k + 2] % 4 * 64 + v[4 * k + 3]
  {
    OneByte(v, k, 2);
    ThirdBits(v[4 * k + 2], v[4 * k + 3]);
  }

  lemma DivideBy(x: int, q: int, r: int, d: int)
    requires (d == 4 || d == 16 || d == 256) && x == q * d + r && 0 <= r < d
    ensures x / d == q && x % d == r
  {
  }

  lemma FirstBits(c: nat, d: nat)
    requires c < 64 && d < 64
    ensures (c * 64 + d) / 16 % 256 == c * 4 % 256 + d / 16 % 4
  {
    DivideBy(c * 64 + d, c * 4 + d / 16, d % 16, 16);
  }

  lemma SecondBits(c: nat, d: nat)
    requires c < 64 && d < 64
    ensures (c * 64 + d) / 4 % 256 == c % 16 * 16 + d / 4 % 16
  {
    DivideBy(c * 64 + d, c * 16 + d / 4, d % 4, 4);
    DivideBy(c * 16 + d / 4, c / 16, c % 16 * 16 + d / 4, 256);
  }

  lemma ThirdBits(c: nat, d: nat)
    requires c < 64 && d < 64
    ensures (c * 64 + d) / 1 % 256 == c % 4 * 64 + d
  {
    DivideBy(c * 64 + d, c / 4, c % 4 * 64 + d, 256);
  }

  lemma {:induction false} LettersBelow64(w: string)
    requires |ALPHABET| == 64
    ensures forall i :: 0 <= i < |Letters(w)| ==> Letters(w)[i] < 64
  {
    if w != "" {
      LettersBelow64(w[1..]);
    }
  }

  function StopCode(c: char): int {
    if c == '\0' then 99 else if c == '=' then 96 else 98
  }

  lemma CodeAt(w: string, i: nat)
    requires |ALPHABET| == 64 && NoBlank(w) && i <= |Letters(w)|
    ensures NextCode(w, i) == (if i < |Letters(w)| then Letters(w)[i] else StopCode(Stop(w)), i + 1)
    ensures i < |Letters(w)| ==> Letters(w)[i] < 64
  {
    hide Code, Letters, Stop, NextCode;
    LettersAt(w, i);
    NextOf(w, i);
    CodeIsLetter(At(w, i));
  }

  /** The bytes up to one that is full. */
  lemma OneMoreByte(v: seq<nat>, b: nat)
    requires b < Full(|v|)
    ensures BytesOf(v)[..b + 1] == BytesOf(v)[..b] + [BytesOf(v)[b]]
  {
  }

  lemma FullIs(k: nat, n: nat)
    requires 4 * k <= n
    ensures n < 4 * k + 4 ==> Full(n) == 3 * k + (if n <= 4 * k + 1 then 0 else n - 4 * k - 1) && n % 4 == n - 4 * k
    ensures n >= 4 * k + 4 ==> Full(n) >= 3 * k + 3
  {
    if n < 4 * k + 4 {
      assert n / 4 == k && n % 4 == n - 4 * k;
    } else {
      assert n / 4 >= k + 1;
    }
  }

  /** The end behind `r` letters of a group. */
  function Ended(stop: int, r: nat, full: bool, out: seq<byte>): Decoded64 {
    if stop == 98 then Decoded64(0, IllegalCharacter, out)
    else if (stop == 99 && r == 0) || (stop == 96 && r != 1 && full) then Decoded64(2, NoError, out)
    else Decoded64(1, TruncatedData, out)
  }

  predicate IsStop(c: int) {
    c == 96 || c == 98 || c == 99
  }

  lemma EndedFirst(w: string, i: nat, len: nat, out: seq<byte>, c: int, d: int)
    requires |out| <= len && NextCode(w, i) == (c, i + 1)
    ensures IsStop(c) ==> DecodeFrom(w, i, len, out) == Ended(c, 0, |out| == len, out)
    ensures 0 <= c < 64 && NextCode(w, i + 1) == (d, i + 2) && IsStop(d)
      ==> DecodeFrom(w, i, len, out) == Ended(d, 1, |out| == len, out)
    ensures 0 <= c < 64 && NextCode(w, i + 1) == (d, i + 2) && 0 <= d < 64 && |out| == len
      ==> DecodeFrom(w, i, len, out) == Decoded64(0, BufferTooSmall, out)
  {
  }

  lemma EndedSecond(w: string, i: nat, len: nat, out: seq<byte>, c: int, d: int, e: int)
    requires |out| < len && NextCode(w, i) == (c, i + 1) && NextCode(w, i + 1) == (d, i + 2)
    requires 0 <= c < 64 && 0 <= d < 64 && NextCode(w, i + 2) == (e, i + 3)
    ensures
      var out1 := out + [c * 4 % 256 + d / 16 % 4];
      && (IsStop(e) ==> DecodeFrom(w, i, len, out) == Ended(e, 2, |out1| == len, out1))
      && (0 <= e < 64 && |out1| == len ==> DecodeFrom(w, i, len, out) == Decoded64(0, BufferTooSmall, out1))
  {
  }

  /** The two bytes that the first three letters of a group give. */
  function TwoBytes(c: int, d: int, e: int): seq<byte>
    requires 0 <= c < 64 && 0 <= d < 64 && 0 <= e < 64
  {
    [c * 4 % 256 + d / 16 % 4, d % 16 * 16 + e / 4 % 16]
  }

  lemma EndedThird(w: string, i: nat, len: nat, out: seq<byte>, c: int, d: int, e: int, g: int)
    requires |out| + 1 < len && NextCode(w, i) == (c, i + 1) && NextCode(w, i + 1) == (d, i + 2)
    requires 0 <= c < 64 && 0 <= d < 64 && 0 <= e < 64 && NextCode(w, i + 2) == (e, i + 3)
    requires NextCode(w, i + 3) == (g, i + 4)
    ensures
      var out2 := out + TwoBytes(c, d, e);
      && (IsStop(g) ==> DecodeFrom(w, i, len, out) == Ended(g, 3, |out2| == len, out2))
      && (0 <= g < 64 && |out2| == len ==> DecodeFrom(w, i, len, out) == Decoded64(0, BufferTooSmall, out2))
  {
    assert out + TwoBytes(c, d, e) == out + [TwoBytes(c, d, e)[0]] + [TwoBytes(c, d, e)[1]];
  }

  lemma EndedDecodes(v: seq<nat>, stop: char, len: nat, k: nat)
    requires 4 * k <= |v| < 4 * k + 4 && Full(|v|) <= len
    ensures BytesOf(v)[..Full(|v|)] == BytesOf(v)
    ensures Decodes(v, stop, len, Ended(StopCode(stop), |v| - 4 * k, Full(|v|) == len, BytesOf(v)))
  {
    hide BytesOf, Full;
    FullIs(k, |v|);
  }

  lemma SmallDecodes(v: seq<nat>, stop: char, len: nat)
    requires Full(|v|) > len
    ensures Decodes(v, stop, len, Decoded64(0, BufferTooSmall, BytesOf(v)[..len]))
  {
  }

  // What is left when there are no four letters more, or no room for three bytes.

  lemma LastFirst(w: string, k: nat, len: nat)
    requires |ALPHABET| == 64 && NoBlank(w) && 4 * k <= |Letters(w)| && 3 * k <= len && 3 * k <= Full(|Letters(w)|)
    requires |Letters(w)| < 4 * k + 2 || len == 3 * k
    ensures Decodes(Letters(w), Stop(w), len, DecodeFrom(w, 4 * k, len, BytesOf(Letters(w))[..3 * k]))
  {
    hide Code, BytesOf, Letters, Stop, NextCode, NoBlank, Full, StopCode, DecodeFrom, Decodes, Ended;
    var v, i := Letters(w), 4 * k;
    FullIs(k, |v|);
    CodeAt(w, i);
    StopCodes(Stop(w));
    if |v| > i {
      CodeAt(w, i + 1);
    }
    EndedFirst(w, i, len, BytesOf(v)[..3 * k], NextCode(w, i).0, NextCode(w, i + 1).0);
    if |v| < i + 2 {
      EndedDecodes(v, Stop(w), len, k);
    } else {
      FirstByte(v, k);
      SmallDecodes(v, Stop(w), len);
    }
  }

  lemma LastSecond(w: string, k: nat, len: nat)
    requires |ALPHABET| == 64 && NoBlank(w) && 4 * k <= |Letters(w)| && 3 * k <= len && 3 * k <= Full(|Letters(w)|)
    requires |Letters(w)| == 4 * k + 2 || (|Letters(w)| > 4 * k + 2 && len == 3 * k + 1)
    requires len > 3 * k
    ensures Decodes(Letters(w), Stop(w), len, DecodeFrom(w, 4 * k, len, BytesOf(Letters(w))[..3 * k]))
  {
    hide Code, BytesOf, Letters, Stop, NextCode, NoBlank, Full, StopCode, DecodeFrom, Decodes, Ended;
    var v, i := Letters(w), 4 * k;
    FullIs(k, |v|);
    CodeAt(w, i);
    CodeAt(w, i + 1);
    CodeAt(w, i + 2);
    StopCodes(Stop(w));
    FirstByte(v, k);
    OneMoreByte(v, 3 * k);
    EndedSecond(w, i, len, BytesOf(v)[..3 * k], v[i], v[i + 1], NextCode(w, i + 2).0);
    if |v| == i + 2 {
      EndedDecodes(v, Stop(w), len, k);
    } else {
      SecondByte(v, k);
      SmallDecodes(v, Stop(w), len);
    }
  }

  lemma TwoMoreBytes(v: seq<nat>, k: nat)
    requires 4 * k + 3 <= |v| && 3 * k + 2 <= Full(|v|) && forall j :: 4 * k <= j < 4 * k + 3 ==> v[j] < 64
    ensures BytesOf(v)[..3 * k + 2] == BytesOf(v)[..3 * k] + TwoBytes(v[4 * k], v[4 * k + 1], v[4 * k + 2])
  {
    hide BytesOf, Full;
    FirstByte(v, k);
    SecondByte(v, k);
    OneMoreByte(v, 3 * k);
    OneMoreByte(v, 3 * k + 1);
    assert TwoBytes(v[4 * k], v[4 * k + 1], v[4 * k + 2]) == [BytesOf(v)[3 * k]] + [BytesOf(v)[3 * k + 1]];
  }

  lemma LastThird(w: string, k: nat, len: nat)
    requires |ALPHABET| == 64 && NoBlank(w) && 4 * k <= |Letters(w)| && 3 * k <= len && 3 * k <= Full(|Letters(w)|)
    requires |Letters(w)| == 4 * k + 3 || (|Letters(w)| > 4 * k + 3 && len == 3 * k + 2)
    requires len > 3 * k + 1
    ensures Decodes(Letters(w), Stop(w), len, DecodeFrom(w, 4 * k, len, BytesOf(Letters(w))[..3 * k]))
  {
    hide Code, BytesOf, Letters, Stop, NextCode, NoBlank, Full, StopCode, DecodeFrom, Decodes, Ended;
    var v, i := Letters(w), 4 * k;
    FullIs(k, |v|);
    CodeAt(w, i);
    CodeAt(w, i + 1);
    CodeAt(w, i + 2);
    CodeAt(w, i + 3);
    StopCodes(Stop(w));
    TwoMoreBytes(v, k);
    EndedThird(w, i, len, BytesOf(v)[..3 * k], v[i], v[i + 1], v[i + 2], NextCode(w, i + 3).0);
    if |v| == i + 3 {
      EndedDecodes(v, Stop(w), len, k);
    } else {
      SmallDecodes(v, Stop(w), len);
    }
  }

  lemma StopCodes(c: char)
    ensures StopCode(c) == 96 || StopCode(c) == 98 || StopCode(c) == 99
    ensures StopCode(c) == 99 <==> c == '\0'
    ensures StopCode(c) == 96 <==> c == '='
  {
  }

  /** The three bytes that four letters give. */
  function ThreeBytes(c: int, d: int, e: int, g: int): seq<byte>
    requires 0 <= c < 64 && 0 <= d < 64 && 0 <= e < 64 && 0 <= g < 64
  {
    TwoBytes(c, d, e) + [e % 4 * 64 + g]
  }

  lemma GoesOnTo(w: string, i: nat, len: nat, out: seq<byte>, c: int, d: int, e: int, g: int)
    requires |out| + 3 <= len && NextCode(w, i) == (c, i + 1) && NextCode(w, i + 1) == (d, i + 2)
    requires 0 <= c < 64 && 0 <= d < 64 && 0 <= e < 64 && NextCode(w, i + 2) == (e, i + 3)
    requires 0 <= g < 64 && NextCode(w, i + 3) == (g, i + 4)
    ensures DecodeFrom(w, i, len, out) == DecodeFrom(w, i + 4, len,
      out + [c * 4 % 256 + d / 16 % 4] + [d % 16 * 16 + e / 4 % 16] + [e % 4 * 64 + g])
  {
    hide NextCode;
  }

  lemma GoesOn(w: string, i: nat, len: nat, out: seq<byte>, c: int, d: int, e: int, g: int)
    requires |out| + 3 <= len && NextCode(w, i) == (c, i + 1) && NextCode(w, i + 1) == (d, i + 2)
    requires 0 <= c < 64 && 0 <= d < 64 && 0 <= e < 64 && NextCode(w, i + 2) == (e, i + 3)
    requires 0 <= g < 64 && NextCode(w, i + 3) == (g, i + 4)
    ensures DecodeFrom(w, i, len, out) == DecodeFrom(w, i + 4, len, out + ThreeBytes(c, d, e, g))
  {
    hide DecodeFrom, NextCode;
    GoesOnTo(w, i, len, out, c, d, e, g);
    Appended(out, TwoBytes(c, d, e)[0], TwoBytes(c, d, e)[1], ThreeBytes(c, d, e, g)[2]);
  }

  lemma Appended(out: seq<byte>, a: byte, b: byte, c: byte)
    ensures out + [a] + [b] + [c] == out + ([a, b] + [c])
  {
  }

  lemma ThreeMoreBytes(v: seq<nat>, k: nat)
    requires 4 * k + 4 <= |v| && 3 * k + 3 <= Full(|v|) && forall j :: 4 * k <= j < 4 * k + 4 ==> v[j] < 64
    ensures BytesOf(v)[..3 * k + 3]
      == BytesOf(v)[..3 * k] + ThreeBytes(v[4 * k], v[4 * k + 1], v[4 * k + 2], v[4 * k + 3])
  {
    hide BytesOf, Full, TwoBytes;
    TwoMoreBytes(v, k);
    ThirdByte(v, k);
    OneMoreByte(v, 3 * k + 2);
  }

  /** A whole group, with room for its bytes. */
  lemma WholeGroup(w: string, k: nat, len: nat)
    requires |ALPHABET| == 64 && NoBlank(w) && 4 * k + 4 <= |Letters(w)| && 3 * k + 3 <= len
    requires 3 * k + 3 <= Full(|Letters(w)|)
    ensures DecodeFrom(w, 4 * k, len, BytesOf(Letters(w))[..3 * k])
      == DecodeFrom(w, 4 * k + 4, len, BytesOf(Letters(w))[..3 * k + 3])
  {
    hide Code, BytesOf, Letters, Stop, NextCode, NoBlank, Full, DecodeFrom, ThreeBytes;
    var v, i := Letters(w), 4 * k;
    CodeAt(w, i);
    CodeAt(w, i + 1);
    CodeAt(w, i + 2);
    CodeAt(w, i + 3);
    ThreeMoreBytes(v, k);
    GoesOn(w, i, len, BytesOf(v)[..3 * k], v[i], v[i + 1], v[i + 2], v[i + 3]);
  }

  /** Group by group, from the first letter of group `k` on. */
  lemma {:induction false} GroupsDecode(w: string, k: nat, len: nat)
    requires |ALPHABET| == 64 && NoBlank(w) && 4 * k <= |Letters(w)| && 3 * k <= len && 3 * k <= Full(|Letters(w)|)
    ensures Decodes(Letters(w), Stop(w), len, DecodeFrom(w, 4 * k, len, BytesOf(Letters(w))[..3 * k]))
    decreases |Letters(w)| - 4 * k
  {
    hide Code, BytesOf, Letters, Stop, NextCode, NoBlank, Full, Decodes, DecodeFrom;
    var v, i := Letters(w), 4 * k;
    if i + 4 <= |v| && 3 * k + 3 <= len {
      FullIs(k, |v|);
      WholeGroup(w, k, len);
      GroupsDecode(w, k + 1, len);
    } else if |v| < i + 2 || len == 3 * k {
      LastFirst(w, k, len);
    } else if |v| == i + 2 || len == 3 * k + 1 {
      LastSecond(w, k, len);
    } else {
      LastThird(w, k, len);
    }
  }

  // ---------- Blanks ----------

  lemma {:induction false} CleanedIsStripped(s: string, i: nat)
    requires i <= |s|
    ensures Stripped(s, i) + Cleaned(s[i..]) == Stripped(s, |s|)
    decreases |s| - i
  {
    hide Code;
    if i < |s| {
      CodeIsLetter(s[i]);
      CleanedIsStripped(s, i + 1);
      assert s[i..][1..] == s[i + 1..] && s[i..][0] == s[i];
      assert Stripped(s, i) + [s[i]] + Cleaned(s[i + 1..]) == Stripped(s, i) + ([s[i]] + Cleaned(s[i + 1..]));
    }
  }

  lemma {:induction false} CleanedHasNone(s: string)
    requires '\0' !in s
    ensures NoBlank(Cleaned(s))
  {
    if s != "" {
      assert s[0] in s && forall c :: c in s[1..] ==> c in s;
      CleanedHasNone(s[1..]);
    }
  }

  /**
   The decoder on every text and every buffer: it drops the blanks, and the letters in front of the first other
   character give the bytes; the room, and then that character, decide what it reports.
   */
  lemma DecodeExactly(s: string, len: nat)
    requires '\0' !in s
    ensures |ALPHABET| == 64
    ensures Decodes(Letters(Cleaned(s)), Stop(Cleaned(s)), len, DecodeFrom(s, 0, len, []))
  {
    hide Code, BytesOf, Letters, Stop, NextCode, NoBlank, Decodes, DecodeFrom;
    LetterIs(0);
    CleanedIsStripped(s, 0);
    CleanedHasNone(s);
    var w := Cleaned(s);
    assert s[0..] == s && Stripped(s, 0) == "" && "" + w == w;
    DecodeStripped(s, 0, len, []);
    GroupsDecode(w, 0, len);
    assert BytesOf(Letters(w))[..0] == [];
  }

  /** What is counted for the size: all characters but blanks, unless one of them is illegal. */
  lemma {:induction false} CountExactly(s: string, i: nat)
    requires '\0' !in s && i <= |s| && |ALPHABET| == 64
    ensures CountCodes(s, i) == if AllLegal(s[i..]) then |Cleaned(s[i..])| else -1
    decreases |s| - i
  {
    hide Code, IndexFrom;
    if i < |s| {
      assert s[i] in s;
      CodeIsLetter(s[i]);
      CodeIs(s[i]);
      CountExactly(s, i + 1);
      assert s[i..][1..] == s[i + 1..] && s[i..][0] == s[i];
      assert s[i..] == [s[i]] + s[i + 1..];
      LegalMore(s[i], s[i + 1..]);
    }
  }

  predicate Legal(c: char)
    requires |ALPHABET| == 64
  {
    IsBlank(c) || c == '=' || IndexFrom(c, 0) < 64
  }

  predicate AllLegal(s: string)
    requires |ALPHABET| == 64
  {
    forall j :: 0 <= j < |s| ==> Legal(s[j])
  }

  lemma LegalMore(c: char, s: string)
    requires |ALPHABET| == 64
    ensures AllLegal([c] + s) <==> Legal(c) && AllLegal(s)
  {
    hide Legal;
    var t := [c] + s;
    assert t[0] == c && forall j :: 0 <= j < |s| ==> t[j + 1] == s[j];
  }

  // ---------- What is encoded ----------

  /** Six bits of the bytes, which zeros follow: those from bit 6 `j` on. */
  function SixBits(x: seq<byte>, j: nat): int
    requires 3 * j / 4 < |x|
  {
    var i := 3 * j / 4;
    var a: int := x[i];
    var b: int := if i + 1 < |x| then x[i + 1] else 0;
    (a * 256 + b) / (if j % 4 == 0 then 1024 else if j % 4 == 1 then 16 else if j % 4 == 2 then 64 else 256) % 64
  }

  /** The character at `j`: a letter as long as there are bits, and then fill characters. */
  function Encoded(x: seq<byte>, j: nat): char
    requires |ALPHABET| == 64
  {
    if 3 * j / 4 < |x| then ALPHABET[SixBits(x, j)] else '='
  }

  lemma WindowBits(a: int, b: int)
    requires 0 <= a < 256 && 0 <= b < 256
    ensures (a * 256 + b) / 1024 % 64 == a / 4
    ensures (a * 256 + b) / 16 % 64 == a % 4 * 16 + b / 16
    ensures (a * 256 + b) / 64 % 64 == a % 16 * 4 + b / 64
    ensures (a * 256 + b) / 256 % 64 == a % 64
  {
    Window(a * 256 + b, a / 4, a % 4 * 256 + b, 1024);
    Window(a * 256 + b, a * 16 + b / 16, b % 16, 16);
    Window(a * 256 + b, a * 4 + b / 64, b % 64, 64);
    Window(a * 256 + b, a, b, 256);
    Window(a * 16 + b / 16, a / 4, a % 4 * 16 + b / 16, 64);
    Window(a * 4 + b / 64, a / 16, a % 16 * 4 + b / 64, 64);
  }

  lemma Window(v: int, q: int, r: int, d: int)
    requires (d == 16 || d == 64 || d == 256 || d == 1024) && v == q * d + r && 0 <= r < d
    ensures v / d == q && v % d == r
  {
  }

  /** The four characters of a group of at least one byte. */
  lemma GroupEncoded(x: seq<byte>, k: nat, r: nat)
    requires 3 * k < |x| && r < 4
    ensures |ALPHABET| == 64
    ensures
      var a := x[3 * k];
      var b := if 3 * k + 1 < |x| then x[3 * k + 1] else 0;
      var c := if 3 * k + 2 < |x| then x[3 * k + 2] else 0;
      Encoded(x, 4 * k + r) ==
        if r == 0 then Letter(a / 4)
        else if r == 1 then Letter(a % 4 * 16 + b / 16)
        else if r == 2 then if 3 * k + 1 < |x| then Letter(b % 16 * 4 + c / 64) else '='
        else if 3 * k + 2 < |x| then Letter(c % 64) else '='
  {
    hide Letter, SixBits;
    LetterIs(0);
    PlaceOf(k, r);
    if 3 * k + (if r < 2 then 0 else r - 1) < |x| {
      SixBitsAre(x, k, r);
      LetterIs(SixBits(x, 4 * k + r));
    }
  }

  lemma PlaceOf(k: nat, r: nat)
    requires r < 4
    ensures (4 * k + r) % 4 == r && 3 * (4 * k + r) / 4 == 3 * k + if r < 2 then 0 else r - 1
  {
  }

  lemma SixBitsAre(x: seq<byte>, k: nat, r: nat)
    requires r < 4 && 3 * k + (if r < 2 then 0 else r - 1) < |x|
    ensures 3 * (4 * k + r) / 4 < |x|
    ensures
      var a := x[3 * k];
      var b := if 3 * k + 1 < |x| then x[3 * k + 1] else 0;
      var c := if 3 * k + 2 < |x| then x[3 * k + 2] else 0;
      SixBits(x, 4 * k + r) ==
        if r == 0 then a / 4 else if r == 1 then a % 4 * 16 + b / 16
        else if r == 2 then b % 16 * 4 + c / 64 else c % 64
  {
    PlaceOf(k, r);
    var i := 3 * k + if r < 2 then 0 else r - 1;
    WindowBits(x[i], if i + 1 < |x| then x[i + 1] else 0);
  }

  lemma {:induction false} GroupsEncoded(x: seq<byte>, k: nat, j: nat)
    requires 3 * k <= |x| && j < 4 * k
    ensures |ALPHABET| == 64 && |Groups(x, k, false)| == 4 * k && Groups(x, k, false)[j] == Encoded(x, j)
  {
    hide Letter, Encoded;
    GroupsLength(x, k, false);
    GroupsLength(x, k - 1, false);
    if j < 4 * k - 4 {
      GroupsEncoded(x, k - 1, j);
    } else {
      GroupEncoded(x, k - 1, j - (4 * k - 4));
    }
  }

  /** The encoded text without line breaks, character by character. */
  lemma EncodeExactly(x: seq<byte>, j: nat)
    requires j < |Encode(x, false)|
    ensures |ALPHABET| == 64
    ensures |Encode(x, false)| == (|x| + 2) / 3 * 4 && Encode(x, false)[j] == Encoded(x, j)
  {
    hide Letter, Encoded, Groups;
    var k := |x| / 3;
    GroupsLength(x, k, false);
    if j < 4 * k {
      GroupsEncoded(x, k, j);
    } else {
      GroupEncoded(x, k, j - 4 * k);
    }
  }

  lemma GroupsStep(x: seq<byte>, k: nat) returns (q: string)
    requires 0 < 3 * k <= |x|
    ensures |q| == 4 && Groups(x, k, false) == Groups(x, k - 1, false) + q
    ensures Groups(x, k, true) == Groups(x, k - 1, true) + q + (if k % 18 == 0 then "\n" else "")
  {
    hide Letter;
    q := Groups(x, k, false)[|Groups(x, k - 1, false)|..];
  }

  /** A line break follows every 72 characters of whole groups, and nothing else is changed. */
  lemma {:induction false} GroupsWrapped(x: seq<byte>, k: nat)
    requires 3 * k <= |x|
    ensures |Groups(x, k, false)| == 4 * k && |Groups(x, k, true)| == 4 * k + k / 18
    ensures forall j :: 0 <= j < 4 * k ==> Groups(x, k, true)[j + j / 72] == Groups(x, k, false)[j]
    ensures forall m :: 0 <= m < k / 18 ==> Groups(x, k, true)[73 * m + 72] == '\n'
  {
    hide Letter, Groups;
    GroupsLength(x, k, false);
    GroupsLength(x, k, true);
    if k > 0 {
      GroupsWrapped(x, k - 1);
      var q := GroupsStep(x, k);
      forall j | 0 <= j < 4 * k ensures Groups(x, k, true)[j + j / 72] == Groups(x, k, false)[j] {
        if j >= 4 * k - 4 {
          LineOf(k, j);
          Third(Groups(x, k - 1, true), q, if k % 18 == 0 then "\n" else "", j - (4 * k - 4));
        } else {
          LineWithin(k, j);
        }
      }
      forall m | 0 <= m < k / 18 ensures Groups(x, k, true)[73 * m + 72] == '\n' {
        if m >= (k - 1) / 18 {
          LastLine(k, m);
        }
      }
    }
  }

  lemma Third(a: string, b: string, c: string, j: nat)
    requires j < |b|
    ensures (a + b + c)[|a| + j] == b[j]
  {
  }

  lemma LineOf(k: nat, j: nat)
    requires k > 0 && 4 * k - 4 <= j < 4 * k
    ensures j / 72 == (k - 1) / 18
  {
  }

  lemma LineWithin(k: nat, j: nat)
    requires k > 0 && j < 4 * k - 4
    ensures j + j / 72 < 4 * k - 4 + (k - 1) / 18
  {
  }

  lemma LastLine(k: nat, m: nat)
    requires k > 0 && (k - 1) / 18 <= m < k / 18
    ensures k % 18 == 0 && 73 * m + 72 == 4 * k + k / 18 - 1
  {
  }

  /** The encoded text with line breaks. */
  lemma EncodeWrapped(x: seq<byte>)
    ensures |Encode(x, true)| == |Encode(x, false)| + |x| / 54
    ensures forall m :: 0 <= m < |x| / 54 ==> 73 * m + 72 < |Encode(x, true)| && Encode(x, true)[73 * m + 72] == '\n'
    ensures forall j :: 0 <= j < |Encode(x, false)| ==>
              var i := if j / 72 < |x| / 54 then j + j / 72 else j + |x| / 54;
              i < |Encode(x, true)| && Encode(x, true)[i] == Encode(x, false)[j]
  {
    hide Letter, Groups;
    var k := |x| / 3;
    GroupsWrapped(x, k);
    assert k / 18 == |x| / 54;
    forall m | 0 <= m < |x| / 54
      ensures 73 * m + 72 < |Encode(x, true)| && Encode(x, true)[73 * m + 72] == '\n'
    {
      assert Encode(x, true)[73 * m + 72] == Groups(x, k, true)[73 * m + 72];
    }
    forall j | 0 <= j < |Encode(x, false)|
      ensures
        var i := if j / 72 < |x| / 54 then j + j / 72 else j + |x| / 54;
        i < |Encode(x, true)| && Encode(x, true)[i] == Encode(x, false)[j]
    {
      if j < 4 * k {
        LineBefore(k, j);
      }
    }
  }

  lemma LineBefore(k: nat, j: nat)
    requires j < 4 * k
    ensures j / 72 <= k / 18 && j + j / 72 < 4 * k + k / 18
    ensures j / 72 >= k / 18 ==> j / 72 == k / 18
  {
  }
}
