/** Go's base64.StdEncoding (section 4 of RFC 4648), which carries what a
    command line cannot. */
module Base64 {
  import opened Common

  const PAD: char := '='

  function Char64(i: int): (c: char)
    requires 0 <= i < 64
  {
    if i < 26 then ('A' as int + i) as char
    else if i < 52 then ('a' as int + i - 26) as char
    else if i < 62 then ('0' as int + i - 52) as char
    else if i == 62 then '+' else '/'
  }

  /** The six bits a character stands for, -1 outside the alphabet. */
  function Value64(c: char): (i: int)
    ensures -1 <= i < 64
  {
    if 'A' <= c <= 'Z' then c as int - 'A' as int
    else if 'a' <= c <= 'z' then c as int - 'a' as int + 26
    else if '0' <= c <= '9' then c as int - '0' as int + 52
    else if c == '+' then 62
    else if c == '/' then 63
    else -1
  }

  lemma ValueOfChar(i: int)
    requires 0 <= i < 64
    ensures Value64(Char64(i)) == i && Char64(i) != PAD
  {
  }

  function Encode3(a: Byte, b: Byte, c: Byte): string {
    [Char64(a / 4), Char64(a % 4 * 16 + b / 16), Char64(b % 16 * 4 + c / 64), Char64(c % 64)]
  }

  function EncodeToString(bytes: seq<Byte>): string {
    if bytes == [] then ""
    else if |bytes| == 1 then
      [Char64(bytes[0] / 4), Char64(bytes[0] % 4 * 16), PAD, PAD]
    else if |bytes| == 2 then
      [Char64(bytes[0] / 4), Char64(bytes[0] % 4 * 16 + bytes[1] / 16), Char64(bytes[1] % 16 * 4), PAD]
    else Encode3(bytes[0], bytes[1], bytes[2]) + EncodeToString(bytes[3..])
  }

  /** DecodeString ignores line breaks wherever they stand. */
  function WithoutBreaks(text: string): string {
    if text == "" then ""
    else (if text[0] == '\r' || text[0] == '\n' then "" else [text[0]]) + WithoutBreaks(text[1..])
  }

  function Byte1(p: int, q: int): (b: Byte)
    requires 0 <= p < 64 && 0 <= q < 64
  {
    p * 4 + q / 16
  }

  function Byte2(q: int, r: int): (b: Byte)
    requires 0 <= q < 64 && 0 <= r < 64
  {
    q % 16 * 16 + r / 4
  }

  function Byte3(r: int, s: int): (b: Byte)
    requires 0 <= r < 64 && 0 <= s < 64
  {
    r % 4 * 64 + s
  }

  /** Quanta of four characters; only the last may be padded, and the bits under
      the padding are not looked at. None where Go reports corrupt input. */
  function DecodeQuanta(text: string): Option<seq<Byte>> {
    if text == "" then Some([])
    else if |text| < 4 || Value64(text[0]) < 0 || Value64(text[1]) < 0 then None
    else
      var (p, q) := (Value64(text[0]), Value64(text[1]));
      if text[2] == PAD then
        if text[3] == PAD && |text| == 4 then Some([Byte1(p, q)]) else None
      else if Value64(text[2]) < 0 then None
      else
        var r := Value64(text[2]);
        if text[3] == PAD then
          if |text| == 4 then Some([Byte1(p, q), Byte2(q, r)]) else None
        else if Value64(text[3]) < 0 then None
        else
          match DecodeQuanta(text[4..])
          case None => None
          case Some(rest) => Some([Byte1(p, q), Byte2(q, r), Byte3(r, Value64(text[3]))] + rest)
  }

  function DecodeString(text: string): Option<seq<Byte>> {
    DecodeQuanta(WithoutBreaks(text))
  }

  /** What the encoder writes: the alphabet and padding, nothing a lexer or a
      terminal would read as its own. */
  predicate Carries(c: char) {
    Value64(c) >= 0 || c == PAD
  }

  lemma {:induction false} EncodedAlphabet(bytes: seq<Byte>)
    ensures forall i :: 0 <= i < |EncodeToString(bytes)| ==> Carries(EncodeToString(bytes)[i])
  {
    hide Value64, Char64;
    forall i | 0 <= i < 64 ensures Carries(Char64(i)) {
      ValueOfChar(i);
    }
    if |bytes| >= 3 {
      EncodedAlphabet(bytes[3..]);
    }
  }

  lemma {:induction false} NoBreaks(text: string)
    requires forall i :: 0 <= i < |text| ==> text[i] != '\n' && text[i] != '\r'
    ensures WithoutBreaks(text) == text
  {
    if text != "" {
      NoBreaks(text[1..]);
      assert text == [text[0]] + text[1..];
    }
  }

  /** A line break anywhere in a text changes nothing of what is read. */
  lemma {:induction false} BreakIgnored(a: string, c: char, b: string)
    requires c == '\n' || c == '\r'
    ensures WithoutBreaks(a + [c] + b) == WithoutBreaks(a + b)
  {
    if a == "" {
      assert a + [c] + b == [c] + b && a + b == b;
      assert ([c] + b)[1..] == b;
    } else {
      assert (a + [c] + b)[1..] == a[1..] + [c] + b && (a + b)[1..] == a[1..] + b;
      BreakIgnored(a[1..], c, b);
    }
  }

  lemma QuantumOf(a: Byte, b: Byte, c: Byte)
    ensures Byte1(a / 4, a % 4 * 16 + b / 16) == a
    ensures Byte2(a % 4 * 16 + b / 16, b % 16 * 4 + c / 64) == b
    ensures Byte3(b % 16 * 4 + c / 64, c % 64) == c
  {
  }

  /** A whole quantum in front of anything. */
  lemma QuantumRoundTrip(a: Byte, b: Byte, c: Byte, rest: string)
    ensures DecodeQuanta(Encode3(a, b, c) + rest)
         == match DecodeQuanta(rest) case None => None case Some(bytes) => Some([a, b, c] + bytes)
  {
    hide Value64, Char64, Byte1, Byte2, Byte3;
    var text := Encode3(a, b, c) + rest;
    QuantumOf(a, b, c);
    ValueOfChar(a / 4);
    ValueOfChar(a % 4 * 16 + b / 16);
    ValueOfChar(b % 16 * 4 + c / 64);
    ValueOfChar(c % 64);
    assert text[4..] == rest;
  }

  lemma OneByte(a: Byte)
    ensures DecodeQuanta(EncodeToString([a])) == Some([a])
  {
    hide Value64, Char64, Byte2, Byte3;
    ValueOfChar(a / 4);
    ValueOfChar(a % 4 * 16);
  }

  lemma TwoBytes(a: Byte, b: Byte)
    ensures DecodeQuanta(EncodeToString([a, b])) == Some([a, b])
  {
    hide Value64, Char64, Byte1, Byte2, Byte3;
    QuantumOf(a, b, 0);
    ValueOfChar(a / 4);
    ValueOfChar(a % 4 * 16 + b / 16);
    ValueOfChar(b % 16 * 4);
  }

  lemma {:induction false} QuantaRoundTrip(bytes: seq<Byte>)
    ensures DecodeQuanta(EncodeToString(bytes)) == Some(bytes)
  {
    hide DecodeQuanta, Encode3;
    if bytes == [] {
      NoQuanta();
    } else if |bytes| == 1 {
      OneByte(bytes[0]);
      assert bytes == [bytes[0]];
    } else if |bytes| == 2 {
      TwoBytes(bytes[0], bytes[1]);
      assert bytes == [bytes[0], bytes[1]];
    } else {
      QuantumRoundTrip(bytes[0], bytes[1], bytes[2], EncodeToString(bytes[3..]));
      QuantaRoundTrip(bytes[3..]);
      assert bytes == [bytes[0], bytes[1], bytes[2]] + bytes[3..];
    }
  }

  lemma NoQuanta()
    ensures DecodeQuanta("") == Some([])
  {
  }

  lemma {:induction false} RoundTrip(bytes: seq<Byte>)
    ensures DecodeString(EncodeToString(bytes)) == Some(bytes)
  {
    EncodedAlphabet(bytes);
    NoBreaks(EncodeToString(bytes));
    QuantaRoundTrip(bytes);
  }

  // ----- the alphabet, and what a decoder takes -----

  const UPPER := "ABCDEFGHIJKLMNOPQRSTUVWXYZ"
  const LOWER := "abcdefghijklmnopqrstuvwxyz"
  const DIGITS := "0123456789"

  /** The alphabet, in its order. */
  lemma AlphabetIs(i: int)
    requires 0 <= i < 64
    ensures Char64(i) == if i < 26 then UPPER[i] else if i < 52 then LOWER[i - 26]
                         else if i < 62 then DIGITS[i - 52] else if i == 62 then '+' else '/'
  {
    if i < 26 {
      UpperIs('A', i);
    } else if i < 52 {
      LowerIs('a', i - 26);
    } else {
      DigitsAre('0', i - 52);
    }
  }

  /** Nothing outside it stands for anything. */
  lemma OutsideAlphabet(c: char)
    ensures Value64(c) < 0 <==> c !in UPPER && c !in LOWER && c !in DIGITS && c != '+' && c != '/'
    ensures Value64(c) >= 0 ==> Char64(Value64(c)) == c
  {
    UpperIs(c, 0);
    LowerIs(c, 0);
    DigitsAre(c, 0);
  }

  lemma UpperIs(c: char, i: int)
    ensures 0 <= i < 26 ==> UPPER[i] == ('A' as int + i) as char
    ensures c in UPPER <==> 'A' <= c <= 'Z'
  {
    if 'A' <= c <= 'Z' {
      assert UPPER[c as int - 'A' as int] == c;
    }
  }

  lemma LowerIs(c: char, i: int)
    ensures 0 <= i < 26 ==> LOWER[i] == ('a' as int + i) as char
    ensures c in LOWER <==> 'a' <= c <= 'z'
  {
    if 'a' <= c <= 'z' {
      assert LOWER[c as int - 'a' as int] == c;
    }
  }

  lemma DigitsAre(c: char, i: int)
    ensures 0 <= i < 10 ==> DIGITS[i] == ('0' as int + i) as char
    ensures c in DIGITS <==> '0' <= c <= '9'
  {
    if '0' <= c <= '9' {
      assert DIGITS[c as int - '0' as int] == c;
    }
  }

  /** The six-bit groups of a quantum are the bits of its bytes, in order. */
  lemma QuantumBits(a: Byte, b: Byte, c: Byte)
    ensures var e := EncodeToString([a, b, c]);
            && |e| == 4
            && a * 65536 + b * 256 + c
               == Value64(e[0]) * 262144 + Value64(e[1]) * 4096 + Value64(e[2]) * 64 + Value64(e[3])
    ensures var e := EncodeToString([a, b]);
            && |e| == 4 && e[3] == '='
            && a * 1024 + b * 4 == Value64(e[0]) * 4096 + Value64(e[1]) * 64 + Value64(e[2])
    ensures var e := EncodeToString([a]);
            && |e| == 4 && e[2] == e[3] == '='
            && a * 16 == Value64(e[0]) * 64 + Value64(e[1])
  {
    hide Value64, Char64;
    ValueOfChar(a / 4);
    ValueOfChar(a % 4 * 16 + b / 16);
    ValueOfChar(b % 16 * 4 + c / 64);
    ValueOfChar(c % 64);
    ValueOfChar(b % 16 * 4);
    ValueOfChar(a % 4 * 16);
    assert [a, b, c][3..] == [];
  }

  /** Whole quanta of the alphabet, and at the very end one or two signs of
      padding in the place of as many characters. */
  ghost predicate Shaped(text: string) {
    && |text| % 4 == 0
    && (forall i :: 0 <= i < |text| - 2 ==> Value64(text[i]) >= 0)
    && (text != "" ==> text[|text| - 1] == '=' || Value64(text[|text| - 1]) >= 0)
    && (text != "" ==> Value64(text[|text| - 2]) >= 0 || text[|text| - 2..] == "==")
  }

  /** Exactly those texts are read. */
  lemma {:induction false} DecodesShaped(text: string)
    ensures DecodeQuanta(text).Some? <==> Shaped(text)
    decreases |text|
  {
    hide Value64, Byte1, Byte2, Byte3;
    assert Value64('=') < 0 by {
      OutsideAlphabet('=');
    }
    if |text| > 4 {
      DecodesShaped(text[4..]);
    }
  }

  lemma Sextets(p: int, q: int, r: int, s: int)
    requires 0 <= p < 64 && 0 <= q < 64 && 0 <= r < 64 && 0 <= s < 64
    ensures Byte1(p, q) / 4 == p && Byte1(p, q) % 4 * 16 == q - q % 16
    ensures Byte1(p, q) % 4 * 16 + Byte2(q, r) / 16 == q && Byte2(q, r) % 16 * 4 == r - r % 4
    ensures Byte2(q, r) % 16 * 4 + Byte3(r, s) / 64 == r && Byte3(r, s) % 64 == s
  {
  }

  /** The same text, but for the bits under the padding, which are zero in e. */
  ghost predicate Reread(text: string, e: string) {
    && |e| == |text|
    && forall i :: 0 <= i < |text| && e[i] != text[i] ==>
         && i + 1 < |text| && text[i + 1] == '='
         && 0 <= Value64(text[i]) - Value64(e[i]) < if i + 3 == |text| then 16 else 4
  }

  lemma QuantumAgain(p: int, q: int, r: int, s: int, rest: seq<Byte>)
    requires 0 <= p < 64 && 0 <= q < 64 && 0 <= r < 64 && 0 <= s < 64
    ensures EncodeToString([Byte1(p, q), Byte2(q, r), Byte3(r, s)] + rest)
         == [Char64(p), Char64(q), Char64(r), Char64(s)] + EncodeToString(rest)
    ensures EncodeToString([Byte1(p, q), Byte2(q, r)]) == [Char64(p), Char64(q), Char64(r - r % 4), '=']
    ensures EncodeToString([Byte1(p, q)]) == [Char64(p), Char64(q - q % 16), '=', '=']
  {
    hide Char64, Byte1, Byte2, Byte3;
    Sextets(p, q, r, s);
    var bytes := [Byte1(p, q), Byte2(q, r), Byte3(r, s)] + rest;
    assert bytes[3..] == rest;
  }

  lemma RereadOne(text: string)
    requires DecodeQuanta(text).Some? && |text| == 4 && text[2] == '='
    ensures Reread(text, EncodeToString(DecodeQuanta(text).value))
  {
    hide Value64, Char64, Byte1, EncodeToString;
    var (p, q) := (Value64(text[0]), Value64(text[1]));
    QuantumAgain(p, q, 0, 0, []);
    OutsideAlphabet(text[0]);
    ValueOfChar(q - q % 16);
  }

  lemma RereadTwo(text: string)
    requires DecodeQuanta(text).Some? && |text| == 4 && text[2] != '=' && text[3] == '='
    ensures Reread(text, EncodeToString(DecodeQuanta(text).value))
  {
    hide Value64, Char64, Byte1, Byte2, EncodeToString;
    var (p, q, r) := (Value64(text[0]), Value64(text[1]), Value64(text[2]));
    QuantumAgain(p, q, r, 0, []);
    OutsideAlphabet(text[0]);
    OutsideAlphabet(text[1]);
    ValueOfChar(r - r % 4);
  }

  lemma RereadThree(text: string)
    requires DecodeQuanta(text).Some? && text != "" && text[3] != '='
    ensures DecodeQuanta(text[4..]).Some?
    ensures EncodeToString(DecodeQuanta(text).value) == text[..4] + EncodeToString(DecodeQuanta(text[4..]).value)
  {
    hide Value64, Char64, Byte1, Byte2, Byte3, EncodeToString;
    QuantumAgain(Value64(text[0]), Value64(text[1]), Value64(text[2]), Value64(text[3]), DecodeQuanta(text[4..]).value);
    AllInAlphabet(text[..4]);
  }

  lemma AllInAlphabet(text: string)
    ensures forall i :: 0 <= i < |text| && Value64(text[i]) >= 0 ==> Char64(Value64(text[i])) == text[i]
  {
    hide Value64, Char64;
    forall i | 0 <= i < |text| && Value64(text[i]) >= 0 ensures Char64(Value64(text[i])) == text[i] {
      OutsideAlphabet(text[i]);
    }
  }

  /** And what they are read as encodes to them again, but for those bits. */
  lemma {:induction false} RereadsAs(text: string)
    requires DecodeQuanta(text).Some?
    ensures Reread(text, EncodeToString(DecodeQuanta(text).value))
    decreases |text|
  {
    hide Value64, Byte1, Byte2, Byte3, EncodeToString, Char64;
    if text == "" {
      assert EncodeToString([]) == "" by {
        NothingEncoded();
      }
    } else if text[2] == '=' {
      RereadOne(text);
    } else if text[3] == '=' {
      RereadTwo(text);
    } else {
      RereadThree(text);
      RereadsAs(text[4..]);
      RereadMore(text, EncodeToString(DecodeQuanta(text[4..]).value));
    }
  }

  lemma NothingEncoded()
    ensures EncodeToString([]) == ""
  {
  }

  lemma RereadMore(text: string, e: string)
    requires |text| >= 4 && Reread(text[4..], e)
    ensures Reread(text, text[..4] + e)
  {
    hide Value64;
    var both := text[..4] + e;
    forall i | 4 <= i < |text| ensures both[i] == e[i - 4] && text[i] == text[4..][i - 4] {
    }
  }
}
