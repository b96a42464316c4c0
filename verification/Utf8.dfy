/** UTF-8 as Go's unicode/utf8 reads and writes it (section 3 of RFC 3629). A
    Dafny `char` is a Unicode scalar value, which is what a valid rune is. */
module Utf8 {
  import opened Common

  /** U+FFFD, what a malformed byte decodes to. */
  const RUNE_ERROR: char := '\U{FFFD}'

  function RuneLen(c: char): (n: nat)
    ensures 1 <= n <= 4
  {
    var v := c as int;
    if v < 0x80 then 1 else if v < 0x800 then 2 else if v < 0x10000 then 3 else 4
  }

  function EncodeRune(c: char): (bytes: seq<Byte>)
    ensures |bytes| == RuneLen(c)
  {
    var v := c as int;
    if v < 0x80 then [v]
    else if v < 0x800 then [0xC0 + v / 64, 0x80 + v % 64]
    else if v < 0x10000 then [0xE0 + v / 4096, 0x80 + v / 64 % 64, 0x80 + v % 64]
    else [0xF0 + v / 262144, 0x80 + v / 4096 % 64, 0x80 + v / 64 % 64, 0x80 + v % 64]
  }

  function Encode(text: string): seq<Byte> {
    if text == [] then [] else EncodeRune(text[0]) + Encode(text[1..])
  }

  /** How many bytes a lead byte promises; an invalid lead stands alone. */
  function LeadLen(b: Byte): (n: nat)
    ensures 1 <= n <= 4
  {
    if 0xC2 <= b <= 0xDF then 2
    else if 0xE0 <= b <= 0xEF then 3
    else if 0xF0 <= b <= 0xF4 then 4
    else 1
  }

  predicate IsContinuation(b: Byte) {
    0x80 <= b <= 0xBF
  }

  /** The second byte each lead admits: no overlong form, no surrogate, nothing
      past U+10FFFF. */
  predicate SecondFits(lead: Byte, b: Byte) {
    if lead == 0xE0 then 0xA0 <= b <= 0xBF
    else if lead == 0xED then 0x80 <= b <= 0x9F
    else if lead == 0xF0 then 0x90 <= b <= 0xBF
    else if lead == 0xF4 then 0x80 <= b <= 0x8F
    else IsContinuation(b)
  }

  function Point2(a: int, b: int): int {
    (a - 0xC0) * 64 + (b - 0x80)
  }

  function Point3(a: int, b: int, c: int): int {
    (a - 0xE0) * 4096 + (b - 0x80) * 64 + (c - 0x80)
  }

  function Point4(a: int, b: int, c: int, d: int): int {
    (a - 0xF0) * 262144 + (b - 0x80) * 4096 + (c - 0x80) * 64 + (d - 0x80)
  }

  /** utf8.DecodeRune: the first rune and its width; (U+FFFD, 1) when the bytes
      begin no well-formed sequence. */
  function DecodeRune(p: seq<Byte>): (res: (char, nat))
    requires p != []
    ensures 1 <= res.1 <= |p|
  {
    var n := LeadLen(p[0]);
    if p[0] < 0x80 then (p[0] as char, 1)
    else if n == 1 || |p| < n || !SecondFits(p[0], p[1]) then (RUNE_ERROR, 1)
    else if n == 2 then (Point2(p[0], p[1]) as char, 2)
    else if !IsContinuation(p[2]) then (RUNE_ERROR, 1)
    else if n == 3 then (Point3(p[0], p[1], p[2]) as char, 3)
    else if !IsContinuation(p[3]) then (RUNE_ERROR, 1)
    else (Point4(p[0], p[1], p[2], p[3]) as char, 4)
  }

  /** `[]rune(s)`, and the runes `for range s` yields. */
  function Runes(p: seq<Byte>): string {
    if p == [] then []
    else
      var (r, n) := DecodeRune(p);
      [r] + Runes(p[n..])
  }

  /** utf8.ValidString: every byte belongs to a well-formed sequence. */
  predicate Valid(p: seq<Byte>) {
    p == [] ||
    var (r, n) := DecodeRune(p);
    (n > 1 || p[0] < 0x80) && Valid(p[n..])
  }

  // ----- the two directions -----

  /** Six bits at a time. */
  lemma Sixes(v: int)
    ensures v == v / 64 * 64 + v % 64
    ensures v == v / 4096 * 4096 + v / 64 % 64 * 64 + v % 64
    ensures v == v / 262144 * 262144 + v / 4096 % 64 * 4096 + v / 64 % 64 * 64 + v % 64
  {
    var w := v / 64;
    assert w == w / 64 * 64 + w % 64;
    assert w / 64 == v / 4096;
    var x := v / 4096;
    assert x == x / 64 * 64 + x % 64;
    assert x / 64 == v / 262144;
  }

  lemma Decode2(p: seq<Byte>, c: char)
    requires |p| >= 2 && 0x80 <= c as int < 0x800
    requires p[0] == 0xC0 + c as int / 64 && p[1] == 0x80 + c as int % 64
    ensures DecodeRune(p) == (c, 2)
  {
    Sixes(c as int);
    assert Point2(p[0], p[1]) == c as int;
  }

  lemma Decode3(p: seq<Byte>, c: char)
    requires |p| >= 3 && 0x800 <= c as int < 0x10000
    requires p[0] == 0xE0 + c as int / 4096 && p[1] == 0x80 + c as int / 64 % 64 && p[2] == 0x80 + c as int % 64
    ensures DecodeRune(p) == (c, 3)
  {
    Sixes(c as int);
    assert Point3(p[0], p[1], p[2]) == c as int;
  }

  lemma Decode4(p: seq<Byte>, c: char)
    requires |p| >= 4 && 0x10000 <= c as int
    requires p[0] == 0xF0 + c as int / 262144 && p[1] == 0x80 + c as int / 4096 % 64
    requires p[2] == 0x80 + c as int / 64 % 64 && p[3] == 0x80 + c as int % 64
    ensures DecodeRune(p) == (c, 4)
  {
    Sixes(c as int);
    assert Point4(p[0], p[1], p[2], p[3]) == c as int;
  }

  lemma DecodeEncodeRune(c: char, rest: seq<Byte>)
    ensures DecodeRune(EncodeRune(c) + rest) == (c, RuneLen(c))
  {
    var v := c as int;
    var p := EncodeRune(c) + rest;
    if v < 0x80 {
      assert p[0] == v;
    } else {
      hide DecodeRune;
      if v < 0x800 {
        Decode2(p, c);
      } else if v < 0x10000 {
        Decode3(p, c);
      } else {
        Decode4(p, c);
      }
    }
  }

  lemma Encode2(p: seq<Byte>)
    requires p != [] && DecodeRune(p).1 == 2
    ensures EncodeRune(DecodeRune(p).0) == p[..2]
  {
    var v := DecodeRune(p).0 as int;
    assert v == Point2(p[0], p[1]);
    assert v / 64 == p[0] - 0xC0 && v % 64 == p[1] - 0x80;
  }

  lemma Encode3(p: seq<Byte>)
    requires p != [] && DecodeRune(p).1 == 3
    ensures EncodeRune(DecodeRune(p).0) == p[..3]
  {
    var c := DecodeRune(p).0;
    assert c as int == Point3(p[0], p[1], p[2]);
    Digits3(p[0] - 0xE0, p[1] - 0x80, p[2] - 0x80);
  }

  lemma Encode4(p: seq<Byte>)
    requires p != [] && DecodeRune(p).1 == 4
    ensures EncodeRune(DecodeRune(p).0) == p[..4]
  {
    var c := DecodeRune(p).0;
    assert c as int == Point4(p[0], p[1], p[2], p[3]);
    Digits4(p[0] - 0xF0, p[1] - 0x80, p[2] - 0x80, p[3] - 0x80);
  }

  lemma EncodeDecodeRune(p: seq<Byte>)
    requires p != [] && (DecodeRune(p).1 > 1 || p[0] < 0x80)
    ensures EncodeRune(DecodeRune(p).0) == p[..DecodeRune(p).1]
  {
    var n := DecodeRune(p).1;
    if n == 2 {
      Encode2(p);
    } else if n == 3 {
      Encode3(p);
    } else if n == 4 {
      Encode4(p);
    }
  }

  lemma Digits3(x: int, y: int, z: int)
    requires 0 <= y < 64 && 0 <= z < 64
    ensures (x * 4096 + y * 64 + z) / 4096 == x
    ensures (x * 4096 + y * 64 + z) / 64 % 64 == y
    ensures (x * 4096 + y * 64 + z) % 64 == z
  {
    var v := x * 4096 + y * 64 + z;
    assert v == (x * 64 + y) * 64 + z;
    assert v / 64 == x * 64 + y;
  }

  lemma Digits4(w: int, x: int, y: int, z: int)
    requires 0 <= x < 64 && 0 <= y < 64 && 0 <= z < 64
    ensures (w * 262144 + x * 4096 + y * 64 + z) / 262144 == w
    ensures (w * 262144 + x * 4096 + y * 64 + z) / 4096 % 64 == x
    ensures (w * 262144 + x * 4096 + y * 64 + z) / 64 % 64 == y
    ensures (w * 262144 + x * 4096 + y * 64 + z) % 64 == z
  {
    Digits3(w * 64 + x, y, z);
    assert w * 262144 + x * 4096 + y * 64 + z == (w * 64 + x) * 4096 + y * 64 + z;
  }

  /** The table of section 3 of RFC 3629: how many bytes a rune takes, what marks
      each, and that the bits beside the marks are the rune's, in order. */
  lemma Rfc3629(c: char)
    ensures var v, b := c as int, EncodeRune(c);
            if v <= 127 then b == [v]
            else if v <= 2047 then
              && |b| == 2 && 192 <= b[0] <= 223 && 128 <= b[1] <= 191
              && v == (b[0] as int - 192) * 64 + (b[1] as int - 128)
            else if v <= 65535 then
              && |b| == 3 && 224 <= b[0] <= 239 && 128 <= b[1] <= 191 && 128 <= b[2] <= 191
              && v == (b[0] as int - 224) * 4096 + (b[1] as int - 128) * 64 + (b[2] as int - 128)
            else
              && |b| == 4 && 240 <= b[0] <= 247 && 128 <= b[1] <= 191 && 128 <= b[2] <= 191 && 128 <= b[3] <= 191
              && v == (b[0] as int - 240) * 262144 + (b[1] as int - 128) * 4096
                      + (b[2] as int - 128) * 64 + (b[3] as int - 128)
  {
    Sixes(c as int);
  }

  /** What bytes decode to: the rune whose encoding they begin with, and U+FFFD,
      one byte wide, when they begin with none. */
  lemma DecodesExactly(p: seq<Byte>, c: char)
    requires p != []
    ensures EncodeRune(c) <= p ==> DecodeRune(p) == (c, |EncodeRune(c)|)
    ensures EncodeRune(DecodeRune(p).0) <= p || DecodeRune(p) == ('\U{FFFD}', 1)
  {
    hide EncodeRune, DecodeRune;
    if EncodeRune(c) <= p {
      DecodeEncodeRune(c, p[|EncodeRune(c)|..]);
      assert p == EncodeRune(c) + p[|EncodeRune(c)|..];
    }
    if DecodeRune(p).1 > 1 || p[0] < 0x80 {
      EncodeDecodeRune(p);
    } else {
      MalformedIsOne(p);
    }
  }

  lemma MalformedIsOne(p: seq<Byte>)
    requires p != [] && DecodeRune(p).1 == 1 && p[0] >= 0x80
    ensures DecodeRune(p).0 == '\U{FFFD}'
  {
  }

  /** And so a byte string is read: rune by rune where runes stand, and byte by
      byte where none does. */
  lemma RunesExactly(c: char, p: seq<Byte>)
    ensures Runes(EncodeRune(c) + p) == [c] + Runes(p)
    ensures p != [] && !(EncodeRune(DecodeRune(p).0) <= p) ==> Runes(p) == ['\U{FFFD}'] + Runes(p[1..])
  {
    hide EncodeRune, DecodeRune;
    DecodeEncodeRune(c, p);
    assert (EncodeRune(c) + p)[|EncodeRune(c)|..] == p;
    if p != [] {
      DecodesExactly(p, c);
    }
  }

  /** The valid byte strings are the encodings of texts, and no others. */
  lemma ValidExactly(p: seq<Byte>)
    ensures Valid(p) <==> exists text :: Encode(text) == p
  {
    if Valid(p) {
      EncodeOfRunes(p);
    } else if text :| Encode(text) == p {
      RunesOfEncode(text);
    }
  }

  lemma {:induction false} RunesOfEncode(text: string)
    ensures Runes(Encode(text)) == text
    ensures Valid(Encode(text))
  {
    if text != [] {
      DecodeEncodeRune(text[0], Encode(text[1..]));
      assert Encode(text)[RuneLen(text[0])..] == Encode(text[1..]);
      RunesOfEncode(text[1..]);
    }
  }

  lemma {:induction false} EncodeOfRunes(p: seq<Byte>)
    requires Valid(p)
    ensures Encode(Runes(p)) == p
  {
    if p != [] {
      var n := DecodeRune(p).1;
      EncodeDecodeRune(p);
      EncodeOfRunes(p[n..]);
      assert p == p[..n] + p[n..];
    }
  }

  lemma {:induction false} EncodeConcat(a: string, b: string)
    ensures Encode(a + b) == Encode(a) + Encode(b)
  {
    if a == [] {
      assert a + b == b;
    } else {
      assert (a + b)[1..] == a[1..] + b;
      EncodeConcat(a[1..], b);
    }
  }

  lemma EncodeInjective(a: string, b: string)
    requires Encode(a) == Encode(b)
    ensures a == b
  {
    RunesOfEncode(a);
    RunesOfEncode(b);
  }

  // ----- offsets -----

  /** Where the i-th rune begins, in bytes. */
  ghost function ByteOf(text: string, i: nat): nat
    requires i <= |text|
  {
    |Encode(text[..i])|
  }

  ghost predicate OnRune(text: string, offset: nat) {
    exists i :: 0 <= i <= |text| && ByteOf(text, i) == offset
  }

  lemma EncodeSplit(text: string, i: nat)
    requires i <= |text|
    ensures Encode(text) == Encode(text[..i]) + Encode(text[i..])
    ensures Encode(text)[ByteOf(text, i)..] == Encode(text[i..]) && Encode(text)[..ByteOf(text, i)] == Encode(text[..i])
  {
    assert text == text[..i] + text[i..];
    EncodeConcat(text[..i], text[i..]);
  }

  lemma ByteOfNone(text: string)
    ensures ByteOf(text, 0) == 0
  {
  }

  lemma ByteOfNext(text: string, i: nat)
    requires i < |text|
    ensures ByteOf(text, i + 1) == ByteOf(text, i) + RuneLen(text[i])
  {
    assert text[..i + 1] == text[..i] + [text[i]];
    EncodeConcat(text[..i], [text[i]]);
    EncodeOne(text[i]);
  }

  lemma EncodeNone()
    ensures Encode("") == []
  {
  }

  lemma EncodeOne(c: char)
    ensures Encode([c]) == EncodeRune(c)
  {
    assert [c][1..] == [];
    assert EncodeRune(c) + [] == EncodeRune(c);
  }

  lemma {:induction false} ByteOfGrows(text: string, i: nat, j: nat)
    requires i < j <= |text|
    ensures ByteOf(text, i) < ByteOf(text, j)
    decreases j
  {
    ByteOfNext(text, j - 1);
    if i < j - 1 {
      ByteOfGrows(text, i, j - 1);
    }
  }

  /** A rune's own bytes: the first is no continuation byte, every other is. */
  lemma RuneShape(c: char)
    ensures var b := EncodeRune(c);
            !IsContinuation(b[0]) && forall k :: 1 <= k < |b| ==> IsContinuation(b[k])
  {
  }

  lemma RuneAt(text: string, i: nat, k: nat)
    requires i < |text| && k < RuneLen(text[i])
    ensures ByteOf(text, i) + k < |Encode(text)| && Encode(text)[ByteOf(text, i) + k] == EncodeRune(text[i])[k]
  {
    EncodeSplit(text, i);
    assert Encode(text[i..]) == EncodeRune(text[i]) + Encode(text[i..][1..]);
  }

  /** The rune a byte belongs to. */
  lemma {:induction false} RuneHolding(text: string, offset: nat, n: nat) returns (i: nat)
    requires n <= |text| && offset < ByteOf(text, n)
    ensures i < n && ByteOf(text, i) <= offset < ByteOf(text, i) + RuneLen(text[i])
    decreases n
  {
    ByteOfNone(text);
    ByteOfNext(text, n - 1);
    if offset < ByteOf(text, n - 1) {
      i := RuneHolding(text, offset, n - 1);
    } else {
      i := n - 1;
    }
  }

  /** An offset stands between runes exactly when it is the end of the text or
      the byte there is no continuation byte (section 3 of RFC 3629). */
  lemma OnRuneIffNoContinuation(text: string, offset: nat)
    requires offset <= |Encode(text)|
    ensures OnRune(text, offset) <==> offset == |Encode(text)| || !IsContinuation(Encode(text)[offset])
  {
    assert text[..|text|] == text;
    assert ByteOf(text, |text|) == |Encode(text)|;
    if offset < |Encode(text)| {
      hide Encode, IsContinuation, EncodeRune, ByteOf;
      var i := RuneHolding(text, offset, |text|);
      RuneShape(text[i]);
      RuneAt(text, i, offset - ByteOf(text, i));
      if offset > ByteOf(text, i) {
        InsideRune(text, offset, i);
      }
    }
  }

  lemma InsideRune(text: string, offset: nat, i: nat)
    requires i < |text| && ByteOf(text, i) < offset < ByteOf(text, i) + RuneLen(text[i])
    ensures !OnRune(text, offset)
  {
    hide ByteOf;
    if OnRune(text, offset) {
      var j :| 0 <= j <= |text| && ByteOf(text, j) == offset;
      ByteOfNext(text, i);
      if j < i {
        ByteOfGrows(text, j, i);
      } else if i + 1 < j {
        ByteOfGrows(text, i + 1, j);
      }
    }
  }

  /** Replacing runes is splicing bytes. */
  lemma SpliceBytes(text: string, start: nat, end: nat, insert: string)
    requires start <= end <= |text|
    ensures ByteOf(text, start) <= ByteOf(text, end) <= |Encode(text)|
    ensures Encode(text[..start] + insert + text[end..])
         == Encode(text)[..ByteOf(text, start)] + Encode(insert) + Encode(text)[ByteOf(text, end)..]
    ensures |Encode(text[start..end])| == ByteOf(text, end) - ByteOf(text, start)
  {
    EncodeConcat(text[..start] + insert, text[end..]);
    EncodeConcat(text[..start], insert);
    EncodeSplit(text, start);
    EncodeSplit(text, end);
    assert text[..end] == text[..start] + text[start..end];
    EncodeConcat(text[..start], text[start..end]);
  }

  /** Reading bytes as runes never makes them fewer: every byte that begins no
      rune becomes the three of U+FFFD. */
  lemma {:induction false} RunesGrow(p: seq<Byte>)
    ensures |p| <= |Encode(Runes(p))|
    decreases |p|
  {
    if p != [] {
      var n := DecodeRune(p).1;
      RunesGrow(p[n..]);
      if n > 1 || p[0] < 0x80 {
        EncodeDecodeRune(p);
      }
    }
  }

  /** No rune from i on begins at an offset before the i-th rune's. */
  lemma NotAfter(text: string, offset: nat, i: nat)
    requires i <= |text| && offset <= ByteOf(text, i)
    requires forall j :: 0 <= j <= i ==> ByteOf(text, j) != offset
    ensures !OnRune(text, offset)
  {
    if OnRune(text, offset) {
      var j :| 0 <= j <= |text| && ByteOf(text, j) == offset;
      ByteOfGrows(text, i, j);
    }
  }
}
