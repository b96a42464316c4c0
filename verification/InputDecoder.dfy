/** The console editor's byte decoder: UTF-8 runes, controls and terminal
    sequences told apart one byte at a time (internal/cli/editor_input.go). */
module InputDecoder {
  import opened Common
  import opened Utf8

  const ESC: Byte := 0x1B
  const CSI: Byte := 0x5B  // '['
  const SS3: Byte := 0x4F  // 'O'
  const PARAMS_MAX := 32

  datatype Input =
    | Nothing
    | Rune(key: char)
    | Control(code: Byte)
    | Arrow(final: Byte)
    | Delete
    | Help
    | Escape

  /** What the decoder remembers between two bytes. */
  datatype Memory = Memory(raw: seq<Byte>, want: nat, intro: Byte, params: seq<Byte>, long: bool)
  {
    predicate Idle() {
      raw == [] && intro == 0
    }

    /** The bound on what is retained, and the shape every reachable state has. */
    predicate Valid() {
      && |params| <= PARAMS_MAX
      && intro in {0, ESC, CSI, SS3}
      && (raw != [] ==>
            && intro == 0
            && |raw| < want <= 4
            && want == LeadLen(raw[0])
            && forall i :: 0 < i < |raw| ==> IsContinuation(raw[i]))
    }
  }

  // ----- one byte -----

  function SequenceKey(intro: Byte, params: seq<Byte>, c: Byte): Input {
    if (intro == SS3 && c == 0x50) || (intro == CSI && c == 0x7E && params == [0x31, 0x31]) then Help
    else if 0x41 <= c <= 0x44 then Arrow(c)
    else if intro == CSI && c == 0x7E && params == [0x33] then Delete
    else Nothing
  }

  function Begin(m: Memory, c: Byte): (Memory, Input) {
    if c == ESC then (m.(intro := c, params := [], long := false), Nothing)
    else if c < 0x20 || c == 0x7F then (m, Control(c))
    else if c < 0x80 then (m, Rune(c as char))
    else if LeadLen(c) == 1 then (m.(want := 1), Rune(RUNE_ERROR))
    else (m.(want := LeadLen(c), raw := [c]), Nothing)
  }

  function Continuation(m: Memory, c: Byte): (Memory, Input, Input)
    requires m.raw != []
  {
    if !IsContinuation(c) then
      var (m', next) := Begin(m.(raw := []), c);
      (m', Rune(RUNE_ERROR), next)
    else
      var raw' := m.raw + [c];
      if |raw'| < m.want then (m.(raw := raw'), Nothing, Nothing)
      else
        var (r, size) := DecodeRune(raw');
        (m.(raw := []), Rune(if size == |raw'| then r else RUNE_ERROR), Nothing)
  }

  function EscapeByte(m: Memory, c: Byte): (Memory, Input, Input) {
    if m.intro == ESC then
      if c == CSI || c == SS3 then (m.(intro := c), Nothing, Nothing)
      else
        var (m', next) := Begin(m.(intro := 0), c);
        (m', Escape, next)
    else if m.intro == CSI && 0x20 <= c <= 0x3F then
      if |m.params| < PARAMS_MAX then (m.(params := m.params + [c]), Nothing, Nothing)
      else (m.(long := true), Nothing, Nothing)
    else if c < 0x40 || c > 0x7E then
      var (m', first) := Begin(m.(intro := 0), c);
      (m', first, Nothing)
    else (m.(intro := 0), if m.long then Nothing else SequenceKey(m.intro, m.params, c), Nothing)
  }

  function Step(m: Memory, c: Byte): (Memory, Input, Input) {
    if m.raw != [] then Continuation(m, c)
    else if m.intro != 0 then EscapeByte(m, c)
    else
      var (m', first) := Begin(m, c);
      (m', first, Nothing)
  }

  /** What a truncated rune or a bare Escape becomes at the end of the stream. */
  function Flush(m: Memory): Input {
    if m.raw != [] then Rune(RUNE_ERROR) else if m.intro == ESC then Escape else Nothing
  }

  class Decoder {
    const raw: array<Byte>
    var rawLen: nat
    var rawWant: nat
    var escapeIntro: Byte
    const escapeParams: array<Byte>
    var escapeLen: nat
    var escapeLong: bool

    ghost predicate Valid()
      reads this, raw, escapeParams
    {
      && raw.Length == 4 && escapeParams.Length == PARAMS_MAX && raw != escapeParams
      && rawLen <= 4 && escapeLen <= PARAMS_MAX
      && Remembered().Valid()
    }

    ghost function Remembered(): Memory
      requires raw.Length == 4 && escapeParams.Length == PARAMS_MAX && rawLen <= 4 && escapeLen <= PARAMS_MAX
      reads this, raw, escapeParams
    {
      Memory(raw[..rawLen], rawWant, escapeIntro, escapeParams[..escapeLen], escapeLong)
    }

    constructor ()
      ensures Valid() && Remembered().Idle() && fresh(raw) && fresh(escapeParams)
    {
      raw := new Byte[4](_ => 0);
      escapeParams := new Byte[PARAMS_MAX](_ => 0);
      rawLen, rawWant, escapeIntro, escapeLen, escapeLong := 0, 0, 0, 0, false;
    }

    method Decode(c: Byte) returns (first: Input, next: Input)
      requires Valid()
      modifies this, raw, escapeParams
      ensures Valid()
      ensures (Remembered(), first, next) == Step(old(Remembered()), c)
    {
      if rawLen > 0 {
        first, next := this.DecodeContinuation(c);
      } else if escapeIntro != 0 {
        first, next := this.DecodeEscape(c);
      } else {
        next := Nothing;
        first := this.DecodeBegin(c);
      }
    }

    method DecodeContinuation(c: Byte) returns (first: Input, next: Input)
      requires Valid() && rawLen > 0
      modifies this, raw
      ensures Valid()
      ensures (Remembered(), first, next) == Continuation(old(Remembered()), c)
    {
      first, next := Nothing, Nothing;
      if !(0x80 <= c <= 0xBF) {
        rawLen := 0;
        first := Rune(RUNE_ERROR);
        next := this.DecodeBegin(c);
        return;
      }
      raw[rawLen] := c;
      rawLen := rawLen + 1;
      assert raw[..rawLen] == old(raw[..rawLen]) + [c];
      if rawLen < rawWant {
        return;
      }
      var (r, size) := DecodeRune(raw[..rawLen]);
      first := Rune(if size == rawLen then r else RUNE_ERROR);
      rawLen := 0;
    }

    method DecodeBegin(c: Byte) returns (first: Input)
      requires Valid() && rawLen == 0 && escapeIntro == 0
      modifies this, raw
      ensures Valid()
      ensures (Remembered(), first) == Begin(old(Remembered()), c)
    {
      first := Nothing;
      if c == ESC {
        escapeIntro, escapeLen, escapeLong := c, 0, false;
      } else if c < 0x20 || c == 0x7F {
        first := Control(c);
      } else if c < 0x80 {
        first := Rune(c as char);
      } else {
        rawWant := LeadLen(c);
        if rawWant == 1 {
          return Rune(RUNE_ERROR);
        }
        raw[0], rawLen := c, 1;
        assert raw[..rawLen] == [c];
      }
    }

    method DecodeEscape(c: Byte) returns (first: Input, next: Input)
      requires Valid() && rawLen == 0 && escapeIntro != 0
      modifies this, raw, escapeParams
      ensures Valid()
      ensures (Remembered(), first, next) == EscapeByte(old(Remembered()), c)
    {
      first, next := Nothing, Nothing;
      var intro := escapeIntro;
      if intro == ESC {
        if c == CSI || c == SS3 {
          escapeIntro := c;
          return;
        }
        escapeIntro := 0;
        first := Escape;
        next := this.DecodeBegin(c);
        return;
      }
      if intro == CSI && 0x20 <= c <= 0x3F {
        if escapeLen < PARAMS_MAX {
          escapeParams[escapeLen] := c;
          escapeLen := escapeLen + 1;
          assert escapeParams[..escapeLen] == old(escapeParams[..escapeLen]) + [c];
        } else {
          escapeLong := true;
        }
        return;
      }
      escapeIntro := 0;
      if c < 0x40 || c > 0x7E {
        first := this.DecodeBegin(c);
        return;
      }
      if escapeLong {
        return;
      }
      first := SequenceKey(intro, escapeParams[..escapeLen], c);
    }

    method Finish() returns (last: Input)
      requires Valid()
      modifies this
      ensures Valid() && Remembered().Idle()
      ensures last == Flush(old(Remembered()))
    {
      if rawLen > 0 {
        rawLen := 0;
        return Rune(RUNE_ERROR);
      }
      var intro := escapeIntro;
      escapeIntro := 0;
      last := if intro == ESC then Escape else Nothing;
    }
  }

  // ----- whole streams -----

  function Shown(i: Input): seq<Input> {
    if i == Nothing then [] else [i]
  }

  /** What one byte brings out: at most two events. */
  function Emitted(m: Memory, c: Byte): (events: seq<Input>)
    ensures |events| <= 2
  {
    var (_, first, next) := Step(m, c);
    Shown(first) + Shown(next)
  }

  /** The memory after a stream of bytes, and the events it produced. */
  function Feed(m: Memory, bytes: seq<Byte>): (Memory, seq<Input>)
    decreases |bytes|
  {
    if bytes == [] then (m, [])
    else
      var (m', rest) := Feed(Step(m, bytes[0]).0, bytes[1..]);
      (m', Emitted(m, bytes[0]) + rest)
  }

  lemma {:induction false} FeedConcat(m: Memory, a: seq<Byte>, b: seq<Byte>)
    ensures Feed(m, a + b) == (Feed(Feed(m, a).0, b).0, Feed(m, a).1 + Feed(Feed(m, a).0, b).1)
    decreases |a|
  {
    if a == [] {
      assert a + b == b;
      assert [] + Feed(m, b).1 == Feed(m, b).1;
    } else {
      var m1, head := Step(m, a[0]).0, Emitted(m, a[0]);
      assert (a + b)[1..] == a[1..] + b;
      FeedConcat(m1, a[1..], b);
      Associates(head, Feed(m1, a[1..]).1, Feed(Feed(m1, a[1..]).0, b).1);
    }
  }

  lemma StepValid(m: Memory, c: Byte)
    requires m.Valid()
    ensures Step(m, c).0.Valid()
  {
  }

  lemma {:induction false} FeedValid(m: Memory, bytes: seq<Byte>)
    requires m.Valid()
    ensures Feed(m, bytes).0.Valid()
    decreases |bytes|
  {
    if bytes != [] {
      StepValid(m, bytes[0]);
      FeedValid(Step(m, bytes[0]).0, bytes[1..]);
    }
  }

  /** What can arrive: a character; a complete terminal sequence; an Escape typed
      before a character; a sequence broken off by a character no sequence holds;
      and bytes that are no rune at all, alone, cut short by a character, or as
      many as their first promises and still none. */
  datatype Token =
    | Character(c: char)
    | CsiSequence(params: seq<Byte>, final: Byte)
    | Ss3Sequence(final: Byte)
    | Meta(c: char)
    | BrokenCsi(params: seq<Byte>, c: char)
    | BrokenSs3(c: char)
    | Stray(b: Byte)
    | Truncated(begun: seq<Byte>, c: char)
    | Malformed(bytes: seq<Byte>)
  {
    predicate WellFormed() {
      match this
      case Character(c) => c as int != 0x1B
      case CsiSequence(ps, f) => (forall i :: 0 <= i < |ps| ==> 0x20 <= ps[i] <= 0x3F) && 0x40 <= f <= 0x7E
      case Ss3Sequence(f) => 0x40 <= f <= 0x7E
      case Meta(c) => c !in {'[', 'O'} && c as int != 0x1B
      case BrokenCsi(ps, c) =>
        (forall i :: 0 <= i < |ps| ==> 0x20 <= ps[i] <= 0x3F) && !(0x20 <= c as int <= 0x7E) && c as int != 0x1B
      case BrokenSs3(c) => !(0x40 <= c as int <= 0x7E) && c as int != 0x1B
      case Stray(b) => b >= 0x80 && !(0xC2 <= b <= 0xF4)
      case Truncated(begun, c) => Begun(begun) && |begun| < LeadLen(begun[0]) && c as int != 0x1B
      case Malformed(bytes) => Begun(bytes) && |bytes| == LeadLen(bytes[0]) && DecodeRune(bytes).1 != |bytes|
    }

    function Bytes(): seq<Byte> {
      match this
      case Character(c) => EncodeRune(c)
      case CsiSequence(ps, f) => [0x1B, 0x5B] + ps + [f]
      case Ss3Sequence(f) => [0x1B, 0x4F, f]
      case Meta(c) => [0x1B] + EncodeRune(c)
      case BrokenCsi(ps, c) => [0x1B, 0x5B] + ps + EncodeRune(c)
      case BrokenSs3(c) => [0x1B, 0x4F] + EncodeRune(c)
      case Stray(b) => [b]
      case Truncated(begun, c) => begun + EncodeRune(c)
      case Malformed(bytes) => bytes
    }

    /** The events it must come out as. A sequence longer than the retained prefix
        is consumed whole and means nothing; one broken off is forgotten; and every
        bad run of bytes shows once. */
    function Events(): seq<Input> {
      match this
      case Character(c) => [Typed(c)]
      case CsiSequence(ps, f) =>
        if |ps| > 32 then []
        else if ps == [0x31, 0x31] && f == 0x7E then [Help]
        else if ps == [0x33] && f == 0x7E then [Delete]
        else if 0x41 <= f <= 0x44 then [Arrow(f)]
        else []
      case Ss3Sequence(f) => if f == 0x50 then [Help] else if 0x41 <= f <= 0x44 then [Arrow(f)] else []
      case Meta(c) => [Escape, Typed(c)]
      case BrokenCsi(_, c) => [Typed(c)]
      case BrokenSs3(c) => [Typed(c)]
      case Stray(_) => [Rune('\U{FFFD}')]
      case Truncated(_, c) => [Rune('\U{FFFD}'), Typed(c)]
      case Malformed(_) => [Rune('\U{FFFD}')]
    }
  }

  /** What a character is as a key. */
  function Typed(c: char): Input {
    if (c as int) < 0x20 || c as int == 0x7F then Control(c as int) else Rune(c)
  }

  /** A first byte that promises more, and nothing but continuations after it. */
  predicate Begun(bytes: seq<Byte>) {
    bytes != [] && 0xC2 <= bytes[0] <= 0xF4 && forall i :: 0 < i < |bytes| ==> 0x80 <= bytes[i] <= 0xBF
  }

  function WireOf(tokens: seq<Token>): seq<Byte> {
    if tokens == [] then [] else tokens[0].Bytes() + WireOf(tokens[1..])
  }

  function EventsOf(tokens: seq<Token>): seq<Input> {
    if tokens == [] then [] else tokens[0].Events() + EventsOf(tokens[1..])
  }

  /** From an idle decoder one encoded rune is one event and leaves it idle. */
  lemma CharacterRoundTrip(m: Memory, c: char)
    requires m.Valid() && m.Idle() && c as int != ESC
    ensures Feed(m, EncodeRune(c)).0.Valid() && Feed(m, EncodeRune(c)).0.Idle()
    ensures Feed(m, EncodeRune(c)).1 == [Typed(c)]
  {
    var e := EncodeRune(c);
    FeedValid(m, e);
    DecodeEncodeRune(c, []);
    assert e + [] == e;
    if |e| == 1 {
      assert e[1..] == [];
    } else {
      var m1 := Step(m, e[0]).0;
      assert m1.raw == [e[0]] && m1.want == |e|;
      FeedContinuations(m1, e, 1);
    }
  }

  /** Between a lead byte and its last continuation nothing comes out; the last
      one brings out the rune the bytes encode. */
  lemma {:induction false} FeedContinuations(m: Memory, e: seq<Byte>, k: nat)
    requires 0 < k < |e| && m.raw == e[..k] && m.want == |e| && m.intro == 0
    requires forall i :: 0 < i < |e| ==> IsContinuation(e[i])
    ensures Feed(m, e[k..]).1 == [Rune(if DecodeRune(e).1 == |e| then DecodeRune(e).0 else '\U{FFFD}')]
    ensures Feed(m, e[k..]).0.Idle()
    decreases |e| - k
  {
    assert m.raw + [e[k]] == e[..k + 1];
    assert e[k..][1..] == e[k + 1..];
    if k + 1 == |e| {
      assert e[..k + 1] == e;
      assert e[k + 1..] == [];
    } else {
      FeedContinuations(Step(m, e[k]).0, e, k + 1);
    }
  }

  /** A decoder inside a CSI sequence. */
  predicate InSequence(m: Memory) {
    m.raw == [] && m.intro == CSI && |m.params| <= PARAMS_MAX && (m.long ==> |m.params| == PARAMS_MAX)
  }

  function Param(m: Memory, p: Byte): Memory {
    if |m.params| < PARAMS_MAX then m.(params := m.params + [p]) else m.(long := true)
  }

  lemma StepParam(m: Memory, p: Byte)
    requires InSequence(m) && 0x20 <= p <= 0x3F
    ensures Step(m, p) == (Param(m, p), Nothing, Nothing) && InSequence(Param(m, p))
  {
    hide SequenceKey;
  }

  lemma StepFinal(m: Memory, f: Byte)
    requires m.raw == [] && m.intro in {CSI, SS3} && 0x40 <= f <= 0x7E
    ensures Step(m, f) == (m.(intro := 0), if m.long then Nothing else SequenceKey(m.intro, m.params, f), Nothing)
  {
    hide SequenceKey;
  }

  /** A byte that shows nothing. */
  lemma FeedSilent(m: Memory, c: Byte, rest: seq<Byte>)
    requires Step(m, c).1.Nothing? && Step(m, c).2.Nothing?
    ensures Feed(m, [c] + rest) == Feed(Step(m, c).0, rest)
  {
    hide Step;
    assert ([c] + rest)[1..] == rest;
    assert Emitted(m, c) == [];
    assert [] + Feed(Step(m, c).0, rest).1 == Feed(Step(m, c).0, rest).1;
  }

  /** The byte that ends a sequence. */
  lemma FeedFinal(m: Memory, f: Byte)
    requires m.raw == [] && m.intro in {CSI, SS3} && 0x40 <= f <= 0x7E
    ensures Feed(m, [f]) == (m.(intro := 0), Shown(if m.long then Nothing else SequenceKey(m.intro, m.params, f)))
  {
    hide Step, SequenceKey;
    StepFinal(m, f);
    assert [f][1..] == [];
    var shown := Shown(Step(m, f).1);
    assert shown + [] == shown;
  }

  function ParamsAfter(m: Memory, ps: seq<Byte>): Memory
    decreases |ps|
  {
    if ps == [] then m else ParamsAfter(Param(m, ps[0]), ps[1..])
  }

  /** Parameters are kept up to the bound, then only counted as too long. */
  lemma {:induction false} ParamsAre(m: Memory, ps: seq<Byte>)
    requires InSequence(m)
    ensures var t := ParamsAfter(m, ps);
            && InSequence(t)
            && (t.long <==> m.long || |m.params| + |ps| > 32)
            && (!t.long ==> t.params == m.params + ps)
    decreases |ps|
  {
    if ps == [] {
      assert m.params + ps == m.params;
    } else {
      ParamsAre(Param(m, ps[0]), ps[1..]);
      assert (m.params + [ps[0]]) + ps[1..] == m.params + ps;
    }
  }

  /** Parameter bytes are swallowed. */
  lemma {:induction false} FeedParams(m: Memory, ps: seq<Byte>, rest: seq<Byte>)
    requires InSequence(m) && forall i :: 0 <= i < |ps| ==> 0x20 <= ps[i] <= 0x3F
    ensures Feed(m, ps + rest) == Feed(ParamsAfter(m, ps), rest)
    decreases |ps|
  {
    hide Feed, Step;
    if ps == [] {
      assert ps + rest == rest;
    } else {
      assert ps + rest == [ps[0]] + (ps[1..] + rest);
      StepParam(m, ps[0]);
      FeedSilent(m, ps[0], ps[1..] + rest);
      FeedParams(Param(m, ps[0]), ps[1..], rest);
    }
  }

  /** A first byte that does the same from two memories, but for what it shows
      before. */
  lemma FeedFirst(m: Memory, n: Memory, bytes: seq<Byte>, shown: seq<Input>)
    requires bytes != [] && Step(m, bytes[0]).0 == Step(n, bytes[0]).0
    requires Emitted(m, bytes[0]) == shown + Emitted(n, bytes[0])
    ensures Feed(m, bytes) == (Feed(n, bytes).0, shown + Feed(n, bytes).1)
  {
    hide Step, Emitted;
    Associates(shown, Emitted(n, bytes[0]), Feed(Step(n, bytes[0]).0, bytes[1..]).1);
  }

  lemma SequenceRoundTrip(m: Memory, t: Token)
    requires m.Idle() && t.WellFormed() && (t.CsiSequence? || t.Ss3Sequence?)
    ensures Feed(m, t.Bytes()).0.Idle() && Feed(m, t.Bytes()).1 == t.Events()
  {
    hide Feed;
    var m1 := m.(intro := ESC, params := [], long := false);
    match t {
      case CsiSequence(ps, f) =>
        hide SequenceKey;
        assert t.Bytes() == [ESC] + ([CSI] + (ps + [f]));
        FeedSilent(m, ESC, [CSI] + (ps + [f]));
        FeedSilent(m1, CSI, ps + [f]);
        var m2 := m1.(intro := CSI);
        FeedParams(m2, ps, [f]);
        ParamsAre(m2, ps);
        FeedFinal(ParamsAfter(m2, ps), f);
        assert [] + ps == ps;
        CsiMeans(t, ps, f);
      case Ss3Sequence(f) =>
        assert t.Bytes() == [ESC] + ([SS3] + [f]);
        FeedSilent(m, ESC, [SS3] + [f]);
        FeedSilent(m1, SS3, [f]);
        FeedFinal(m1.(intro := SS3), f);
    }
  }

  lemma CsiMeans(t: Token, ps: seq<Byte>, f: Byte)
    requires t == CsiSequence(ps, f)
    ensures t.Events() == if |ps| > 32 then [] else Shown(SequenceKey(CSI, ps, f))
  {
  }

  /** An Escape shows itself before the character it was typed before. */
  lemma MetaRoundTrip(m: Memory, c: char)
    requires m.Valid() && m.Idle() && Meta(c).WellFormed()
    ensures Feed(m, Meta(c).Bytes()).0.Idle() && Feed(m, Meta(c).Bytes()).1 == [Escape, Typed(c)]
  {
    hide Feed;
    var m1 := m.(intro := ESC, params := [], long := false);
    var n, e := m1.(intro := 0), EncodeRune(c);
    FeedSilent(m, ESC, e);
    FirstByte(c);
    FeedFirst(m1, n, e, [Escape]);
    CharacterRoundTrip(n, c);
  }

  lemma FirstByte(c: char)
    ensures var b := EncodeRune(c)[0];
            if (c as int) < 0x80 then b == c as int else b >= 0xC0
  {
  }

  /** A character that no sequence holds ends it, unseen, and is itself seen. */
  lemma BrokenRoundTrip(m: Memory, c: char)
    requires m.Valid() && m.raw == [] && c as int != 0x1B
    requires (m.intro == CSI && !(0x20 <= c as int <= 0x7E)) || (m.intro == SS3 && !(0x40 <= c as int <= 0x7E))
    ensures Feed(m, EncodeRune(c)).0.Idle() && Feed(m, EncodeRune(c)).1 == [Typed(c)]
  {
    hide Feed;
    var n, e := m.(intro := 0), EncodeRune(c);
    FirstByte(c);
    assert [] + Emitted(n, e[0]) == Emitted(n, e[0]);
    FeedFirst(m, n, e, []);
    CharacterRoundTrip(n, c);
  }

  lemma BrokenSequence(m: Memory, t: Token)
    requires m.Valid() && m.Idle() && t.WellFormed() && (t.BrokenCsi? || t.BrokenSs3?)
    ensures Feed(m, t.Bytes()).0.Idle() && Feed(m, t.Bytes()).1 == t.Events()
  {
    hide Feed;
    var m1 := m.(intro := ESC, params := [], long := false);
    match t {
      case BrokenCsi(ps, c) =>
        assert t.Bytes() == [ESC] + ([CSI] + (ps + EncodeRune(c)));
        FeedSilent(m, ESC, [CSI] + (ps + EncodeRune(c)));
        FeedSilent(m1, CSI, ps + EncodeRune(c));
        var m2 := m1.(intro := CSI);
        FeedParams(m2, ps, EncodeRune(c));
        ParamsAre(m2, ps);
        BrokenRoundTrip(ParamsAfter(m2, ps), c);
      case BrokenSs3(c) =>
        assert t.Bytes() == [ESC] + ([SS3] + EncodeRune(c));
        FeedSilent(m, ESC, [SS3] + EncodeRune(c));
        FeedSilent(m1, SS3, EncodeRune(c));
        BrokenRoundTrip(m1.(intro := SS3), c);
    }
  }

  /** The beginning of a rune is held back whole. */
  lemma {:induction false} FeedBegun(m: Memory, begun: seq<Byte>, k: nat, rest: seq<Byte>)
    requires 0 < k <= |begun| < LeadLen(begun[0]) && Begun(begun)
    requires m.raw == begun[..k] && m.want == LeadLen(begun[0]) && m.intro == 0
    ensures Feed(m, begun[k..] + rest) == Feed(m.(raw := begun), rest)
    decreases |begun| - k
  {
    hide Feed;
    if k == |begun| {
      assert begun[..k] == begun && begun[k..] + rest == rest;
    } else {
      assert begun[k..] + rest == [begun[k]] + (begun[k + 1..] + rest);
      assert begun[..k] + [begun[k]] == begun[..k + 1];
      FeedSilent(m, begun[k], begun[k + 1..] + rest);
      FeedBegun(m.(raw := begun[..k + 1]), begun, k + 1, rest);
    }
  }

  /** A rune cut short shows once, and the character that cut it is seen. */
  lemma TruncatedRoundTrip(m: Memory, begun: seq<Byte>, c: char)
    requires m.Valid() && m.Idle() && Truncated(begun, c).WellFormed()
    ensures Feed(m, begun + EncodeRune(c)).0.Idle()
    ensures Feed(m, begun + EncodeRune(c)).1 == [Rune('\U{FFFD}'), Typed(c)]
  {
    hide Feed;
    var e := EncodeRune(c);
    var m1 := m.(want := LeadLen(begun[0]), raw := [begun[0]]);
    assert begun + e == [begun[0]] + (begun[1..] + e);
    FeedSilent(m, begun[0], begun[1..] + e);
    assert begun[..1] == [begun[0]];
    FeedBegun(m1, begun, 1, e);
    var m2, n := m1.(raw := begun), m1.(raw := []);
    RuneShape(c);
    FeedFirst(m2, n, e, [Rune('\U{FFFD}')]);
    CharacterRoundTrip(n, c);
  }

  /** As many bytes as the first promised, and no rune: they show once. */
  lemma MalformedRoundTrip(m: Memory, bytes: seq<Byte>)
    requires m.Valid() && m.Idle() && Malformed(bytes).WellFormed()
    ensures Feed(m, bytes).0.Idle() && Feed(m, bytes).1 == [Rune('\U{FFFD}')]
  {
    hide Feed;
    var m1 := m.(want := LeadLen(bytes[0]), raw := [bytes[0]]);
    assert bytes == [bytes[0]] + bytes[1..] && bytes[..1] == [bytes[0]];
    FeedSilent(m, bytes[0], bytes[1..]);
    FeedContinuations(m1, bytes, 1);
  }

  lemma StrayRoundTrip(m: Memory, b: Byte)
    requires m.Idle() && Stray(b).WellFormed()
    ensures Feed(m, [b]).0.Idle() && Feed(m, [b]).1 == [Rune('\U{FFFD}')]
  {
    assert [b][1..] == [];
  }

  lemma TokenRoundTrip(m: Memory, t: Token)
    requires m.Valid() && m.Idle() && t.WellFormed()
    ensures Feed(m, t.Bytes()).0.Valid() && Feed(m, t.Bytes()).0.Idle()
    ensures Feed(m, t.Bytes()).1 == t.Events()
  {
    hide Feed, Begun, Typed;
    FeedValid(m, t.Bytes());
    match t {
      case Character(c) => CharacterRoundTrip(m, c);
      case CsiSequence(_, _) => SequenceRoundTrip(m, t);
      case Ss3Sequence(_) => SequenceRoundTrip(m, t);
      case Meta(c) => MetaRoundTrip(m, c);
      case BrokenCsi(_, _) => BrokenSequence(m, t);
      case BrokenSs3(_) => BrokenSequence(m, t);
      case Stray(b) => StrayRoundTrip(m, b);
      case Truncated(begun, c) => TruncatedRoundTrip(m, begun, c);
      case Malformed(bytes) => MalformedRoundTrip(m, bytes);
    }
  }

  /** Any stream of them comes out as exactly its events, in order: no report leaks
      into the text, no text is lost to a report or to bytes that are none. */
  lemma {:induction false} StreamRoundTrip(m: Memory, tokens: seq<Token>)
    requires m.Valid() && m.Idle() && forall i :: 0 <= i < |tokens| ==> tokens[i].WellFormed()
    ensures Feed(m, WireOf(tokens)).0.Valid() && Feed(m, WireOf(tokens)).0.Idle()
    ensures Feed(m, WireOf(tokens)).1 == EventsOf(tokens)
    decreases |tokens|
  {
    if tokens != [] {
      TokenRoundTrip(m, tokens[0]);
      FeedConcat(m, tokens[0].Bytes(), WireOf(tokens[1..]));
      StreamRoundTrip(Feed(m, tokens[0].Bytes()).0, tokens[1..]);
    }
  }

  function Characters(text: string): seq<Token> {
    seq(|text|, i requires 0 <= i < |text| => Character(text[i]))
  }

  /** The UTF-8 encoding of any text without Escape decodes to exactly its runes
      and controls. */
  lemma TextRoundTrip(m: Memory, text: string)
    requires m.Valid() && m.Idle() && forall i :: 0 <= i < |text| ==> text[i] as int != 0x1B
    ensures Feed(m, Encode(text)).0.Idle()
    ensures Feed(m, Encode(text)).1 == seq(|text|, i requires 0 <= i < |text| => Typed(text[i]))
  {
    StreamRoundTrip(m, Characters(text));
    WireOfCharacters(text);
    EventsOfCharacters(text);
  }

  lemma {:induction false} WireOfCharacters(text: string)
    ensures WireOf(Characters(text)) == Encode(text)
  {
    if text != [] {
      assert Characters(text)[1..] == Characters(text[1..]);
      WireOfCharacters(text[1..]);
    }
  }

  lemma {:induction false} EventsOfCharacters(text: string)
    ensures EventsOf(Characters(text)) == seq(|text|, i requires 0 <= i < |text| => Typed(text[i]))
  {
    if text != [] {
      assert Characters(text)[1..] == Characters(text[1..]);
      EventsOfCharacters(text[1..]);
    }
  }

  // ----- keys that must never be swallowed -----

  /** Enter, Ctrl+C, Ctrl+D, backspace and every other control but Escape. */
  predicate IsKey(c: Byte) {
    c != 0x1B && (c < 0x20 || c == 0x7F)
  }

  /** From every reachable state — mid-rune, mid-sequence, past a malformed
      byte — a control comes out as that control, last, and at most one event
      (the broken rune, or the bare Escape) comes out before it. */
  lemma KeyAlwaysComesOut(m: Memory, c: Byte)
    requires m.Valid() && IsKey(c)
    ensures Feed(m, [c]).1 == Shown(Flush(m)) + [Control(c)]
    ensures Shown(Flush(m)) == if m.raw != [] then [Rune('\U{FFFD}')] else if m.intro == 0x1B then [Escape] else []
    ensures Feed(m, [c]).0.Idle() && Feed(m, [c]).0.Valid()
  {
    assert [c][1..] == [];
    StepValid(m, c);
  }

  lemma KeyThenStream(m: Memory, a: seq<Byte>, b: seq<Byte>, c: seq<Byte>)
    ensures Feed(m, a + b + c).1
         == Feed(m, a).1 + Feed(Feed(m, a).0, b).1 + Feed(Feed(Feed(m, a).0, b).0, c).1
  {
    FeedConcat(m, a, b);
    FeedConcat(m, a + b, c);
  }

  /** So a control resynchronises the stream: whatever bytes came before it,
      what follows it is decoded as if nothing had. */
  lemma ResynchronisesAfterKey(m: Memory, garbage: seq<Byte>, c: Byte, tokens: seq<Token>)
    requires m.Valid() && IsKey(c) && forall i :: 0 <= i < |tokens| ==> tokens[i].WellFormed()
    ensures Feed(m, garbage + [c] + WireOf(tokens)).1
         == Feed(m, garbage).1 + Shown(Flush(Feed(m, garbage).0)) + [Control(c)] + EventsOf(tokens)
  {
    hide Feed, Flush, Memory.Valid, Memory.Idle, IsKey, Token.WellFormed, WireOf, EventsOf;
    FeedValid(m, garbage);
    var m1 := Feed(m, garbage).0;
    KeyAlwaysComesOut(m1, c);
    StreamRoundTrip(Feed(m1, [c]).0, tokens);
    KeyThenStream(m, garbage, [c], WireOf(tokens));
    Associates(Feed(m, garbage).1, Shown(Flush(m1)), [Control(c)]);
  }
}
