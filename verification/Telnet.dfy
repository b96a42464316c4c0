/** Telnet's in-band channel: the escaping writer and the size announcement on
    the console's side, the stripping reader on the daemon's
    (internal/cli/telnet.go, cmd/lotor/console.go). */
module Telnet {
  import opened Common

  // RFC 854 'TELNET COMMAND STRUCTURE', and the option of RFC 1073.
  const IAC: Byte := 255
  const WILL: Byte := 251
  const DONT: Byte := 254
  const SB: Byte := 250
  const SE: Byte := 240
  const NAWS: Byte := 31
  const SUB_MAX := 5

  // ----- the sender -----

  /** Application bytes as a telnet peer must see them: 0xFF doubled. */
  function Escaped(p: seq<Byte>): seq<Byte> {
    if p == [] then []
    else (if p[0] == IAC then [IAC, IAC] else [p[0]]) + Escaped(p[1..])
  }

  lemma {:induction false} EscapedConcat(a: seq<Byte>, b: seq<Byte>)
    ensures Escaped(a + b) == Escaped(a) + Escaped(b)
  {
    if a == [] {
      assert a + b == b;
    } else {
      assert (a + b)[1..] == a[1..] + b;
      EscapedConcat(a[1..], b);
    }
  }

  lemma {:induction false} EscapedPlain(a: seq<Byte>)
    requires IAC !in a
    ensures Escaped(a) == a
  {
    if a != [] {
      EscapedPlain(a[1..]);
    }
  }

  /** What of `q` fits in `room`. */
  function Cut(q: seq<Byte>, room: nat): seq<Byte> {
    q[..Min(room, |q|)]
  }

  /** The far end of a connection. It takes `room` more bytes and then refuses:
      a write that does not fit is cut short and reported. */
  class Wire {
    var bytes: seq<Byte>
    var room: nat

    constructor (room: nat)
      ensures bytes == [] && this.room == room
    {
      bytes, this.room := [], room;
    }

    method Write(q: seq<Byte>) returns (n: nat, ok: bool)
      modifies this
      ensures n == Min(old(room), |q|) && ok == (|q| <= old(room))
      ensures bytes == old(bytes) + q[..n] && room == old(room) - n
    {
      n := if |q| <= room then |q| else room;
      ok := n == |q|;
      bytes, room := bytes + q[..n], room - n;
    }
  }

  method IndexByte(p: seq<Byte>, b: Byte) returns (i: int)
    ensures -1 <= i < |p|
    ensures i == -1 ==> b !in p
    ensures i >= 0 ==> p[i] == b && b !in p[..i]
  {
    for k := 0 to |p|
      invariant b !in p[..k]
    {
      if p[k] == b {
        return k;
      }
      assert p[..k + 1] == p[..k] + [p[k]];
    }
    assert p[..|p|] == p;
    return -1;
  }

  class Escaper {
    const w: Wire

    constructor (w: Wire)
      ensures this.w == w
    {
      this.w := w;
    }

    /** A segment that ends in 0xFF, then the double of that byte. */
    method WriteSegment(piece: seq<Byte>) returns (ok: bool, ghost added: seq<Byte>)
      modifies w
      ensures w.bytes == old(w.bytes) + added && w.room == old(w.room) - |added|
      ensures added == Cut(piece + [IAC], old(w.room)) && ok == (|piece| + 1 <= old(w.room))
      ensures ok ==> added == piece + [IAC]
    {
      CutConcat(piece, [IAC], w.room);
      ghost var before := w.bytes;
      var n;
      n, ok := w.Write(piece);
      added := piece[..n];
      if ok {
        n, ok := w.Write([IAC]);
        added := piece + [IAC][..n];
        Associates(before, piece, [IAC][..n]);
      }
    }

    /** Writes up to each 0xFF inclusive, then its double. `added` is what
        reached the wire. */
    method Write(p0: seq<Byte>) returns (written: nat, ok: bool, ghost added: seq<Byte>)
      modifies w
      ensures w.bytes == old(w.bytes) + added && w.room == old(w.room) - |added|
      ensures Reported(p0, old(w.room), added, written, ok)
    {
      hide Escaped, Reported, Cut, SentSoFar;
      written := 0;
      added := [];
      var p := p0;
      ghost var bytes0, room0 := w.bytes, w.room;
      ghost var done := [];
      NothingSent(p0, room0);
      while |p| > 0
        invariant |done| == written && SentSoFar(p0, done, p, added, room0)
        invariant w.room == room0 - |added| && w.bytes == bytes0 + added
        decreases |p|
      {
        var i := IndexByte(p, IAC);
        if i < 0 {
          LastPiece(p0, done, p, added, room0);
          var n;
          n, ok := w.Write(p);
          Associates(bytes0, added, p[..n]);
          added, written := added + p[..n], written + n;
          return;
        }
        SegmentSent(p0, done, p, i, added, room0);
        ghost var more;
        ok, more := this.WriteSegment(p[..i + 1]);
        Associates(bytes0, added, more);
        added := added + more;
        if !ok {
          return;
        }
        done, written, p := done + p[..i + 1], written + i + 1, p[i + 1..];
      }
      Whole(p0, done, added, room0);
      ok := true;
    }
  }

  /** What an escaping write tells its caller: `added` reached the wire, which is
      the escaped form cut at the wire's room, and `written` counts no byte whose
      escaped form is not wholly there. */
  ghost predicate Reported(p: seq<Byte>, room: nat, added: seq<Byte>, written: nat, ok: bool) {
    && added == Cut(Escaped(p), room)
    && ok == (|Escaped(p)| <= room)
    && written <= |p|
    && (ok ==> written == |p|)
    && |Escaped(p[..written])| <= room
  }

  /** What is known between two segments. */
  ghost predicate SentSoFar(p0: seq<Byte>, done: seq<Byte>, p: seq<Byte>, added: seq<Byte>, room: nat) {
    p0 == done + p && added == Escaped(done) && |added| <= room
  }

  lemma NothingSent(p0: seq<Byte>, room: nat)
    ensures SentSoFar(p0, [], p0, [], room)
  {
    assert [] + p0 == p0;
  }

  lemma Whole(p0: seq<Byte>, done: seq<Byte>, added: seq<Byte>, room: nat)
    requires SentSoFar(p0, done, [], added, room)
    ensures Reported(p0, room, added, |done|, true)
  {
    assert done == p0 == p0[..|done|];
  }

  lemma EscapedEndingIac(head: seq<Byte>)
    requires IAC !in head
    ensures Escaped(head + [IAC]) == head + [IAC, IAC]
  {
    EscapedPlain(head);
    assert [IAC][1..] == [];
    assert Escaped([IAC]) == [IAC, IAC];
    EscapedConcat(head, [IAC]);
  }

  /** Up to and including the next 0xFF, escaping only doubles that last byte. */
  lemma EscapedSegment(done: seq<Byte>, head: seq<Byte>, tail: seq<Byte>)
    requires IAC !in head
    ensures Escaped(done + (head + [IAC])) == Escaped(done) + (head + [IAC, IAC])
    ensures Escaped((done + (head + [IAC])) + tail) == (Escaped(done) + (head + [IAC, IAC])) + Escaped(tail)
  {
    EscapedEndingIac(head);
    EscapedConcat(done, head + [IAC]);
    EscapedConcat(done + (head + [IAC]), tail);
  }

  /** With no 0xFF left, the rest travels as it is. */
  lemma EscapedRest(done: seq<Byte>, rest: seq<Byte>)
    requires IAC !in rest
    ensures Escaped(done + rest) == Escaped(done) + rest
  {
    EscapedConcat(done, rest);
    EscapedPlain(rest);
  }

  lemma CutConcat(a: seq<Byte>, b: seq<Byte>, room: nat)
    ensures Cut(a + b, room) == if room <= |a| then a[..room] else a + Cut(b, room - |a|)
  {
  }

  /** What a wire too short for a segment and its doubled byte is left with. */
  lemma CutInSegment(all: seq<Byte>, sent: seq<Byte>, piece: seq<Byte>, rest: seq<Byte>, room: nat)
    requires all == (sent + (piece + [IAC])) + rest && |sent| <= room <= |sent| + |piece|
    ensures Cut(all, room) == sent + Cut(piece + [IAC], room - |sent|) && room < |all|
  {
    CutConcat(sent + (piece + [IAC]), rest, room);
  }

  lemma SegmentShape(done: seq<Byte>, piece: seq<Byte>, tail: seq<Byte>)
    requires piece != [] && piece[|piece| - 1] == IAC && IAC !in piece[..|piece| - 1]
    ensures Escaped(done + piece) == Escaped(done) + (piece + [IAC])
    ensures Escaped((done + piece) + tail) == (Escaped(done) + (piece + [IAC])) + Escaped(tail)
  {
    var head := piece[..|piece| - 1];
    assert piece == head + [IAC];
    assert head + [IAC, IAC] == piece + [IAC];
    EscapedSegment(done, head, tail);
  }

  /** One segment more: what is known when it reached the wire whole, and what
      is reported when the wire is too short for it. */
  lemma SegmentSent(p0: seq<Byte>, done: seq<Byte>, p: seq<Byte>, i: nat, added: seq<Byte>, room: nat)
    requires SentSoFar(p0, done, p, added, room) && i < |p| && p[i] == IAC && IAC !in p[..i]
    ensures |added| <= room
    ensures var piece := p[..i + 1];
            if |added| + |piece| < room then SentSoFar(p0, done + piece, p[i + 1..], added + (piece + [IAC]), room)
            else Reported(p0, room, added + Cut(piece + [IAC], room - |added|), |done|, |added| + |piece| < room)
  {
    hide Escaped, Cut;
    var piece, tail := p[..i + 1], p[i + 1..];
    assert piece[..i] == p[..i] && p == piece + tail;
    Associates(done, piece, tail);
    SegmentShape(done, piece, tail);
    if room <= |added| + |piece| {
      assert p0[..|done|] == done;
      CutInSegment(Escaped(p0), added, piece, Escaped(tail), room);
    }
  }

  lemma LastPiece(p0: seq<Byte>, done: seq<Byte>, p: seq<Byte>, added: seq<Byte>, room: nat)
    requires SentSoFar(p0, done, p, added, room) && IAC !in p
    ensures |added| <= room
    ensures var n := Min(room - |added|, |p|);
            Reported(p0, room, added + p[..n], |done| + n, |p| <= room - |added|)
  {
    hide Escaped, Cut;
    var n := Min(room - |added|, |p|);
    EscapedRest(done, p);
    EscapedRest(done, p[..n]);
    assert p0[..|done| + n] == done + p[..n];
    CutConcat(added, p, room);
    CutAt(p, room - |added|);
  }

  lemma CutAt(p: seq<Byte>, room: nat)
    ensures Cut(p, room) == p[..Min(room, |p|)]
    ensures room == 0 ==> Cut(p, room) == []
  {
  }

  /** A terminal dimension as sixteen bits, both ends clamped. */
  function Clamp16(v: int): (r: nat)
    ensures r < 65536
  {
    Max(0, Min(v, 65535))
  }

  function Dimensions(width: int, height: int): seq<Byte> {
    [Clamp16(width) / 256, Clamp16(width) % 256, Clamp16(height) / 256, Clamp16(height) % 256]
  }

  function SizeFrame(width: int, height: int): seq<Byte> {
    [IAC, WILL, NAWS, IAC, SB, NAWS] + Escaped(Dimensions(width, height)) + [IAC, SE]
  }

  method SendTerminalSize(w: Wire, width: int, height: int) returns (ok: bool)
    modifies w
    ensures w.bytes == old(w.bytes) + Cut(SizeFrame(width, height), old(w.room))
    ensures w.room == old(w.room) - Min(old(w.room), |SizeFrame(width, height)|)
    ensures ok == (|SizeFrame(width, height)| <= old(w.room))
  {
    var dimensions := Dimensions(width, height);
    var prelude := new Wire(8 + 2 * |dimensions|);
    var n;
    n, ok := prelude.Write([IAC, WILL, NAWS, IAC, SB, NAWS]);
    var e := new Escaper(prelude);
    EscapedLength(dimensions);
    ghost var added;
    n, ok, added := e.Write(dimensions);
    n, ok := prelude.Write([IAC, SE]);
    assert prelude.bytes == SizeFrame(width, height);
    n, ok := w.Write(prelude.bytes);
  }

  lemma {:induction false} EscapedLength(a: seq<Byte>)
    ensures |a| <= |Escaped(a)| <= 2 * |a|
  {
    if a != [] {
      EscapedLength(a[1..]);
    }
  }

  // ----- the receiver -----

  /** binary.BigEndian.Uint16. */
  function BigEndian(hi: int, lo: int): int {
    hi * 256 + lo
  }

  datatype Phase = Normal | AfterIac | Option | Subneg | SubnegIac

  /** What the stripper remembers: the block being drained (`overlong` once it
      cannot be a size any more), the size held, and every size announced to the
      session, oldest first. */
  datatype Stripping = Stripping(phase: Phase, body: seq<Byte>, overlong: bool,
                                 width: nat, height: nat, hasSize: bool, announced: seq<(nat, nat)>)
  {
    function Absorb(b: Byte): Stripping {
      if overlong then this
      else if |body| < SUB_MAX then this.(body := body + [b])
      else this.(body := [], overlong := true)
    }

    function ApplySize(): Stripping {
      if overlong || |body| != SUB_MAX || body[0] != NAWS then this
      else
        var (w, h) := (BigEndian(body[1], body[2]), BigEndian(body[3], body[4]));
        this.(width := w, height := h, hasSize := true, announced := announced + [(w, h)])
    }

    /** One byte of the wire: the memory after it, and what the application
        sees of it. */
    function Step(b: Byte): (Stripping, seq<Byte>) {
      match phase
      case Normal =>
        if b == IAC then (this.(phase := AfterIac), []) else (this, [b])
      case AfterIac =>
        if b == IAC then (this.(phase := Normal), [b])
        else if b == SB then (this.(phase := Subneg, body := [], overlong := false), [])
        else if WILL <= b <= DONT then (this.(phase := Option), [])
        else (this.(phase := Normal), [])
      case Option =>
        (this.(phase := Normal), [])
      case Subneg =>
        if b == IAC then (this.(phase := SubnegIac), []) else (Absorb(b), [])
      case SubnegIac =>
        if b == SE then (this.(phase := Normal).ApplySize(), [])
        else if b == IAC then (Absorb(b).(phase := Subneg), [])
        else (this.(phase := Subneg, body := [], overlong := true), [])
    }

    predicate Valid() {
      |body| <= SUB_MAX && (overlong ==> body == [])
    }
  }

  function StripAll(s: Stripping, wire: seq<Byte>): (Stripping, seq<Byte>)
    decreases |wire|
  {
    if wire == [] then (s, [])
    else
      var (s', kept) := s.Step(wire[0]);
      var (s'', rest) := StripAll(s', wire[1..]);
      (s'', kept + rest)
  }

  lemma {:induction false} StripConcat(s: Stripping, a: seq<Byte>, b: seq<Byte>)
    ensures StripAll(s, a + b)
         == (StripAll(StripAll(s, a).0, b).0, StripAll(s, a).1 + StripAll(StripAll(s, a).0, b).1)
    decreases |a|
  {
    if a == [] {
      assert a + b == b;
      assert [] + StripAll(s, b).1 == StripAll(s, b).1;
    } else {
      assert (a + b)[1..] == a[1..] + b;
      var (s', kept) := s.Step(a[0]);
      StripConcat(s', a[1..], b);
      Associates(kept, StripAll(s', a[1..]).1, StripAll(StripAll(s', a[1..]).0, b).1);
    }
  }

  lemma StripOne(s: Stripping, b: Byte)
    ensures StripAll(s, [b]) == s.Step(b)
  {
    assert [b][1..] == [];
    assert s.Step(b).1 + [] == s.Step(b).1;
  }

  lemma StripTwo(s: Stripping, a: Byte, b: Byte)
    ensures StripAll(s, [a, b]) == (s.Step(a).0.Step(b).0, s.Step(a).1 + s.Step(a).0.Step(b).1)
  {
    assert [a, b][1..] == [b];
    StripOne(s.Step(a).0, b);
  }

  /** The near end of a connection: what the peer sent and has not been read.
      A read returns any part of it, at least one byte while there is one. */
  class Source {
    var pending: seq<Byte>

    constructor (sent: seq<Byte>)
      ensures pending == sent
    {
      pending := sent;
    }

    method Read(max: nat) returns (chunk: seq<Byte>, eof: bool)
      requires max > 0
      modifies this
      ensures |chunk| <= max && old(pending) == chunk + pending
      ensures eof ==> pending == []
      ensures chunk == [] ==> eof
    {
      var n: nat :| n <= max && n <= |pending| && (n == 0 ==> pending == []);
      var early: bool := *;
      chunk, pending := pending[..n], pending[n..];
      eof := pending == [] && (n == 0 || early);
    }
  }

  datatype ReadResult = Data | SizeReceived | Eof

  class Stripper {
    const r: Source
    var state: Phase
    const subneg: array<Byte>
    var subLen: nat
    var width: nat
    var height: nat
    var hasSize: bool
    var probing: bool
    // The dimensions the resize handler has been called with.
    var announced: seq<(nat, nat)>

    ghost predicate Valid()
      reads this
    {
      subneg.Length == SUB_MAX && subLen <= SUB_MAX + 1
    }

    ghost function Held(): (s: Stripping)
      requires Valid()
      reads this, subneg
      ensures s.Valid()
    {
      Stripping(state, if subLen <= SUB_MAX then subneg[..subLen] else [], subLen > SUB_MAX,
                width, height, hasSize, announced)
    }

    constructor (r: Source)
      ensures Valid() && this.r == r && fresh(subneg)
      ensures Held() == Stripping(Normal, [], false, 0, 0, false, [])
    {
      this.r, state, subneg, subLen := r, Normal, new Byte[SUB_MAX](_ => 0), 0;
      width, height, hasSize, probing, announced := 0, 0, false, false, [];
    }

    /** Reads into `p` until something reaches the application, the stream ends,
        or — while the session is still choosing its mode — the first size
        arrives on its own. */
    method Read(p: array<Byte>) returns (n: nat, result: ReadResult)
      requires Valid() && p.Length > 0 && p != subneg
      modifies this, subneg, r, p
      ensures Valid() && probing == old(probing)
      ensures n <= p.Length && |r.pending| <= |old(r.pending)|
      ensures var consumed := |old(r.pending)| - |r.pending|;
              && r.pending == old(r.pending)[consumed..]
              && (Held(), p[..n]) == StripAll(old(Held()), old(r.pending)[..consumed])
      ensures result.Data? ==> n > 0
      ensures result.Eof? ==> r.pending == []
      ensures result.SizeReceived? <==> probing && !old(hasSize) && hasSize
    {
      hide StripAll, Stripping.Step;
      ghost var all := r.pending;
      ghost var before := Held();
      n := 0;
      ghost var c: nat := 0;
      StripNothing(before);
      while true
        invariant Valid() && probing == old(probing) && n == 0
        invariant c <= |all| && r.pending == all[c..]
        invariant (Held(), []) == StripAll(before, all[..c])
        invariant probing && hasSize ==> before.hasSize
        invariant before.hasSize ==> hasSize
        decreases |r.pending|
      {
        var buf, eof := r.Read(p.Length);
        var hadSize := hasSize;
        var out := this.StripInto(buf, p);
        assert all[..c + |buf|] == all[..c] + buf;
        StripConcat(before, all[..c], buf);
        assert [] + p[..out] == p[..out];
        c := c + |buf|;
        if probing && !hadSize && hasSize {
          return out, SizeReceived;
        }
        if out > 0 || eof {
          return out, if eof then Eof else Data;
        }
        assert p[..out] == [];
      }
    }

    /** One chunk through the state machine, what survives kept at the front of
        the caller's buffer. */
    method StripInto(buf: seq<Byte>, p: array<Byte>) returns (out: nat)
      requires Valid() && p != subneg && |buf| <= p.Length
      modifies this, subneg, p
      ensures Valid() && probing == old(probing) && (old(hasSize) ==> hasSize)
      ensures out <= |buf| && (Held(), p[..out]) == StripAll(old(Held()), buf)
    {
      hide StripAll, Stripping.Step;
      ghost var start := Held();
      StripNothing(start);
      out := 0;
      for i := 0 to |buf|
        invariant Valid() && probing == old(probing) && (old(hasSize) ==> hasSize)
        invariant 0 <= out <= i
        invariant (Held(), p[..out]) == StripAll(start, buf[..i])
      {
        ghost var here, so := Held(), p[..out];
        var keep, b := this.Step(buf[i]);
        assert buf[..i + 1] == buf[..i] + [buf[i]];
        StripOne(here, buf[i]);
        StripConcat(start, buf[..i], [buf[i]]);
        if keep {
          p[out] := b;
          out := out + 1;
          assert p[..out] == so + [b];
        } else {
          assert so + [] == so;
        }
      }
      assert buf[..|buf|] == buf;
    }

    method Step(b: Byte) returns (keep: bool, c: Byte)
      requires Valid()
      modifies this, subneg
      ensures Valid() && probing == old(probing) && (old(hasSize) ==> hasSize)
      ensures (Held(), if keep then [c] else []) == old(Held()).Step(b)
    {
      keep, c := false, 0;
      match state {
        case Normal =>
          if b == IAC {
            state := AfterIac;
          } else {
            keep, c := true, b;
          }
        case AfterIac =>
          if b == IAC {
            state := Normal;
            keep, c := true, b;
          } else if b == SB {
            state := Subneg;
            subLen := 0;
          } else if WILL <= b <= DONT {
            state := Option;
          } else {
            state := Normal;
          }
        case Option =>
          state := Normal;
        case Subneg =>
          if b == IAC {
            state := SubnegIac;
          } else {
            this.SubByte(b);
          }
        case SubnegIac =>
          if b == SE {
            state := Normal;
            this.ApplySize();
          } else if b == IAC {
            this.SubByte(b);
            state := Subneg;
          } else {
            subLen := subneg.Length + 1;
            state := Subneg;
          }
      }
    }

    method ApplySize()
      requires Valid()
      modifies this
      ensures Valid() && probing == old(probing)
      ensures Held() == old(Held()).ApplySize() && (old(hasSize) ==> hasSize)
    {
      if subLen != subneg.Length || subneg[0] != NAWS {
        return;
      }
      assert subneg[..subLen][0] == subneg[0];
      width := BigEndian(subneg[1], subneg[2]);
      height := BigEndian(subneg[3], subneg[4]);
      hasSize := true;
      announced := announced + [(width, height)];
    }

    method SubByte(b: Byte)
      requires Valid()
      modifies this, subneg
      ensures Valid() && probing == old(probing)
      ensures Held() == old(Held()).Absorb(b) && hasSize == old(hasSize)
    {
      if subLen < subneg.Length {
        subneg[subLen] := b;
        assert subneg[..subLen + 1] == old(subneg[..subLen]) + [b];
      }
      if subLen <= subneg.Length {
        subLen := subLen + 1;
      }
    }
  }

  // ----- both ends together -----

  /** What a peer may put on the wire, frame by frame: a whole application write
      and a whole size announcement are the console's own; any telnet client may
      also answer an option, give a two-byte command, or send a block of an option
      nobody asked for, or of none, with or without a stray command inside. */
  datatype Frame =
    | Application(bytes: seq<Byte>)
    | Size(width: int, height: int)
    | Negotiation(command: Byte, option: Byte)
    | Command(command: Byte)
    | Block(body: seq<Byte>)
    | Garbled(body: seq<Byte>, stray: Byte, rest: seq<Byte>)
  {
    /** The four option commands, the commands that are none of them and open no
        block, and those that neither end a block nor stand for a byte in it. */
    predicate WellFormed() {
      match this
      case Negotiation(c, _) => 251 <= c <= 254
      case Command(c) => c < 250
      case Garbled(_, c, _) => c != 240 && c != 255
      case _ => true
    }

    function Bytes(): seq<Byte> {
      match this
      case Application(p) => Escaped(p)
      case Size(w, h) => SizeFrame(w, h)
      case Negotiation(c, o) => [255, c, o]
      case Command(c) => [255, c]
      case Block(body) => [255, 250] + Escaped(body) + [255, 240]
      case Garbled(body, c, rest) => [255, 250] + Escaped(body) + [255, c] + Escaped(rest) + [255, 240]
    }

    /** The size it announces, if it announces one: the console's, each dimension
        held to sixteen bits, or that of any window-size block of five bytes. */
    function Announces(): seq<(nat, nat)> {
      match this
      case Size(w, h) =>
        [(if w < 0 then 0 else if w > 65535 then 65535 else w, if h < 0 then 0 else if h > 65535 then 65535 else h)]
      case Block(body) =>
        if |body| == 5 && body[0] == 31 then [WindowSize(body)] else []
      case _ => []
    }
  }

  /** A window-size block's two dimensions, high byte first. */
  function WindowSize(body: seq<Byte>): (nat, nat)
    requires |body| == 5
  {
    (body[1] as int * 256 + body[2] as int, body[3] as int * 256 + body[4] as int)
  }

  function WireOf(frames: seq<Frame>): seq<Byte> {
    if frames == [] then [] else frames[0].Bytes() + WireOf(frames[1..])
  }

  /** Every application byte sent, in order. */
  function Delivered(frames: seq<Frame>): seq<Byte> {
    if frames == [] then []
    else (if frames[0].Application? then frames[0].bytes else []) + Delivered(frames[1..])
  }

  /** Every size announced, in order. */
  function Sizes(frames: seq<Frame>): seq<(nat, nat)> {
    if frames == [] then [] else frames[0].Announces() + Sizes(frames[1..])
  }

  ghost predicate WellFormed(frames: seq<Frame>) {
    forall i :: 0 <= i < |frames| ==> frames[i].WellFormed()
  }

  /** A memory between two frames, with the size it holds being the last one it
      announced. */
  predicate Settled(s: Stripping) {
    && s.phase == Normal
    && (s.hasSize <==> s.announced != [])
    && (s.hasSize ==> (s.width, s.height) == s.announced[|s.announced| - 1])
  }

  lemma {:induction false} EscapedStripsBack(s: Stripping, p: seq<Byte>)
    requires s.phase == Normal
    ensures StripAll(s, Escaped(p)) == (s, p)
    decreases |p|
  {
    if p != [] {
      EscapedStripsBack(s, p[1..]);
      var head := if p[0] == IAC then [IAC, IAC] else [p[0]];
      StripTwo(s, IAC, IAC);
      StripOne(s, p[0]);
      assert s.(phase := AfterIac).(phase := Normal) == s;
      assert [] + [IAC] == [IAC];
      assert StripAll(s, head) == (s, [p[0]]);
      StripConcat(s, head, Escaped(p[1..]));
      assert [p[0]] + p[1..] == p;
    }
  }

  // ----- blocks and commands -----

  lemma SilentConcat(s: Stripping, a: seq<Byte>, b: seq<Byte>)
    requires StripAll(s, a).1 == []
    ensures StripAll(s, a + b) == StripAll(StripAll(s, a).0, b)
  {
    hide StripAll;
    StripConcat(s, a, b);
    assert [] + StripAll(StripAll(s, a).0, b).1 == StripAll(StripAll(s, a).0, b).1;
  }

  lemma SilentTwo(s: Stripping, a: Byte, b: Byte)
    requires s.Step(a).1 == [] && s.Step(a).0.Step(b).1 == []
    ensures StripAll(s, [a, b]) == (s.Step(a).0.Step(b).0, [])
  {
    hide StripAll, Stripping.Step;
    StripTwo(s, a, b);
    assert s.Step(a).1 + s.Step(a).0.Step(b).1 == [];
  }

  function Drained(s: Stripping, p: seq<Byte>): Stripping
    decreases |p|
  {
    if p == [] then s else Drained(s.Absorb(p[0]), p[1..])
  }

  /** Five bytes of a block are kept, and of a longer one none. */
  lemma {:induction false} DrainedIs(s: Stripping, p: seq<Byte>)
    requires s.Valid()
    ensures !s.overlong && |s.body| + |p| <= 5 ==> Drained(s, p) == s.(body := s.body + p)
    ensures s.overlong || |s.body| + |p| > 5 ==> Drained(s, p) == s.(body := [], overlong := true)
    decreases |p|
  {
    if p == [] {
      assert s.body + p == s.body;
    } else {
      DrainedIs(s.Absorb(p[0]), p[1..]);
      assert (s.body + [p[0]]) + p[1..] == s.body + p;
    }
  }

  lemma OneAbsorbed(s: Stripping, b: Byte)
    requires s.phase == Subneg
    ensures StripAll(s, if b == IAC then [IAC, IAC] else [b]) == (s.Absorb(b), [])
  {
    hide StripAll;
    if b == IAC {
      SilentTwo(s, IAC, IAC);
      assert s.(phase := SubnegIac).Absorb(b).(phase := Subneg) == s.Absorb(b);
    } else {
      StripOne(s, b);
    }
  }

  /** Inside a block escaped bytes are drained as the bytes they stand for. */
  lemma {:induction false} EscapedDrained(s: Stripping, p: seq<Byte>)
    requires s.phase == Subneg
    ensures StripAll(s, Escaped(p)) == (Drained(s, p), [])
    decreases |p|
  {
    hide StripAll;
    if p == [] {
      StripNothing(s);
    } else {
      OneAbsorbed(s, p[0]);
      SilentConcat(s, if p[0] == IAC then [IAC, IAC] else [p[0]], Escaped(p[1..]));
      EscapedDrained(s.Absorb(p[0]), p[1..]);
    }
  }

  /** So what fits the block's five bytes is kept as it was meant. */
  lemma EscapedAbsorbed(s: Stripping, p: seq<Byte>)
    requires s.phase == Subneg && !s.overlong && |s.body| + |p| <= SUB_MAX
    ensures StripAll(s, Escaped(p)) == (s.(body := s.body + p), [])
  {
    EscapedDrained(s, p);
    DrainedIs(s, p);
  }

  /** A block read to its end: a size if it is five bytes and the first is the
      window-size option, and otherwise nothing. */
  ghost predicate BlockRead(s: Stripping, body: seq<Byte>, s': Stripping) {
    && s'.phase == Normal
    && if |body| == 5 && body[0] == 31 then
         && (s'.width, s'.height) == WindowSize(body) && s'.hasSize
         && s'.announced == s.announced + [WindowSize(body)]
       else
         s'.width == s.width && s'.height == s.height && s'.hasSize == s.hasSize && s'.announced == s.announced
  }

  lemma OpenBlock(s: Stripping)
    requires s.phase == Normal
    ensures StripAll(s, [255, 250]) == (s.(phase := Subneg, body := [], overlong := false), [])
  {
    hide StripAll;
    SilentTwo(s, 255, 250);
  }

  lemma CloseBlock(s: Stripping)
    requires s.phase == Subneg
    ensures StripAll(s, [255, 240]) == (s.(phase := Normal).ApplySize(), [])
  {
    hide StripAll;
    SilentTwo(s, 255, 240);
    assert s.(phase := SubnegIac).(phase := Normal) == s.(phase := Normal);
  }

  lemma BlockReads(s: Stripping, body: seq<Byte>)
    requires s.phase == Normal
    ensures var (s', kept) := StripAll(s, [255, 250] + Escaped(body) + [255, 240]);
            kept == [] && BlockRead(s, body, s')
  {
    hide StripAll, Drained;
    var open := s.(phase := Subneg, body := [], overlong := false);
    OpenBlock(s);
    EscapedDrained(open, body);
    DrainedIs(open, body);
    assert [] + body == body;
    CloseBlock(Drained(open, body));
    SilentConcat(s, [255, 250], Escaped(body));
    SilentConcat(s, [255, 250] + Escaped(body), [255, 240]);
  }

  /** A stray command inside a block and it is no size any more. */
  lemma GarbledReads(s: Stripping, body: seq<Byte>, stray: Byte, rest: seq<Byte>)
    requires s.phase == Normal && stray != 240 && stray != 255
    ensures var (s', kept) := StripAll(s, [255, 250] + Escaped(body) + [255, stray] + Escaped(rest) + [255, 240]);
            kept == [] && BlockRead(s, [], s')
  {
    hide StripAll, Drained;
    var open := s.(phase := Subneg, body := [], overlong := false);
    OpenBlock(s);
    EscapedDrained(open, body);
    DrainedIs(open, body);
    var held := Drained(open, body);
    var spoiled := held.(body := [], overlong := true);
    SilentTwo(held, 255, stray);
    assert held.(phase := SubnegIac).(phase := Subneg, body := [], overlong := true) == spoiled;
    EscapedDrained(spoiled, rest);
    DrainedIs(spoiled, rest);
    CloseBlock(spoiled);
    SilentConcat(s, [255, 250], Escaped(body));
    SilentConcat(s, [255, 250] + Escaped(body), [255, stray]);
    SilentConcat(s, [255, 250] + Escaped(body) + [255, stray], Escaped(rest));
    SilentConcat(s, [255, 250] + Escaped(body) + [255, stray] + Escaped(rest), [255, 240]);
  }

  /** An option answered, whichever and however, is dropped with its command, and
      leaves no trace; so is any two-byte command. */
  lemma NegotiationIsDropped(s: Stripping, command: Byte, option: Byte)
    requires s.phase == Normal && 251 <= command <= 254
    ensures StripAll(s, [255, command, option]) == (s, [])
  {
    hide StripAll;
    SilentTwo(s, 255, command);
    StripOne(s.(phase := Option), option);
    SilentConcat(s, [255, command], [option]);
    assert [255, command] + [option] == [255, command, option];
    assert s.(phase := AfterIac).(phase := Option) == s.(phase := Option);
  }

  lemma CommandIsDropped(s: Stripping, command: Byte)
    requires s.phase == Normal && command < 250
    ensures StripAll(s, [255, command]) == (s, [])
  {
    hide StripAll;
    SilentTwo(s, 255, command);
    assert s.(phase := AfterIac).(phase := Normal) == s;
  }

  lemma SizeFrameApplies(s: Stripping, width: int, height: int)
    requires s.phase == Normal
    ensures var (s', kept) := StripAll(s, SizeFrame(width, height));
            var (w, h) := Size(width, height).Announces()[0];
            && kept == [] && s'.phase == Normal
            && s'.width == w && s'.height == h && s'.hasSize
            && s'.announced == s.announced + [(w, h)]
  {
    hide StripAll;
    var d := Dimensions(width, height);
    NegotiationIsDropped(s, 251, 31);
    BlockReads(s, [31] + d);
    EscapedConcat([31], d);
    assert Escaped([31]) == [31] by {
      EscapedPlain([31]);
    }
    assert SizeFrame(width, height) == [255, 251, 31] + ([255, 250] + Escaped([31] + d) + [255, 240]);
    SilentConcat(s, [255, 251, 31], [255, 250] + Escaped([31] + d) + [255, 240]);
  }

  /** Any interleaving of writes, size announcements, option answers, commands and
      blocks is stripped back to exactly the application bytes, every size is
      announced once in order, and the size held is the last one. */
  lemma {:induction false} FramesRoundTrip(s: Stripping, frames: seq<Frame>)
    requires Settled(s) && WellFormed(frames)
    ensures var (s', kept) := StripAll(s, WireOf(frames));
            Settled(s') && kept == Delivered(frames) && s'.announced == s.announced + Sizes(frames)
    decreases |frames|
  {
    hide StripAll, Stripping.Step, Settled, Frame.Bytes, Frame.Announces;
    if frames == [] {
      StripNothing(s);
      assert s.announced + [] == s.announced;
    } else {
      var bytes := frames[0].Bytes();
      var s1 := StripAll(s, bytes).0;
      FrameRoundTrip(s, frames[0]);
      FramesRoundTrip(s1, frames[1..]);
      StripConcat(s, bytes, WireOf(frames[1..]));
      Associates(s.announced, frames[0].Announces(), Sizes(frames[1..]));
    }
  }

  lemma StripNothing(s: Stripping)
    ensures StripAll(s, []) == (s, [])
  {
  }

  lemma FrameRoundTrip(s: Stripping, f: Frame)
    requires Settled(s) && f.WellFormed()
    ensures var (s', kept) := StripAll(s, f.Bytes());
            && Settled(s')
            && kept == (if f.Application? then f.bytes else [])
            && s'.announced == s.announced + f.Announces()
  {
    hide StripAll, Escaped, SizeFrame;
    assert s.announced + [] == s.announced;
    match f {
      case Application(p) => EscapedStripsBack(s, p);
      case Size(w, h) => SizeFrameApplies(s, w, h);
      case Negotiation(c, o) => NegotiationIsDropped(s, c, o);
      case Command(c) => CommandIsDropped(s, c);
      case Block(body) => BlockReads(s, body);
      case Garbled(body, c, rest) => GarbledReads(s, body, c, rest);
    }
  }

  function Joined(chunks: seq<seq<Byte>>): seq<Byte> {
    if chunks == [] then [] else chunks[0] + Joined(chunks[1..])
  }

  /** The application bytes and the memory after reading chunk by chunk. */
  function StripChunks(s: Stripping, chunks: seq<seq<Byte>>): (Stripping, seq<Byte>)
    decreases |chunks|
  {
    if chunks == [] then (s, [])
    else
      var (s', kept) := StripAll(s, chunks[0]);
      var (s'', rest) := StripChunks(s', chunks[1..]);
      (s'', kept + rest)
  }

  lemma {:induction false} ChunksDoNotMatter(s: Stripping, chunks: seq<seq<Byte>>)
    ensures StripChunks(s, chunks) == StripAll(s, Joined(chunks))
    decreases |chunks|
  {
    if chunks != [] {
      StripConcat(s, chunks[0], Joined(chunks[1..]));
      ChunksDoNotMatter(StripAll(s, chunks[0]).0, chunks[1..]);
    }
  }

  /** The whole channel: however the wire's bytes are split into reads. */
  lemma SessionRoundTrip(s: Stripping, frames: seq<Frame>, chunks: seq<seq<Byte>>)
    requires Settled(s) && s.announced == [] && WellFormed(frames) && Joined(chunks) == WireOf(frames)
    ensures var (s', kept) := StripChunks(s, chunks);
            && kept == Delivered(frames)
            && s'.announced == Sizes(frames)
            && (Sizes(frames) != [] ==>
                  s'.hasSize && (s'.width, s'.height) == Sizes(frames)[|Sizes(frames)| - 1])
  {
    ChunksDoNotMatter(s, chunks);
    FramesRoundTrip(s, frames);
    assert [] + Sizes(frames) == Sizes(frames);
  }

  /** A connection that dies mid-frame has delivered a prefix of the application
      bytes and nothing else: no byte of a cut announcement leaks through. */
  lemma CutWireDeliversPrefix(s: Stripping, frames: seq<Frame>, sent: seq<Byte>)
    requires Settled(s) && WellFormed(frames) && sent <= WireOf(frames)
    ensures StripAll(s, sent).1 <= Delivered(frames)
    ensures StripAll(s, sent).0.announced <= s.announced + Sizes(frames)
  {
    var rest := WireOf(frames)[|sent|..];
    assert WireOf(frames) == sent + rest;
    StripConcat(s, sent, rest);
    FramesRoundTrip(s, frames);
    AnnouncedGrows(StripAll(s, sent).0, rest);
  }

  lemma {:induction false} AnnouncedGrows(s: Stripping, wire: seq<Byte>)
    ensures s.announced <= StripAll(s, wire).0.announced
    decreases |wire|
  {
    if wire != [] {
      AnnouncedGrows(s.Step(wire[0]).0, wire[1..]);
    }
  }

  /** The console's one writer: its lock makes every frame whole, so what is on
      the wire is always the frames so far, cut only by a dead connection. */
  class ConsoleWriter {
    const wire: Wire
    ghost var frames: seq<Frame>

    ghost predicate Valid()
      reads this, wire
    {
      wire.bytes <= WireOf(frames) && (wire.room > 0 ==> wire.bytes == WireOf(frames))
    }

    constructor (wire: Wire)
      requires wire.bytes == []
      ensures Valid() && this.wire == wire && frames == []
    {
      this.wire, frames := wire, [];
    }

    method Write(p: seq<Byte>) returns (n: nat, ok: bool)
      requires Valid()
      modifies this, wire
      ensures Valid() && frames == old(frames) + [Application(p)]
      ensures ok ==> n == |p| && |wire.bytes| == |old(wire.bytes)| + |Escaped(p)|
    {
      var e := new Escaper(wire);
      ghost var added;
      n, ok, added := e.Write(p);
      WireOfAppend(frames, Application(p));
      frames := frames + [Application(p)];
    }

    method TerminalSize(width: int, height: int) returns (ok: bool)
      requires Valid()
      modifies this, wire
      ensures Valid() && frames == old(frames) + [Size(width, height)]
      ensures ok ==> |wire.bytes| == |old(wire.bytes)| + |SizeFrame(width, height)|
    {
      ok := SendTerminalSize(wire, width, height);
      WireOfAppend(frames, Size(width, height));
      frames := frames + [Size(width, height)];
    }

    /** The resizer: one announcement per measured change. `measured` lists what
        each signal's measurement answered, None when it failed. */
    method Run(measured: seq<Option<(int, int)>>, initial: (int, int)) returns (last: (int, int))
      requires Valid()
      modifies this, wire
      ensures Valid() && old(frames) <= frames
      ensures forall i :: |old(frames)| <= i < |frames| ==> frames[i].Size?
      ensures var said := [Size(initial.0, initial.1)] + frames[|old(frames)|..];
              && (forall i :: 0 <= i < |said| - 1 ==> said[i] != said[i + 1])
              && said[|said| - 1] == Size(last.0, last.1)
    {
      hide WireOf, SizeFrame, Escaped;
      last := initial;
      for k := 0 to |measured|
        invariant Valid() && old(frames) <= frames
        invariant forall i :: |old(frames)| <= i < |frames| ==> frames[i].Size?
        invariant var said := [Size(initial.0, initial.1)] + frames[|old(frames)|..];
                  && (forall i :: 0 <= i < |said| - 1 ==> said[i] != said[i + 1])
                  && said[|said| - 1] == Size(last.0, last.1)
      {
        if measured[k].Some? && measured[k].value != last {
          ghost var said := [Size(initial.0, initial.1)] + frames[|old(frames)|..];
          var size := measured[k].value;
          var ok := this.TerminalSize(size.0, size.1);
          last := size;
          assert [Size(initial.0, initial.1)] + frames[|old(frames)|..] == said + [Size(size.0, size.1)];
          if !ok {
            return;
          }
        }
      }
    }
  }

  lemma {:induction false} WireOfAppend(frames: seq<Frame>, f: Frame)
    ensures WireOf(frames + [f]) == WireOf(frames) + f.Bytes()
  {
    if frames == [] {
      assert frames + [f] == [f];
      assert [f][1..] == [];
      assert f.Bytes() + [] == f.Bytes();
    } else {
      assert (frames + [f])[1..] == frames[1..] + [f];
      WireOfAppend(frames[1..], f);
    }
  }
}
