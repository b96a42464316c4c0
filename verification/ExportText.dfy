/** One object's configuration as a command line and back: the inline form, the
    base64 carrier, and the reading of either (internal/cli/tree.go). */
module ExportText {
  import opened Common
  import Utf8
  import opened Lexer
  import Base64

  type Pair = (string, string)

  const VERB_ADD: string := "add"
  const VERB_ADD64: string := "add64"
  const VERB_SET: string := "set"
  const VERB_SET64: string := "set64"

  predicate IsAddVerb(verb: string) {
    verb == VERB_ADD || verb == VERB_ADD64
  }

  function Carrier64(verb: string): string {
    if verb == VERB_ADD then VERB_ADD64 else VERB_SET64
  }

  function QuoteIfSpaced(s: string): string {
    if ' ' in s || '\t' in s then "\"" + s + "\"" else s
  }

  /** Whether the inline form carries a value safely: no quote, and nothing the
      terminal cannot show (`graphic` is unicode.IsGraphic). */
  predicate InlineRenderable(graphic: char -> bool, s: string) {
    QUOTE !in s && forall i :: 0 <= i < |s| ==> graphic(s[i])
  }

  function Base64Of(value: string): string {
    Base64.EncodeToString(Utf8.Encode(value))
  }

  // ----- writing -----

  /** The pairs as the line carries them, a space before each. */
  function PairsText(pairs: seq<Pair>): string {
    if pairs == [] then ""
    else PairsText(pairs[..|pairs| - 1]) + PairText(pairs[|pairs| - 1])
  }

  function PairText(p: Pair): string {
    " " + p.0 + "=" + p.1
  }

  /** The context, the verb and the name in the grammar's own order. */
  function HeadText(kind: string, verb: string, name: string): string {
    if name == "" then "/" + kind + " " + verb
    else if IsAddVerb(verb) then "/" + kind + " " + verb + " " + name
    else "/" + kind + " " + name + " " + verb
  }

  function LineText(kind: string, verb: string, name: string, pairs: seq<Pair>): string {
    HeadText(kind, verb, name) + PairsText(pairs)
  }

  lemma NoPairs()
    ensures PairsText([]) == ""
  {
  }

  lemma PairsTextSnoc(pairs: seq<Pair>, i: nat)
    requires i < |pairs|
    ensures PairsText(pairs[..i + 1]) == PairsText(pairs[..i]) + PairText(pairs[i])
  {
    assert pairs[..i + 1][..i] == pairs[..i];
  }

  predicate AllInline(graphic: char -> bool, raw: seq<Pair>) {
    forall i :: 0 <= i < |raw| ==> InlineRenderable(graphic, raw[i].1)
  }

  function Inlined(raw: seq<Pair>): seq<Pair> {
    seq(|raw|, i requires 0 <= i < |raw| => (raw[i].0, QuoteIfSpaced(raw[i].1)))
  }

  function Encoded(raw: seq<Pair>): seq<Pair> {
    seq(|raw|, i requires 0 <= i < |raw| => (raw[i].0, Base64Of(raw[i].1)))
  }

  /** The one line that recreates an object. */
  function ObjectText(graphic: char -> bool, kind: string, verb: string, name: string, raw: seq<Pair>): string {
    if AllInline(graphic, raw) then LineText(kind, verb, name, Inlined(raw))
    else LineText(kind, Carrier64(verb), name, Encoded(raw))
  }

  method ExportHead(kind: string, verb: string, name: string) returns (line: string)
    ensures line == HeadText(kind, verb, name)
  {
    line := "/" + kind;
    if name != "" && !IsAddVerb(verb) {
      line := line + " " + name;
    }
    line := line + " " + verb;
    if name != "" && IsAddVerb(verb) {
      line := line + " " + name;
    }
  }

  method ExportLine(kind: string, verb: string, name: string, pairs: seq<Pair>) returns (line: string)
    ensures line == LineText(kind, verb, name, pairs)
  {
    hide PairsText, PairText, HeadText;
    line := ExportHead(kind, verb, name);
    ghost var head := line;
    NoPairs();
    for i := 0 to |pairs|
      invariant line == head + PairsText(pairs[..i])
    {
      PairsTextSnoc(pairs, i);
      line := line + PairText(pairs[i]);
      assert line == head + (PairsText(pairs[..i]) + PairText(pairs[i]));
    }
    assert pairs[..|pairs|] == pairs;
  }

  method EmitObject(graphic: char -> bool, kind: string, verb: string, name: string, raw: seq<Pair>)
      returns (line: string)
    ensures line == ObjectText(graphic, kind, verb, name, raw)
  {
    var inline := true;
    var n := 0;
    while n < |raw| && inline
      invariant 0 <= n <= |raw|
      invariant inline ==> AllInline(graphic, raw[..n])
      invariant !inline ==> !AllInline(graphic, raw)
      decreases |raw| - n, inline
    {
      if !InlineRenderable(graphic, raw[n].1) {
        inline := false;
      } else {
        n := n + 1;
      }
    }
    var pairs: seq<Pair> := [];
    if inline {
      assert raw[..n] == raw;
      for i := 0 to |raw|
        invariant pairs == Inlined(raw[..i])
      {
        pairs := pairs + [(raw[i].0, QuoteIfSpaced(raw[i].1))];
      }
      assert raw[..|raw|] == raw;
      line := ExportLine(kind, verb, name, pairs);
    } else {
      for i := 0 to |raw|
        invariant pairs == Encoded(raw[..i])
      {
        pairs := pairs + [(raw[i].0, Base64Of(raw[i].1))];
      }
      assert raw[..|raw|] == raw;
      line := ExportLine(kind, Carrier64(verb), name, pairs);
    }
  }

  // ----- reading -----

  /** strings.Cut at the first '='. */
  function Cut(s: string): Option<Pair>
  {
    if s == "" then None
    else if s[0] == '=' then Some(("", s[1..]))
    else
      match Cut(s[1..])
      case None => None
      case Some((k, v)) => Some(([s[0]] + k, v))
  }

  /** The attr=value words of a line, in order; None when one is not of that
      form. */
  function ReadPairs(words: seq<string>): Option<seq<Pair>> {
    if words == [] then Some([])
    else
      match (Cut(words[0]), ReadPairs(words[1..]))
      case (Some(p), Some(rest)) => Some([p] + rest)
      case _ => None
  }

  /** One attr=<base64> word back to the bytes of attr=value, whatever they are. */
  function Decode64(word: string): Option<seq<Byte>> {
    match Cut(word)
    case None => None
    case Some((k, v)) =>
      match Base64.DecodeString(v)
      case None => None
      case Some(raw) => Some(Utf8.Encode(k + "=") + raw)
  }

  function DecodedBytes(words: seq<string>): Option<seq<seq<Byte>>> {
    if words == [] then Some([])
    else
      match (Decode64(words[0]), DecodedBytes(words[1..]))
      case (Some(w), Some(rest)) => Some([w] + rest)
      case _ => None
  }

  function AllRunes(words: seq<seq<Byte>>): seq<string> {
    if words == [] then [] else [Utf8.Runes(words[0])] + AllRunes(words[1..])
  }

  /** The same words as runes. */
  function DecodeWords(words: seq<string>): Option<seq<string>> {
    match DecodedBytes(words)
    case None => None
    case Some(all) => Some(AllRunes(all))
  }

  lemma DecodeFirst(words: seq<string>)
    requires words != [] && Decode64(words[0]).Some?
    ensures DecodeWords(words) == Prepended([Utf8.Runes(Decode64(words[0]).value)], DecodeWords(words[1..]))
  {
    hide Decode64;
    var rest := DecodedBytes(words[1..]);
    if rest.Some? {
      assert ([Decode64(words[0]).value] + rest.value)[1..] == rest.value;
    }
  }

  method Decode64Pairs(args: seq<string>) returns (decoded: Option<seq<seq<Byte>>>)
    ensures decoded == DecodedBytes(args)
  {
    var out: seq<seq<Byte>> := [];
    PrependedNothing(DecodedBytes(args));
    assert args[0..] == args;
    for i := 0 to |args|
      invariant DecodedBytes(args) == Prepended(out, DecodedBytes(args[i..]))
    {
      assert args[i..][1..] == args[i + 1..];
      assert DecodedBytes(args[i..]) == if Decode64(args[i]).None? then None
                                        else Prepended([Decode64(args[i]).value], DecodedBytes(args[i + 1..]));
      var w := Decode64(args[i]);
      if w.None? {
        return None;
      }
      PrependedOne(out, w.value, DecodedBytes(args[i + 1..]));
      out := out + [w.value];
    }
    assert out + [] == out;
    return Some(out);
  }

  function Prepended<T>(head: seq<T>, tail: Option<seq<T>>): Option<seq<T>> {
    if tail.None? then None else Some(head + tail.value)
  }

  lemma PrependedNothing<T>(tail: Option<seq<T>>)
    ensures Prepended([], tail) == tail
  {
    if tail.Some? {
      assert [] + tail.value == tail.value;
    }
  }

  lemma PrependedOne<T>(head: seq<T>, w: T, tail: Option<seq<T>>)
    ensures Prepended(head, Prepended([w], tail)) == Prepended(head + [w], tail)
  {
    if tail.Some? {
      assert head + ([w] + tail.value) == (head + [w]) + tail.value;
    }
  }

  /** attrPairs: a map in which a repeated key keeps its last value. */
  function PairMap(pairs: seq<Pair>): map<string, string> {
    if pairs == [] then map[]
    else PairMap(pairs[..|pairs| - 1])[pairs[|pairs| - 1].0 := pairs[|pairs| - 1].1]
  }

  method AttrPairs(words: seq<string>) returns (attrs: Option<map<string, string>>)
    ensures attrs == match ReadPairs(words) case None => None case Some(pairs) => Some(PairMap(pairs))
  {
    var out: map<string, string> := map[];
    ghost var read: seq<Pair> := [];
    PrependedNothing(ReadPairs(words));
    assert words[0..] == words;
    for i := 0 to |words|
      invariant out == PairMap(read)
      invariant ReadPairs(words) == Prepended(read, ReadPairs(words[i..]))
    {
      assert words[i..][1..] == words[i + 1..];
      assert ReadPairs(words[i..]) == if Cut(words[i]).None? then None
                                      else Prepended([Cut(words[i]).value], ReadPairs(words[i + 1..]));
      var p := Cut(words[i]);
      if p.None? {
        return None;
      }
      PrependedOne(read, p.value, ReadPairs(words[i + 1..]));
      assert (read + [p.value])[..|read|] == read;
      out, read := out[p.value.0 := p.value.1], read + [p.value];
    }
    assert read + [] == read;
    return Some(out);
  }

  // ----- a line as the console takes it -----

  /** What reaches the manager: a creation, or a mutation of an instance. */
  datatype Command =
    | Create(kind: string, name: string, pairs: seq<Pair>)
    | Mutate(kind: string, name: string, pairs: seq<Pair>)

  /** The console's reading of a line of the exported shape, standing anywhere,
      when `known` are the kind's instances: a word that names an instance is a
      step of the path before it can be a verb, ".." leaves the kind, and "?"
      among a verb's words asks about the verb instead. None for any other
      line, and for one the console refuses. */
  function ReadCommand(known: set<string>, line: string): Option<Command> {
    var words := Texts(Lex(line));
    if |words| < 3 || words[0] == "" || words[0][0] != '/' then None
    else if words[1] == "" || words[1] == ".." || '/' in words[1] then None
    else
      var kind := words[0][1..];
      if words[1] in known then
        if words[2] == VERB_SET then MutateOf(kind, words[1], Some(words[3..]))
        else if words[2] == VERB_SET64 then MutateOf(kind, words[1], DecodeWords(words[3..]))
        else None
      else if "?" in words[2..] || '=' in words[2] then None
      else if words[1] == VERB_ADD then CreateOf(kind, words[2], Some(words[3..]))
      else if words[1] == VERB_ADD64 then CreateOf(kind, words[2], DecodeWords(words[3..]))
      else None
  }

  function MutateOf(kind: string, name: string, args: Option<seq<string>>): Option<Command> {
    if args.None? || args.value == [] then None
    else match ReadPairs(args.value) case None => None case Some(pairs) => Some(Mutate(kind, name, pairs))
  }

  function CreateOf(kind: string, name: string, args: Option<seq<string>>): Option<Command> {
    if args.None? then None
    else match ReadPairs(args.value) case None => None case Some(pairs) => Some(Create(kind, name, pairs))
  }

  /** What a verb's arguments carry: the pairs as they stand, or what each one
      decodes to. */
  ghost predicate Carry(args: seq<string>, decoded: bool, pairs: seq<Pair>) {
    if decoded then DecodeWords(args).Some? && ReadPairs(DecodeWords(args).value) == Some(pairs)
    else ReadPairs(args) == Some(pairs)
  }

  /** Only such a line is read, and only as what it says: the kind after the
      slash, then an instance that is there and "set", or "add" where no instance
      is called that, and a name. */
  lemma ReadsExactly(known: set<string>, line: string, kind: string, name: string, pairs: seq<Pair>)
    ensures var words := Texts(Lex(line));
            ReadCommand(known, line) == Some(Mutate(kind, name, pairs)) <==>
              && |words| >= 4 && words[0] == "/" + kind && words[1] == name && name in known
              && name != "" && name != ".." && '/' !in name
              && ((words[2] == "set" && Carry(words[3..], false, pairs))
                  || (words[2] == "set64" && Carry(words[3..], true, pairs)))
    ensures var words := Texts(Lex(line));
            ReadCommand(known, line) == Some(Create(kind, name, pairs)) <==>
              && |words| >= 3 && words[0] == "/" + kind && words[1] !in known && words[2] == name
              && "?" !in words[2..] && '=' !in name
              && ((words[1] == "add" && Carry(words[3..], false, pairs))
                  || (words[1] == "add64" && Carry(words[3..], true, pairs)))
  {
    hide Lex, Texts, ReadPairs, DecodeWords;
    var words := Texts(Lex(line));
    if |words| >= 3 && words[0] != "" {
      assert words[0] == [words[0][0]] + words[0][1..];
      DecodesEach(words[3..]);
    }
    assert '/' !in "add" && '/' !in "add64";
    assert ("/" + kind)[1..] == kind;
  }

  lemma DecodesEach(args: seq<string>)
    ensures DecodeWords(args).Some? ==> |DecodeWords(args).value| == |args|
  {
    BytesOfEach(args);
    if DecodedBytes(args).Some? {
      RunesOfEach(DecodedBytes(args).value);
    }
  }

  lemma {:induction false} RunesOfEach(words: seq<seq<Byte>>)
    ensures |AllRunes(words)| == |words|
    decreases |words|
  {
    if words != [] {
      RunesOfEach(words[1..]);
    }
  }

  lemma {:induction false} BytesOfEach(args: seq<string>)
    ensures DecodedBytes(args).Some? ==> |DecodedBytes(args).value| == |args|
    decreases |args|
  {
    if args != [] {
      BytesOfEach(args[1..]);
    }
  }

  // ----- the round trip -----

  /** Text that lexes as it is: no blank and no quote. */
  predicate Plain(s: string) {
    forall i :: 0 <= i < |s| ==> !IsBlank(s[i]) && s[i] != QUOTE
  }

  predicate PlainKey(s: string) {
    Plain(s) && '=' !in s
  }

  /** A scanner inside a word, outside a quote, with this much of the word read. */
  ghost predicate Reading(s: Scanner, before: seq<string>, value: string) {
    s.open && !s.quoted && Texts(s.words) == before && s.value == value
  }

  lemma {:induction false} ScanPlain(s: Scanner, before: seq<string>, value: string, text: string)
    requires Reading(s, before, value) && Plain(text)
    ensures Reading(Scan(s, text), before, value + text)
    decreases |text|
  {
    if text == "" {
      assert value + text == value;
    } else {
      assert (value + [text[0]]) + text[1..] == value + text;
      ScanPlain(s.Step(text[0]), before, value + [text[0]], text[1..]);
    }
  }

  lemma {:induction false} ScanQuoted(s: Scanner, before: seq<string>, value: string, text: string)
    requires s.open && s.quoted && Texts(s.words) == before && s.value == value && QUOTE !in text
    ensures var t := Scan(s, text);
            t.open && t.quoted && Texts(t.words) == before && t.value == value + text
    decreases |text|
  {
    if text == "" {
      assert value + text == value;
    } else {
      assert (value + [text[0]]) + text[1..] == value + text;
      ScanQuoted(s.Step(text[0]), before, value + [text[0]], text[1..]);
    }
  }

  /** The inline form of a value reads back as the value. */
  lemma ScanInline(s: Scanner, before: seq<string>, value: string, v: string)
    requires Reading(s, before, value) && QUOTE !in v
    ensures Reading(Scan(s, QuoteIfSpaced(v)), before, value + v)
  {
    if ' ' in v || '\t' in v {
      var s1 := s.Step(QUOTE);
      ScanOne(s, QUOTE);
      ScanConcat(s, [QUOTE], v + [QUOTE]);
      ScanQuoted(s1, before, value, v);
      ScanConcat(s1, v, [QUOTE]);
      ScanOne(Scan(s1, v), QUOTE);
      assert QuoteIfSpaced(v) == [QUOTE] + (v + [QUOTE]);
    } else {
      ScanPlain(s, before, value, v);
    }
  }

  /** A space ends the word in hand. */
  lemma ScanSpace(s: Scanner, before: seq<string>, value: string)
    requires Reading(s, before, value)
    ensures var t := Scan(s, " ");
            !t.open && !t.quoted && t.value == "" && Texts(t.words) == before + [value]
  {
    ScanOne(s, ' ');
    var t := s.Step(' ');
    assert Texts(t.words) == before + [value];
  }

  /** A nonempty plain word after a space is a word of its own. */
  lemma ScanWord(s: Scanner, before: seq<string>, w: string)
    requires !s.open && !s.quoted && s.value == "" && Texts(s.words) == before && w != "" && Plain(w)
    ensures Reading(Scan(s, w), before, w)
  {
    var t := s.Step(w[0]);
    assert Reading(t, before, [w[0]]);
    ScanPlain(t, before, [w[0]], w[1..]);
    assert [w[0]] + w[1..] == w;
  }

  /** How a pair's carried value reads: as `meant`, from any point in a word. */
  ghost predicate CarriesAs(carried: string, meant: string) {
    (QUOTE !in meant && carried == QuoteIfSpaced(meant)) || (carried == meant && Plain(carried))
  }

  function WordOf(p: Pair): string {
    p.0 + "=" + p.1
  }

  function WordsOf(pairs: seq<Pair>): seq<string> {
    seq(|pairs|, i requires 0 <= i < |pairs| => WordOf(pairs[i]))
  }

  lemma ScanPair(s: Scanner, before: seq<string>, value: string, key: string, carried: string, meant: string)
    requires Reading(s, before, value) && PlainKey(key) && CarriesAs(carried, meant)
    ensures Reading(Scan(s, PairText((key, carried))), before + [value], key + "=" + meant)
  {
    var s1 := Scan(s, " ");
    ScanSpace(s, before, value);
    var head := key + "=";
    assert head != "" && Plain(head) by {
      assert forall i :: 0 <= i < |head| ==> head[i] == '=' || head[i] in key;
    }
    ScanWord(s1, before + [value], head);
    var s2 := Scan(s1, head);
    if carried == meant && Plain(carried) {
      ScanPlain(s2, before + [value], head, carried);
    } else {
      ScanInline(s2, before + [value], head, meant);
    }
    ScanConcat(s, " ", head);
    ScanConcat(s, " " + head, carried);
    assert " " + key + "=" + carried == (" " + head) + carried;
  }

  lemma {:induction false} ScanPairs(s: Scanner, before: seq<string>, value: string, carried: seq<Pair>,
                                     pairs: seq<Pair>)
    requires Reading(s, before, value) && |carried| == |pairs|
    requires forall i :: 0 <= i < |pairs| ==>
               carried[i].0 == pairs[i].0 && PlainKey(pairs[i].0) && CarriesAs(carried[i].1, pairs[i].1)
    ensures var t := Scan(s, PairsText(carried));
            t.open && Texts(t.words) + [t.value] == before + [value] + WordsOf(pairs)
    ensures !Scan(s, PairsText(carried)).quoted
    decreases |pairs|
  {
    hide QuoteIfSpaced, Scanner.Step;
    if pairs == [] {
      assert before + [value] + WordsOf(pairs) == before + [value];
      ScanNothing(s);
    } else {
      var n := |pairs| - 1;
      ScanPairs(s, before, value, carried[..n], pairs[..n]);
      var t := Scan(s, PairsText(carried[..n]));
      ScanPair(t, Texts(t.words), t.value, carried[n].0, carried[n].1, pairs[n].1);
      ScanConcat(s, PairsText(carried[..n]), PairText(carried[n]));
      assert WordsOf(pairs) == WordsOf(pairs[..n]) + [WordOf(pairs[n])];
    }
  }

  lemma ScanNothing(s: Scanner)
    ensures Scan(s, "") == s
  {
  }

  function HeadWords(kind: string, verb: string, name: string): seq<string> {
    if IsAddVerb(verb) then ["/" + kind, verb, name] else ["/" + kind, name, verb]
  }

  predicate IsVerb(verb: string) {
    verb in {VERB_ADD, VERB_ADD64, VERB_SET, VERB_SET64}
  }

  lemma ScanThree(a: string, b: string, c: string)
    requires a != "" && b != "" && c != "" && Plain(a) && Plain(b) && Plain(c)
    ensures Reading(Scan(BEGIN, a + " " + b + " " + c), [a, b], c)
  {
    hide Plain, Scanner.Step, Scan;
    assert Texts(BEGIN.words) == [];
    ScanWord(BEGIN, [], a);
    var s1 := Scan(BEGIN, a);
    ScanSpace(s1, [], a);
    assert [] + [a] == [a];
    var s2 := Scan(s1, " ");
    ScanWord(s2, [a], b);
    var s3 := Scan(s2, b);
    ScanSpace(s3, [a], b);
    assert [a] + [b] == [a, b];
    var s4 := Scan(s3, " ");
    ScanWord(s4, [a, b], c);
    ScanConcat(BEGIN, a, " ");
    ScanConcat(BEGIN, a + " ", b);
    ScanConcat(BEGIN, a + " " + b, " ");
    ScanConcat(BEGIN, a + " " + b + " ", c);
  }

  /** The words of an exported line are its head and its pairs, whatever carrier
      each value rode. */
  lemma LexLineText(kind: string, verb: string, name: string, carried: seq<Pair>, pairs: seq<Pair>)
    requires Plain(kind) && Plain(name) && name != "" && IsVerb(verb) && |carried| == |pairs|
    requires forall i :: 0 <= i < |pairs| ==>
               carried[i].0 == pairs[i].0 && PlainKey(pairs[i].0) && CarriesAs(carried[i].1, pairs[i].1)
    ensures Texts(Lex(LineText(kind, verb, name, carried))) == HeadWords(kind, verb, name) + WordsOf(pairs)
  {
    hide PairsText, Scanner.Step, Scan;
    var h := HeadWords(kind, verb, name);
    HeadIsPlain(kind, verb, name);
    ScanThree(h[0], h[1], h[2]);
    assert HeadText(kind, verb, name) == h[0] + " " + h[1] + " " + h[2];
    var s := Scan(BEGIN, HeadText(kind, verb, name));
    ScanPairs(s, [h[0], h[1]], h[2], carried, pairs);
    ScanConcat(BEGIN, HeadText(kind, verb, name), PairsText(carried));
    var t := Scan(s, PairsText(carried));
    assert Texts(t.Flush().words) == Texts(t.words) + [t.value];
    assert [h[0], h[1]] + [h[2]] == h;
  }

  lemma HeadIsPlain(kind: string, verb: string, name: string)
    requires Plain(kind) && Plain(name) && name != "" && IsVerb(verb)
    ensures var h := HeadWords(kind, verb, name);
            forall i :: 0 <= i < 3 ==> h[i] != "" && Plain(h[i])
  {
    assert Plain("/" + kind) by {
      forall i | 0 <= i < |"/" + kind| ensures !IsBlank(("/" + kind)[i]) && ("/" + kind)[i] != QUOTE {
        assert i > 0 ==> ("/" + kind)[i] == kind[i - 1];
      }
    }
    assert Plain(VERB_ADD) && Plain(VERB_ADD64) && Plain(VERB_SET) && Plain(VERB_SET64);
  }

  lemma {:induction false} CutPair(key: string, value: string)
    requires '=' !in key
    ensures Cut(key + "=" + value) == Some((key, value))
    decreases |key|
  {
    var s := key + "=" + value;
    if key == "" {
      assert s[1..] == value;
    } else {
      assert s[1..] == key[1..] + "=" + value;
      CutPair(key[1..], value);
      assert [key[0]] + key[1..] == key;
    }
  }

  lemma {:induction false} ReadWords(pairs: seq<Pair>)
    requires forall i :: 0 <= i < |pairs| ==> '=' !in pairs[i].0
    ensures ReadPairs(WordsOf(pairs)) == Some(pairs)
    decreases |pairs|
  {
    if pairs != [] {
      CutPair(pairs[0].0, pairs[0].1);
      assert WordsOf(pairs)[1..] == WordsOf(pairs[1..]);
      ReadWords(pairs[1..]);
      assert [pairs[0]] + pairs[1..] == pairs;
    }
  }

  lemma Decode64Word(key: string, value: string)
    requires '=' !in key
    ensures Decode64(key + "=" + Base64Of(value)).Some?
    ensures Utf8.Runes(Decode64(key + "=" + Base64Of(value)).value) == key + "=" + value
  {
    CutPair(key, Base64Of(value));
    Base64.RoundTrip(Utf8.Encode(value));
    Utf8.EncodeConcat(key + "=", value);
    Utf8.RunesOfEncode(key + "=" + value);
  }

  lemma {:induction false} DecodeEncoded(raw: seq<Pair>)
    requires forall i :: 0 <= i < |raw| ==> '=' !in raw[i].0
    ensures DecodeWords(WordsOf(Encoded(raw))) == Some(WordsOf(raw))
    decreases |raw|
  {
    hide Decode64, Base64Of, DecodeWords;
    if raw == [] {
      DecodeNothing();
    } else {
      Decode64Word(raw[0].0, raw[0].1);
      DecodeFirst(WordsOf(Encoded(raw)));
      assert WordsOf(Encoded(raw))[1..] == WordsOf(Encoded(raw[1..]));
      DecodeEncoded(raw[1..]);
      assert [WordOf(raw[0])] + WordsOf(raw[1..]) == WordsOf(raw);
    }
  }

  lemma DecodeNothing()
    ensures DecodeWords([]) == Some([])
  {
  }

  lemma Base64IsPlain(value: string)
    ensures Plain(Base64Of(value))
  {
    Base64.EncodedAlphabet(Utf8.Encode(value));
  }

  /** The verb an object's line rides on. */
  function VerbOf(graphic: char -> bool, verb: string, raw: seq<Pair>): string {
    if AllInline(graphic, raw) then verb else Carrier64(verb)
  }

  /** The words of the emitted line, and what its arguments read as. */
  lemma ObjectWords(graphic: char -> bool, kind: string, verb: string, name: string, raw: seq<Pair>)
    requires Plain(kind) && Plain(name) && name != "" && verb in {VERB_ADD, VERB_SET}
    requires forall i :: 0 <= i < |raw| ==> PlainKey(raw[i].0)
    ensures var words, v := Texts(Lex(ObjectText(graphic, kind, verb, name, raw))), VerbOf(graphic, verb, raw);
            && |words| == 3 + |raw| && words[..3] == HeadWords(kind, v, name)
            && (v == verb ==> words[3..] == WordsOf(raw))
            && (v != verb ==> DecodeWords(words[3..]) == Some(WordsOf(raw)))
            && (forall i :: 3 <= i < |words| ==> '=' in words[i])
    ensures ReadPairs(WordsOf(raw)) == Some(raw)
  {
    hide Plain, Lex, LineText, DecodeWords, ReadPairs;
    ReadWords(raw);
    if AllInline(graphic, raw) {
      LexLineText(kind, verb, name, Inlined(raw), raw);
      assert (HeadWords(kind, verb, name) + WordsOf(raw))[3..] == WordsOf(raw);
    } else {
      forall i | 0 <= i < |raw| ensures CarriesAs(Encoded(raw)[i].1, Encoded(raw)[i].1) {
        Base64IsPlain(raw[i].1);
      }
      var v := Carrier64(verb);
      LexLineText(kind, v, name, Encoded(raw), Encoded(raw));
      assert (HeadWords(kind, v, name) + WordsOf(Encoded(raw)))[3..] == WordsOf(Encoded(raw));
      DecodeEncoded(raw);
    }
  }

  // ----- which carrier, and what stands on the line -----

  /** Every value can be shown on a terminal and holds no quote. */
  ghost predicate Showable(graphic: char -> bool, raw: seq<Pair>) {
    forall i, j :: 0 <= i < |raw| && 0 <= j < |raw[i].1| ==> raw[i].1[j] != '"' && graphic(raw[i].1[j])
  }

  /** Words with one space between them. */
  function Spaced(words: seq<string>): string {
    if words == [] then "" else words[0] + (if |words| == 1 then "" else " ") + Spaced(words[1..])
  }

  lemma {:induction false} SpacedOneMore(words: seq<string>, w: string)
    requires words != []
    ensures Spaced(words + [w]) == Spaced(words) + (" " + w)
    decreases |words|
  {
    assert (words + [w])[1..] == words[1..] + [w];
    if |words| == 1 {
      assert words[1..] == [] && [w][1..] == [] && Spaced([w]) == w;
    } else {
      SpacedOneMore(words[1..], w);
    }
  }

  /** The words of a line before it is read: the context, the verb and the name
      in their order, then every pair. */
  function WrittenWords(kind: string, verb: string, name: string, pairs: seq<Pair>): seq<string> {
    ["/" + kind]
    + (if name == "" then [verb] else if verb == "add" || verb == "add64" then [verb, name] else [name, verb])
    + seq(|pairs|, i requires 0 <= i < |pairs| => pairs[i].0 + "=" + pairs[i].1)
  }

  lemma HeadSpaced(kind: string, verb: string, name: string)
    ensures HeadText(kind, verb, name) == Spaced(WrittenWords(kind, verb, name, []))
  {
    hide Spaced;
    var c := "/" + kind;
    if name == "" {
      SpacedWords(c, verb, "");
      assert WrittenWords(kind, verb, name, []) == [c] + [verb];
    } else {
      var x, y := if IsAddVerb(verb) then verb else name, if IsAddVerb(verb) then name else verb;
      SpacedWords(c, x, y);
      assert WrittenWords(kind, verb, name, []) == [c] + [x] + [y];
    }
  }

  lemma SpacedWords(c: string, x: string, y: string)
    ensures Spaced([c] + [x]) == c + " " + x
    ensures Spaced([c] + [x] + [y]) == c + " " + x + " " + y
  {
    hide Spaced;
    SpacedOne(c);
    SpacedOneMore([c], x);
    SpacedOneMore([c] + [x], y);
    Associates(c, " ", x);
    Associates(c + " " + x, " ", y);
  }

  lemma SpacedOne(w: string)
    ensures Spaced([w]) == w
  {
    assert [w][1..] == [];
  }

  lemma {:induction false} LineSpaced(kind: string, verb: string, name: string, pairs: seq<Pair>)
    ensures LineText(kind, verb, name, pairs) == Spaced(WrittenWords(kind, verb, name, pairs))
    decreases |pairs|
  {
    hide HeadText, Spaced;
    if pairs == [] {
      HeadSpaced(kind, verb, name);
      assert HeadText(kind, verb, name) + "" == HeadText(kind, verb, name);
    } else {
      var n := |pairs| - 1;
      var p := pairs[n];
      LineSpaced(kind, verb, name, pairs[..n]);
      var before := WrittenWords(kind, verb, name, pairs[..n]);
      SpacedOneMore(before, p.0 + "=" + p.1);
      assert WrittenWords(kind, verb, name, pairs) == before + [p.0 + "=" + p.1];
      assert PairText(p) == " " + (p.0 + "=" + p.1);
      Associates(HeadText(kind, verb, name), PairsText(pairs[..n]), PairText(p));
    }
  }

  /** The line is the object's words with one space between them. It rides its
      own verb exactly when every value can be shown and holds no quote, and then
      each value stands as it is, or between two quotes when it holds a space or
      a tab; otherwise it rides the verb's base64 spelling, and every value is
      the base64 of its bytes. */
  lemma CarrierExactly(graphic: char -> bool, kind: string, verb: string, name: string, raw: seq<Pair>)
      returns (v: string, carried: seq<Pair>)
    ensures v == if Showable(graphic, raw) then verb else if verb == "add" then "add64" else "set64"
    ensures |carried| == |raw|
    ensures forall i :: 0 <= i < |raw| ==>
              && carried[i].0 == raw[i].0
              && carried[i].1 == if !Showable(graphic, raw) then Base64.EncodeToString(Utf8.Encode(raw[i].1))
                                 else if ' ' in raw[i].1 || '\t' in raw[i].1 then "\"" + raw[i].1 + "\""
                                 else raw[i].1
    ensures ObjectText(graphic, kind, verb, name, raw) == Spaced(WrittenWords(kind, v, name, carried))
    ensures VerbOf(graphic, verb, raw) == v
  {
    hide Spaced, WrittenWords, LineText;
    assert AllInline(graphic, raw) <==> Showable(graphic, raw);
    if AllInline(graphic, raw) {
      v, carried := verb, Inlined(raw);
    } else {
      v, carried := Carrier64(verb), Encoded(raw);
    }
    LineSpaced(kind, v, name, carried);
  }

  /** A name the store can hold and a command line can spell. */
  predicate Spelled(name: string) {
    name != "" && Plain(name) && '/' !in name && '=' !in name
  }

  /** For any pairs with plain keys and any Unicode values, the emitted creation
      reads back as the same creation with the same pairs in the same order —
      exactly when no instance of the kind is named like the line's verb, and
      the object is not named "?". */
  lemma CreationRoundTrip(graphic: char -> bool, known: set<string>, kind: string, name: string, raw: seq<Pair>)
    requires Plain(kind) && Spelled(name)
    requires forall i :: 0 <= i < |raw| ==> PlainKey(raw[i].0)
    ensures ReadCommand(known, ObjectText(graphic, kind, "add", name, raw)) == Some(Create(kind, name, raw))
       <==> VerbOf(graphic, "add", raw) !in known && name != "?"
  {
    hide Plain, Lex, ObjectText, DecodeWords, ReadPairs, WordsOf;
    ObjectWords(graphic, kind, VERB_ADD, name, raw);
    var words := Texts(Lex(ObjectText(graphic, kind, VERB_ADD, name, raw)));
    assert words[0] == words[..3][0] && words[1] == words[..3][1] && words[2] == words[..3][2];
    assert words[0][1..] == kind;
    assert '/' !in VERB_ADD && '/' !in VERB_ADD64;
    forall i | 3 <= i < |words| ensures words[i] != "?" {
    }
    if name == "?" {
      assert words[2] in words[2..];
    }
  }

  /** The emitted mutation of an instance reads back the same way, exactly when
      the instance is there and is not named "..". */
  lemma MutationRoundTrip(graphic: char -> bool, known: set<string>, kind: string, name: string, raw: seq<Pair>)
    requires Plain(kind) && Spelled(name) && raw != []
    requires forall i :: 0 <= i < |raw| ==> PlainKey(raw[i].0)
    ensures ReadCommand(known, ObjectText(graphic, kind, "set", name, raw)) == Some(Mutate(kind, name, raw))
       <==> name in known && name != ".."
  {
    hide Plain, Lex, ObjectText, DecodeWords, ReadPairs;
    ObjectWords(graphic, kind, VERB_SET, name, raw);
    var words := Texts(Lex(ObjectText(graphic, kind, VERB_SET, name, raw)));
    assert words[0] == words[..3][0] && words[1] == words[..3][1] && words[2] == words[..3][2];
    assert words[0][1..] == kind;
  }

  // ----- the switch back, which is written as it stands -----

  lemma {:induction false} WordsGrow(s: Scanner, line: string)
    ensures |s.words| <= |Scan(s, line).words| && Scan(s, line).words[..|s.words|] == s.words
    decreases |line|
  {
    if line != "" {
      WordsGrow(s.Step(line[0]), line[1..]);
    }
  }

  lemma {:induction false} NoBlankScanned(s: Scanner, line: string)
    requires QUOTE !in line && !s.quoted && NoBlank(s.value)
    requires forall i :: 0 <= i < |s.words| ==> NoBlank(s.words[i].text)
    ensures NoBlank(Scan(s, line).value)
    ensures forall i :: 0 <= i < |Scan(s, line).words| ==> NoBlank(Scan(s, line).words[i].text)
    decreases |line|
  {
    if line != "" {
      NoBlankScanned(s.Step(line[0]), line[1..]);
    }
  }

  predicate NoBlank(s: string) {
    forall i :: 0 <= i < |s| ==> !IsBlank(s[i])
  }

  lemma {:induction false} CutBack(s: string)
    requires Cut(s).Some?
    ensures s == Cut(s).value.0 + "=" + Cut(s).value.1
    decreases |s|
  {
    if s[0] != '=' {
      CutBack(s[1..]);
    } else {
      assert s == "" + "=" + s[1..];
    }
  }

  /** A line begins with its head's words whatever follows the space. */
  lemma HeadRead(kind: string, verb: string, name: string, rest: string)
    requires Plain(kind) && Plain(name) && name != "" && IsVerb(verb)
    ensures var words := Texts(Lex(HeadText(kind, verb, name) + " " + rest));
            |words| >= 3 && words[..3] == HeadWords(kind, verb, name)
  {
    hide Plain, Scanner.Step, Scan;
    var h := HeadWords(kind, verb, name);
    HeadIsPlain(kind, verb, name);
    ScanThree(h[0], h[1], h[2]);
    var head := HeadText(kind, verb, name);
    assert head == h[0] + " " + h[1] + " " + h[2];
    var s := Scan(BEGIN, head);
    ScanSpace(s, [h[0], h[1]], h[2]);
    ScanConcat(BEGIN, head, " ");
    ScanConcat(BEGIN, head + " ", rest);
    var s1 := Scan(s, " ");
    assert Texts(s1.words) == h;
    WordsGrow(s1, rest);
    var t := Scan(s1, rest);
    assert t.Flush().words[..|t.words|] == t.words;
    assert forall i :: 0 <= i < 3 ==> Texts(s1.words)[i] == s1.words[i].text;
  }

  function SwitchText(kind: string, name: string, key: string, active: string): string {
    LineText(kind, VERB_SET, name, [(key, active)])
  }

  lemma SwitchSplits(kind: string, name: string, key: string, active: string)
    ensures SwitchText(kind, name, key, active) == HeadText(kind, VERB_SET, name) + " " + (key + "=" + active)
  {
    hide HeadText;
    assert [(key, active)][..0] == [];
    assert PairsText([(key, active)]) == PairText((key, active));
  }

  lemma OneRead(words: seq<string>, p: Pair)
    requires ReadPairs(words) == Some([p])
    ensures words == [WordOf(p)]
  {
    CutBack(words[0]);
    var rest := ReadPairs(words[1..]).value;
    assert ([Cut(words[0]).value] + rest)[0] == p && |rest| == 0;
    assert words[1..] == [];
  }

  lemma SwitchReads(known: set<string>, kind: string, name: string, key: string, active: string)
    requires Plain(kind) && Spelled(name) && PlainKey(key)
    requires name in known && name != ".." && Plain(active)
    ensures ReadCommand(known, SwitchText(kind, name, key, active)) == Some(Mutate(kind, name, [(key, active)]))
  {
    hide Plain, Lex, DecodeWords, ReadPairs, HeadText, PairText, PairsText;
    var p := [(key, active)];
    LexLineText(kind, VERB_SET, name, p, p);
    ReadWords(p);
    var words := Texts(Lex(SwitchText(kind, name, key, active)));
    assert words == ["/" + kind, name, VERB_SET] + WordsOf(p);
    assert words[3..] == WordsOf(p);
    assert words[0][1..] == kind;
  }

  lemma SwitchReadOnly(known: set<string>, kind: string, name: string, key: string, active: string)
    requires Plain(kind) && Spelled(name) && PlainKey(key)
    requires ReadCommand(known, SwitchText(kind, name, key, active)) == Some(Mutate(kind, name, [(key, active)]))
    ensures name in known && name != ".." && Plain(active)
  {
    hide Plain, Lex, DecodeWords, ReadPairs, HeadText;
    var line := SwitchText(kind, name, key, active);
    var words := Texts(Lex(line));
    SwitchSplits(kind, name, key, active);
    HeadRead(kind, VERB_SET, name, key + "=" + active);
    assert words[0] == words[..3][0] && words[1] == words[..3][1] && words[2] == words[..3][2];
    OneRead(words[3..], (key, active));
    assert words[3] == WordOf((key, active));
    NoQuoteInWords(line);
    WordHolds(key, active);
    HeadIsPlain(kind, VERB_SET, name);
    NoQuoteInLine(kind, name, key, active);
    NoBlankInWords(line);
    PlainParts(key, active);
  }

  lemma WordHolds(key: string, active: string)
    ensures QUOTE !in WordOf((key, active)) ==> QUOTE !in active
  {
    assert forall i :: 0 <= i < |active| ==> WordOf((key, active))[|key| + 1 + i] == active[i];
  }

  lemma PlainParts(key: string, active: string)
    requires QUOTE !in active && NoBlank(WordOf((key, active)))
    ensures Plain(active)
  {
    assert forall i :: 0 <= i < |active| ==> WordOf((key, active))[|key| + 1 + i] == active[i];
  }

  lemma NoQuoteInLine(kind: string, name: string, key: string, active: string)
    requires Plain(kind) && Plain(name) && Plain(key) && QUOTE !in active
    ensures QUOTE !in SwitchText(kind, name, key, active)
  {
    SwitchSplits(kind, name, key, active);
    assert QUOTE !in VERB_SET;
  }

  lemma NoBlankInWords(line: string)
    requires QUOTE !in line
    ensures forall i :: 0 <= i < |Lex(line)| ==> NoBlank(Texts(Lex(line))[i])
  {
    NoBlankScanned(BEGIN, line);
  }

  /** A profile line written without its carrier reads back exactly when the
      profile's name is plain, and the instance is one a mutation can reach. */
  lemma SwitchRoundTrip(known: set<string>, kind: string, name: string, key: string, active: string)
    requires Plain(kind) && Spelled(name) && PlainKey(key)
    ensures ReadCommand(known, SwitchText(kind, name, key, active)) == Some(Mutate(kind, name, [(key, active)]))
       <==> name in known && name != ".." && Plain(active)
  {
    hide Plain, ReadCommand, SwitchText;
    if name in known && name != ".." && Plain(active) {
      SwitchReads(known, kind, name, key, active);
    } else if ReadCommand(known, SwitchText(kind, name, key, active)) == Some(Mutate(kind, name, [(key, active)])) {
      SwitchReadOnly(known, kind, name, key, active);
    }
  }

  /** The double quote is the one character the inline form cannot carry: a
      value reads back from it exactly when it holds none. */
  lemma InlineCarriesIffNoQuote(key: string, value: string)
    requires PlainKey(key)
    ensures Texts(Lex(key + "=" + QuoteIfSpaced(value))) == [key + "=" + value] <==> QUOTE !in value
  {
    var line := key + "=" + QuoteIfSpaced(value);
    if QUOTE !in value {
      var head := key + "=";
      assert Plain(head) by {
        assert forall i :: 0 <= i < |head| ==> head[i] == '=' || head[i] in key;
      }
      assert Texts(BEGIN.words) == [];
      ScanWord(BEGIN, [], head);
      ScanInline(Scan(BEGIN, head), [], head, value);
      ScanConcat(BEGIN, head, QuoteIfSpaced(value));
      var t := Scan(BEGIN, line);
      assert Texts(t.Flush().words) == [] + [t.value];
    } else {
      NoQuoteInWords(line);
      var i :| 0 <= i < |value| && value[i] == QUOTE;
      var whole := [key + "=" + value];
      assert whole[0][|key| + 1 + i] == QUOTE;
      assert QUOTE in whole[0];
    }
  }

  lemma {:induction false} NoQuoteScanned(s: Scanner, line: string)
    requires QUOTE !in s.value && forall i :: 0 <= i < |s.words| ==> QUOTE !in s.words[i].text
    ensures QUOTE !in Scan(s, line).value
    ensures forall i :: 0 <= i < |Scan(s, line).words| ==> QUOTE !in Scan(s, line).words[i].text
    decreases |line|
  {
    if line != "" {
      NoQuoteScanned(s.Step(line[0]), line[1..]);
    }
  }

  lemma NoQuoteInWords(line: string)
    ensures forall i :: 0 <= i < |Lex(line)| ==> QUOTE !in Texts(Lex(line))[i]
  {
    NoQuoteScanned(BEGIN, line);
  }

  /** An export is one line: nothing in it ends a command or drives a terminal. */
  lemma {:induction false} NoControlInPairs(graphic: char -> bool, pairs: seq<Pair>)
    requires forall i :: 0 <= i < |pairs| ==> Shown(graphic, pairs[i].0) && Shown(graphic, pairs[i].1)
    requires graphic(' ') && graphic('=')
    ensures Shown(graphic, PairsText(pairs))
    decreases |pairs|
  {
    if pairs != [] {
      NoControlInPairs(graphic, pairs[..|pairs| - 1]);
    }
  }

  predicate Shown(graphic: char -> bool, s: string) {
    forall i :: 0 <= i < |s| ==> graphic(s[i])
  }

  lemma HeadIsShown(graphic: char -> bool, kind: string, verb: string, name: string)
    requires forall c :: ' ' <= c <= '~' ==> graphic(c)
    requires Shown(graphic, kind) && Shown(graphic, name) && Shown(graphic, verb)
    ensures Shown(graphic, HeadText(kind, verb, name))
  {
  }

  lemma QuotedIsShown(graphic: char -> bool, s: string)
    requires graphic(QUOTE) && Shown(graphic, s)
    ensures Shown(graphic, QuoteIfSpaced(s))
  {
  }

  lemma Base64IsShown(graphic: char -> bool, s: string)
    requires forall c :: ' ' <= c <= '~' ==> graphic(c)
    ensures Shown(graphic, Base64Of(s))
  {
    Base64.EncodedAlphabet(Utf8.Encode(s));
  }

  lemma VerbsAreShown(graphic: char -> bool)
    requires forall c :: ' ' <= c <= '~' ==> graphic(c)
    ensures Shown(graphic, VERB_ADD) && Shown(graphic, VERB_ADD64) && Shown(graphic, VERB_SET)
            && Shown(graphic, VERB_SET64)
  {
  }

  lemma ShownConcat(graphic: char -> bool, a: string, b: string)
    requires Shown(graphic, a) && Shown(graphic, b)
    ensures Shown(graphic, a + b)
  {
  }

  /** Every character of an emitted line is one the terminal can show, as long as
      the object's own names are and printable ASCII is. */
  lemma ExportIsShown(graphic: char -> bool, kind: string, verb: string, name: string, raw: seq<Pair>)
    requires forall c :: ' ' <= c <= '~' ==> graphic(c)
    requires Shown(graphic, kind) && Shown(graphic, name) && verb in {VERB_ADD, VERB_SET}
    requires forall i :: 0 <= i < |raw| ==> Shown(graphic, raw[i].0)
    ensures Shown(graphic, ObjectText(graphic, kind, verb, name, raw))
  {
    hide Shown, HeadText, PairsText, QuoteIfSpaced, Base64Of;
    VerbsAreShown(graphic);
    var v := VerbOf(graphic, verb, raw);
    HeadIsShown(graphic, kind, v, name);
    var pairs := if AllInline(graphic, raw) then Inlined(raw) else Encoded(raw);
    forall i | 0 <= i < |raw| ensures Shown(graphic, pairs[i].0) && Shown(graphic, pairs[i].1) {
      if AllInline(graphic, raw) {
        InlineIsShown(graphic, raw[i].1);
        QuotedIsShown(graphic, raw[i].1);
      } else {
        Base64IsShown(graphic, raw[i].1);
      }
    }
    NoControlInPairs(graphic, pairs);
    ShownConcat(graphic, HeadText(kind, v, name), PairsText(pairs));
  }

  lemma InlineIsShown(graphic: char -> bool, s: string)
    requires InlineRenderable(graphic, s)
    ensures Shown(graphic, s)
  {
  }
}
