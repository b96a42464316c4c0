/** The console's one lexer: blank-separated words in which double quotes hold
    spaces and backslashes are literal (internal/cli/lexer.go). */
module Lexer {
  import opened Common
  import opened Utf8

  const QUOTE: char := '"'

  predicate IsBlank(c: char) {
    c == ' ' || c == '\t'
  }

  /** A word's two faces: the value a command reads, and the bytes it spans. The
      column counts runes from one. */
  datatype Word = Word(start: nat, end: nat, column: nat, text: string, openQuote: bool)

  /** The lexer between two runes. `open` when a word has begun. */
  datatype Scanner = Scanner(words: seq<Word>, offset: nat, column: nat, open: bool,
                             start: nat, startColumn: nat, value: string, quoted: bool)
  {
    function Flush(): Scanner {
      if !open then this
      else this.(words := words + [Word(start, offset, startColumn, value, quoted)], value := "", open := false)
    }

    function Step(r: char): Scanner {
      if !quoted && IsBlank(r) then Flush().(offset := offset + RuneLen(r), column := column + 1)
      else
        var begun := if open then this else this.(open := true, start := offset, startColumn := column);
        var read := if r == QUOTE then begun.(quoted := !quoted) else begun.(value := value + [r]);
        read.(offset := offset + RuneLen(r), column := column + 1)
    }
  }

  const BEGIN := Scanner([], 0, 1, false, 0, 1, "", false)

  function Scan(s: Scanner, line: string): Scanner
    decreases |line|
  {
    if line == [] then s else Scan(s.Step(line[0]), line[1..])
  }

  function Lex(line: string): seq<Word> {
    Scan(BEGIN, line).Flush().words
  }

  method LexLine(line: string) returns (words: seq<Word>)
    ensures words == Lex(line)
  {
    words := [];
    var value := "";
    var start, column, startColumn := -1, 1, 1;
    var quoted := false;
    var offset := 0;
    for i := 0 to |line|
      invariant start >= -1 && startColumn >= 1 && column >= 1
      invariant start == -1 ==> value == "" && !quoted
      invariant var s := Scan(BEGIN, line[..i]);
                && s.words == words && s.offset == offset && s.column == column && s.open == (start >= 0)
                && s.value == value && s.quoted == quoted
                && (s.open ==> s.start == start && s.startColumn == startColumn)
    {
      ScanSnoc(BEGIN, line, i);
      var r := line[i];
      if !quoted && (r == ' ' || r == '\t') {
        if start >= 0 {
          words := words + [Word(start, offset, startColumn, value, quoted)];
          value, start := "", -1;
        }
        column := column + 1;
      } else {
        if start < 0 {
          start, startColumn := offset, column;
        }
        if r == QUOTE {
          quoted := !quoted;
        } else {
          value := value + [r];
        }
        column := column + 1;
      }
      offset := offset + RuneLen(r);
    }
    assert line[..|line|] == line;
    if start >= 0 {
      words := words + [Word(start, offset, startColumn, value, quoted)];
    }
  }

  lemma {:induction false} ScanConcat(s: Scanner, a: string, b: string)
    ensures Scan(s, a + b) == Scan(Scan(s, a), b)
    decreases |a|
  {
    if a == [] {
      assert a + b == b;
    } else {
      assert (a + b)[1..] == a[1..] + b;
      ScanConcat(s.Step(a[0]), a[1..], b);
    }
  }

  lemma ScanSnoc(s: Scanner, line: string, i: nat)
    requires i < |line|
    ensures Scan(s, line[..i + 1]) == Scan(s, line[..i]).Step(line[i])
  {
    assert line[..i + 1] == line[..i] + [line[i]];
    ScanConcat(s, line[..i], [line[i]]);
    ScanOne(Scan(s, line[..i]), line[i]);
  }

  lemma ScanOne(s: Scanner, r: char)
    ensures Scan(s, [r]) == s.Step(r)
  {
    assert [r][1..] == [];
  }

  function Texts(words: seq<Word>): seq<string> {
    seq(|words|, i requires 0 <= i < |words| => words[i].text)
  }

  // ----- what the words are -----

  /** The runes [a, b) of a line without their quotes. */
  function Unquoted(line: string, a: nat, b: nat): string
    requires a <= b <= |line|
  {
    if a == b then ""
    else Unquoted(line, a, b - 1) + if line[b - 1] == QUOTE then "" else [line[b - 1]]
  }

  function Quotes(line: string, n: nat): nat
    requires n <= |line|
  {
    if n == 0 then 0 else Quotes(line, n - 1) + if line[n - 1] == QUOTE then 1 else 0
  }

  /** The word is the runes [column - 1, e) of the line, its span their bytes and
      its text what they hold without quotes. */
  ghost predicate Covers(line: string, w: Word, e: nat) {
    && 1 <= w.column <= e <= |line|
    && w.start == ByteOf(line, w.column - 1) && w.end == ByteOf(line, e)
    && w.text == Unquoted(line, w.column - 1, e)
  }

  ghost predicate Within(words: seq<Word>, ends: seq<nat>, k: nat)
    requires |ends| == |words|
  {
    exists i :: 0 <= i < |words| && words[i].column <= k + 1 <= ends[i]
  }

  ghost predicate Covered(line: string, words: seq<Word>, ends: seq<nat>) {
    |ends| == |words| && forall i :: 0 <= i < |words| ==> Covers(line, words[i], ends[i])
  }

  ghost predicate Apart(words: seq<Word>, ends: seq<nat>)
    requires |ends| == |words|
  {
    forall i :: 0 < i < |words| ==> ends[i - 1] < words[i].column
  }

  /** Every rune before the column and outside the words is blank. */
  ghost predicate BlankBetween(line: string, words: seq<Word>, ends: seq<nat>, column: nat)
    requires |ends| == |words|
  {
    forall k :: 0 <= k < |line| && k + 1 < column && !Within(words, ends, k) ==> IsBlank(line[k])
  }

  /** The words lie in order and apart, each is what it covers, and everything
      outside them is blank. */
  ghost predicate Spans(line: string, words: seq<Word>, ends: seq<nat>) {
    Covered(line, words, ends) && Apart(words, ends) && BlankBetween(line, words, ends, |line| + 1)
  }

  /** The scanner after n runes: its counters, and the word in hand. */
  ghost predicate InHand(line: string, n: nat, s: Scanner) {
    && n <= |line|
    && s.offset == ByteOf(line, n) && s.column == n + 1
    && s.quoted == (Quotes(line, n) % 2 == 1) && (s.quoted ==> s.open)
    && (if s.open then
          && 1 <= s.startColumn <= n && s.start == ByteOf(line, s.startColumn - 1)
          && s.value == Unquoted(line, s.startColumn - 1, n)
        else s.value == "")
  }

  /** Where the word in hand begins, or the next could. */
  ghost function Begun(s: Scanner, n: nat): nat {
    if s.open then s.startColumn else n + 1
  }

  /** The words already flushed. */
  ghost predicate Flushed(line: string, n: nat, s: Scanner, ends: seq<nat>) {
    && Covered(line, s.words, ends) && Apart(s.words, ends)
    && BlankBetween(line, s.words, ends, Begun(s, n))
    && (ends != [] ==> ends[|ends| - 1] < Begun(s, n))
    && (forall i :: 0 <= i < |s.words| ==> !s.words[i].openQuote)
  }

  lemma InHandStep(line: string, n: nat, s: Scanner)
    requires n < |line| && InHand(line, n, s)
    ensures InHand(line, n + 1, s.Step(line[n]))
  {
    hide ByteOf;
    ByteOfNext(line, n);
    assert Unquoted(line, n, n) == "";
  }

  lemma NothingInHand(line: string)
    ensures Scan(BEGIN, []) == BEGIN && InHand(line, 0, BEGIN)
  {
    ByteOfNone(line);
  }

  lemma {:induction false} InHandAt(line: string, n: nat)
    requires n <= |line|
    ensures InHand(line, n, Scan(BEGIN, line[..n]))
    decreases n
  {
    hide InHand, Scan, Scanner.Step;
    if n == 0 {
      assert line[..0] == [];
      NothingInHand(line);
    } else {
      InHandAt(line, n - 1);
      ScanSnoc(BEGIN, line, n - 1);
      InHandStep(line, n - 1, Scan(BEGIN, line[..n - 1]));
    }
  }

  lemma WithinGrows(words: seq<Word>, ends: seq<nat>, w: Word, e: nat)
    requires |ends| == |words|
    ensures forall k: nat :: Within(words + [w], ends + [e], k) <==> Within(words, ends, k) || w.column <= k + 1 <= e
  {
    forall k: nat
      ensures Within(words + [w], ends + [e], k) <==> Within(words, ends, k) || w.column <= k + 1 <= e
    {
      if Within(words, ends, k) {
        var i :| 0 <= i < |words| && words[i].column <= k + 1 <= ends[i];
        assert (words + [w])[i] == words[i] && (ends + [e])[i] == ends[i];
      }
      if w.column <= k + 1 <= e {
        assert (words + [w])[|words|] == w && (ends + [e])[|words|] == e;
      }
    }
  }

  /** Flushing the word in hand keeps what is known of the words, and only that
      word can end inside a quote. */
  lemma FlushFits(line: string, n: nat, s: Scanner, ends: seq<nat>) returns (ends': seq<nat>)
    requires InHand(line, n, s) && Flushed(line, n, s, ends)
    ensures var words := s.Flush().words;
            && Covered(line, words, ends') && Apart(words, ends') && BlankBetween(line, words, ends', n + 1)
            && (ends' != [] ==> ends'[|ends'| - 1] <= n)
            && (forall i :: 0 <= i < |words| ==> (words[i].openQuote <==> i == |words| - 1 && s.quoted))
            && (s.quoted ==> words != [])
  {
    hide ByteOf, Unquoted, Quotes, Within;
    ends' := ends;
    if s.open {
      WithinGrows(s.words, ends, s.Flush().words[|s.words|], n);
      ends' := ends + [n];
    }
  }

  lemma FlushedStep(line: string, n: nat, s: Scanner, ends: seq<nat>) returns (ends': seq<nat>)
    requires n < |line| && InHand(line, n, s) && Flushed(line, n, s, ends)
    ensures Flushed(line, n + 1, s.Step(line[n]), ends')
  {
    hide ByteOf, Unquoted, Quotes, Covered, Within, Apart;
    ends' := ends;
    if !s.quoted && IsBlank(line[n]) {
      ends' := FlushFits(line, n, s, ends);
    }
  }

  lemma {:induction false} FlushedAt(line: string, n: nat) returns (ends: seq<nat>)
    requires n <= |line|
    ensures Flushed(line, n, Scan(BEGIN, line[..n]), ends)
    decreases n
  {
    hide Flushed, InHand, Scanner.Step;
    if n == 0 {
      assert line[..0] == [];
      NothingFlushed(line);
      ends := [];
    } else {
      ends := FlushedAt(line, n - 1);
      InHandAt(line, n - 1);
      ScanSnoc(BEGIN, line, n - 1);
      ends := FlushedStep(line, n - 1, Scan(BEGIN, line[..n - 1]), ends);
    }
  }

  lemma NothingFlushed(line: string)
    ensures Flushed(line, 0, BEGIN, [])
  {
  }

  /** A lexed line is its words and blanks; only the last word can end inside a
      quote, and it does exactly when the line holds an odd number of quotes. */
  lemma LexSpans(line: string) returns (ends: seq<nat>)
    ensures Spans(line, Lex(line), ends)
    ensures forall i :: 0 <= i < |Lex(line)| - 1 ==> !Lex(line)[i].openQuote
    ensures (Lex(line) != [] && Lex(line)[|Lex(line)| - 1].openQuote) <==> Quotes(line, |line|) % 2 == 1
  {
    hide Flushed, Scanner.Flush, Scan, Covered, Apart, BlankBetween, ByteOf, Unquoted, Quotes;
    ends := FlushedAt(line, |line|);
    InHandAt(line, |line|);
    assert line[..|line|] == line;
    ends := FlushFits(line, |line|, Scan(BEGIN, line), ends);
  }

  // ----- the cursor -----

  /** The offset itself when it is on the line, its nearer end when it is not. */
  function Clamped(line: string, offset: int): (at: nat)
    ensures at <= |Encode(line)|
  {
    Max(0, Min(|Encode(line)|, offset))
  }

  /** An editor's byte offset, held to the line and back to the start of the rune
      it falls in. */
  method WordBoundary(line: string, cursorByte: int) returns (offset: nat)
    ensures offset <= Clamped(line, cursorByte) && OnRune(line, offset)
    ensures forall b :: offset < b <= Clamped(line, cursorByte) ==> !OnRune(line, b)
  {
    hide OnRune, IsContinuation, Encode;
    var bytes := Encode(line);
    offset := Max(0, Min(|bytes|, cursorByte));
    while 0 < offset < |bytes| && IsContinuation(bytes[offset])
      invariant offset <= Clamped(line, cursorByte)
      invariant forall b :: offset < b <= Clamped(line, cursorByte) ==> !OnRune(line, b)
      decreases offset
    {
      OnRuneIffNoContinuation(line, offset);
      offset := offset - 1;
    }
    if offset == 0 {
      BeginsOnRune(line);
    } else {
      OnRuneIffNoContinuation(line, offset);
    }
  }

  lemma BeginsOnRune(line: string)
    ensures OnRune(line, 0)
  {
    ByteOfNone(line);
  }

  /** How many whole runes lie before a byte offset. */
  ghost predicate WholeRunes(line: string, cursorByte: int, n: nat) {
    && n <= |line| && ByteOf(line, n) <= Clamped(line, cursorByte)
    && (n < |line| ==> Clamped(line, cursorByte) < ByteOf(line, n + 1))
  }

  /** Whether a cursor at any byte offset stands inside a quote. */
  method InsideQuoteAt(line: string, cursorByte: int) returns (inside: bool, ghost n: nat)
    ensures WholeRunes(line, cursorByte, n) && (inside <==> Quotes(line, n) % 2 == 1)
  {
    hide Quotes, Lex, Spans, Encode, Clamped;
    var offset := WordBoundary(line, cursorByte);
    n := RunesUpTo(line, cursorByte, offset);
    var words := LexLine(Runes(Encode(line)[..offset]));
    ghost var ends := LexSpans(line[..n]);
    QuotesBefore(line, n, n);
    inside := |words| > 0 && words[|words| - 1].openQuote;
  }

  lemma RunesUpTo(line: string, cursorByte: int, offset: nat) returns (n: nat)
    requires offset <= Clamped(line, cursorByte) && OnRune(line, offset)
    requires forall b :: offset < b <= Clamped(line, cursorByte) ==> !OnRune(line, b)
    ensures WholeRunes(line, cursorByte, n) && Runes(Encode(line)[..offset]) == line[..n]
  {
    hide ByteOf, Encode, Clamped;
    n :| 0 <= n <= |line| && ByteOf(line, n) == offset;
    EncodeSplit(line, n);
    RunesOfEncode(line[..n]);
    if n < |line| {
      ByteOfNext(line, n);
      assert OnRune(line, ByteOf(line, n + 1));
    }
  }

  lemma {:induction false} QuotesBefore(line: string, n: nat, m: nat)
    requires m <= n <= |line|
    ensures Quotes(line[..n], m) == Quotes(line, m)
    decreases m
  {
    if m > 0 {
      QuotesBefore(line, n, m - 1);
    }
  }
}
