/** Painted text laid out in terminal cells: rows that wrap whole glyphs, carry
    their own colours, and know where the cursor is (internal/cli/layout.go). */
module Layout {
  import opened Common
  import opened Utf8

  const ESCAPE: char := '\U{001B}'

  /** A terminal cell; a column equal to the width is a wrap still deferred. */
  datatype Position = Position(row: nat, col: nat)

  // ----- the clusters of a painted text -----

  predicate IsPaint(c: string) {
    |c| >= 2 && c[0] == ESCAPE && c[1] == '['
  }

  predicate IsReset(c: string) {
    c == [ESCAPE] + "[m" || c == [ESCAPE] + "[0m"
  }

  predicate IsNewline(c: string) {
    c == "\n" || c == "\r\n"
  }

  predicate IsGlyph(c: string) {
    !IsPaint(c) && !IsNewline(c)
  }

  /** The bytes a cluster stands for in the unpainted text. */
  function Bytes(c: string): nat {
    if IsPaint(c) then 0 else |Encode(c)|
  }

  /** The terminal: how many cells a glyph takes, and how wide it is; a width
      that is not positive is none at all. */
  datatype Screen = Screen(cells: string -> nat, width: int)
  {
    predicate TooWide(c: string) {
      width > 0 && cells(c) > width
    }

    function Shown(c: string): string {
      if TooWide(c) then "?" else c
    }

    function Cells(c: string): nat {
      if TooWide(c) then 1 else cells(c)
    }

    predicate Fits(col: nat, c: string) {
      width <= 0 || Cells(c) == 0 || col + Cells(c) <= width
    }
  }

  // ----- what a row holds -----

  datatype Item = Paint(text: string) | Glyph(cluster: nat, shown: string, col: nat, cells: nat)
  {
    function Written(): string {
      if Paint? then text else shown
    }

    function Width(): nat {
      if Paint? then 0 else cells
    }

    function Clusters(): seq<nat> {
      if Paint? then [] else [cluster]
    }

    function Colours(pieces: seq<string>): seq<string> {
      if Paint? then Painted(pieces, text) else pieces
    }
  }

  function Flat(row: seq<Item>): string {
    if row == [] then ""
    else Flat(row[..|row| - 1]) + row[|row| - 1].Written()
  }

  ghost function ColsOf(row: seq<Item>): nat {
    if row == [] then 0
    else ColsOf(row[..|row| - 1]) + row[|row| - 1].Width()
  }

  ghost function GlyphsIn(row: seq<Item>): seq<nat> {
    if row == [] then []
    else GlyphsIn(row[..|row| - 1]) + row[|row| - 1].Clusters()
  }

  /** The colours in force after one more sequence. */
  function Painted(pieces: seq<string>, c: string): seq<string> {
    if IsReset(c) then [] else pieces + [c]
  }

  /** The colours in force at a row's end, as a terminal that is shown this row
      alone has them. */
  ghost function Effect(row: seq<Item>): seq<string> {
    if row == [] then [] else row[|row| - 1].Colours(Effect(row[..|row| - 1]))
  }

  /** The same for the first n clusters of the text. */
  ghost function StyleAt(cs: seq<string>, n: nat): seq<string>
    requires n <= |cs|
  {
    if n == 0 then []
    else if IsPaint(cs[n - 1]) then Painted(StyleAt(cs, n - 1), cs[n - 1])
    else StyleAt(cs, n - 1)
  }

  ghost function OffsetOf(cs: seq<string>, n: nat): nat
    requires n <= |cs|
  {
    if n == 0 then 0 else OffsetOf(cs, n - 1) + Bytes(cs[n - 1])
  }

  ghost function GlyphsBetween(cs: seq<string>, a: nat, b: nat): seq<nat>
    requires a <= b <= |cs|
  {
    if a == b then []
    else GlyphsBetween(cs, a, b - 1) + if IsGlyph(cs[b - 1]) then [b - 1] else []
  }

  /** What one cluster more does to the text: a colour sequence takes no bytes
      and changes the colours, the two resets clear them, a newline of either
      kind is no glyph, and everything else is one. */
  lemma ClusterAdds(cs: seq<string>, a: nat, n: nat)
    requires a <= n < |cs|
    ensures var c := cs[n];
            var paint := "\U{001B}[" <= c;
            && StyleAt(cs, n + 1) == (if c == "\U{001B}[m" || c == "\U{001B}[0m" then []
                                     else if paint then StyleAt(cs, n) + [c] else StyleAt(cs, n))
            && OffsetOf(cs, n + 1) == OffsetOf(cs, n) + (if paint then 0 else |Encode(c)|)
            && GlyphsBetween(cs, a, n + 1)
               == GlyphsBetween(cs, a, n) + (if paint || c == "\n" || c == "\r\n" then [] else [n])
  {
    hide Encode;
    var c := cs[n];
    assert "\U{001B}[" <= c <==> |c| >= 2 && c[0] == ESCAPE && c[1] == '[';
  }

  function Paints(pieces: seq<string>): seq<Item> {
    seq(|pieces|, i requires 0 <= i < |pieces| => Paint(pieces[i]))
  }

  lemma RowSnoc(row: seq<Item>, item: Item)
    ensures Flat(row + [item]) == Flat(row) + item.Written()
    ensures ColsOf(row + [item]) == ColsOf(row) + item.Width()
    ensures GlyphsIn(row + [item]) == GlyphsIn(row) + item.Clusters()
    ensures Effect(row + [item]) == item.Colours(Effect(row))
  {
    assert (row + [item])[..|row|] == row;
  }

  lemma EmptyRow()
    ensures Flat([]) == "" && ColsOf([]) == 0 && GlyphsIn([]) == [] && Effect([]) == []
  {
  }

  /** A row begun with the colours in force has them in force. */
  lemma {:induction false} PaintsCarry(pieces: seq<string>)
    requires forall i :: 0 <= i < |pieces| ==> !IsReset(pieces[i])
    ensures Effect(Paints(pieces)) == pieces && ColsOf(Paints(pieces)) == 0 && GlyphsIn(Paints(pieces)) == []
    decreases |pieces|
  {
    hide Effect, ColsOf, GlyphsIn;
    if pieces == [] {
      EmptyRow();
    } else {
      var n := |pieces| - 1;
      PaintsCarry(pieces[..n]);
      assert Paints(pieces) == Paints(pieces[..n]) + [Paint(pieces[n])];
      RowSnoc(Paints(pieces[..n]), Paint(pieces[n]));
      assert pieces == pieces[..n] + [pieces[n]];
    }
  }

  // ----- the page -----

  /** A page half laid out: the rows done, the row in hand, the cluster each row
      ended before (a newline, or the glyph that did not fit), where each
      cluster went, the colours in force, and where the next one goes. */
  datatype Page = Page(done: seq<seq<Item>>, line: seq<Item>, breaks: seq<nat>, spots: seq<Position>,
                       pieces: seq<string>, pos: Position, offset: nat)
  {
    function Break(): Page {
      this.(done := done + [line], breaks := breaks + [|spots|], line := Paints(pieces),
            pos := Position(pos.row + 1, 0))
    }

    function AddPaint(c: string): Page {
      this.(line := line + [Paint(c)], pieces := Painted(pieces, c), spots := spots + [pos])
    }

    function AddNewline(c: string): Page {
      this.(offset := offset + Bytes(c)).Break().(spots := spots + [pos])
    }

    function Draw(screen: Screen, c: string): Page {
      this.(line := line + [Glyph(|spots|, screen.Shown(c), pos.col, screen.Cells(c))], spots := spots + [pos],
            pos := pos.(col := pos.col + screen.Cells(c)), offset := offset + Bytes(c))
    }

    function Add(screen: Screen, c: string): Page {
      if IsPaint(c) then AddPaint(c)
      else if IsNewline(c) then AddNewline(c)
      else if screen.Fits(pos.col, c) then Draw(screen, c)
      else Break().Draw(screen, c)
    }

    ghost function Row(r: nat): seq<Item>
      requires r <= |done|
    {
      if r == |done| then line else done[r]
    }

    /** The first cluster of a row: past the newline that ended the one before,
        or the glyph that did not fit there. */
    ghost function Start(cs: seq<string>, r: nat): nat
      requires r <= |breaks| && forall i :: 0 <= i < |breaks| ==> breaks[i] < |cs|
    {
      if r == 0 then 0 else if IsNewline(cs[breaks[r - 1]]) then breaks[r - 1] + 1 else breaks[r - 1]
    }
  }

  const BLANK := Page([], [], [], [], [], Position(0, 0), 0)

  ghost function PageOf(screen: Screen, cs: seq<string>, n: nat): (p: Page)
    requires n <= |cs|
    ensures |p.spots| == n
  {
    if n == 0 then BLANK else PageOf(screen, cs, n - 1).Add(screen, cs[n - 1])
  }

  // ----- what is true of every page -----

  /** A row no wider than the screen, whose glyphs stand side by side, each shown
      whole or as one "?", and each in the colours the text gives it. */
  ghost predicate GoodRow(screen: Screen, cs: seq<string>, row: seq<Item>) {
    && (screen.width > 0 ==> ColsOf(row) <= screen.width)
    && forall j :: 0 <= j < |row| && row[j].Glyph? ==> GoodGlyph(screen, cs, row, j)
  }

  /** A glyph wider than the whole screen stands as one "?" cell; any other as
      it is. */
  ghost predicate Displays(screen: Screen, c: string, shown: string, cells: nat) {
    if screen.width > 0 && screen.cells(c) > screen.width then shown == "?" && cells == 1
    else shown == c && cells == screen.cells(c)
  }

  ghost predicate GoodGlyph(screen: Screen, cs: seq<string>, row: seq<Item>, j: nat)
    requires j < |row| && row[j].Glyph?
  {
    && row[j].cluster < |cs| && IsGlyph(cs[row[j].cluster])
    && Displays(screen, cs[row[j].cluster], row[j].shown, row[j].cells)
    && row[j].col == ColsOf(row[..j])
    && Effect(row[..j]) == StyleAt(cs, row[j].cluster)
  }

  lemma GoodSnoc(screen: Screen, cs: seq<string>, row: seq<Item>, item: Item)
    requires GoodRow(screen, cs, row)
    requires item.Glyph? ==>
               && item.cluster < |cs| && IsGlyph(cs[item.cluster])
               && Displays(screen, cs[item.cluster], item.shown, item.cells)
               && item.col == ColsOf(row) && Effect(row) == StyleAt(cs, item.cluster)
               && (screen.width <= 0 || item.cells == 0 || ColsOf(row) + item.cells <= screen.width)
    ensures GoodRow(screen, cs, row + [item])
  {
    hide ColsOf, Effect, StyleAt, IsGlyph, Displays;
    RowSnoc(row, item);
    forall j | 0 <= j < |row + [item]| && (row + [item])[j].Glyph? ensures GoodGlyph(screen, cs, row + [item], j) {
      assert (row + [item])[..j] == if j < |row| then row[..j] else row;
      if j < |row| {
        assert GoodGlyph(screen, cs, row, j);
      }
    }
  }

  lemma GoodPaints(screen: Screen, cs: seq<string>, pieces: seq<string>)
    requires forall i :: 0 <= i < |pieces| ==> !IsReset(pieces[i])
    ensures GoodRow(screen, cs, Paints(pieces))
  {
    PaintsCarry(pieces);
  }

  /** Colours and columns. */
  ghost predicate Drawn(screen: Screen, cs: seq<string>, n: nat, p: Page)
    requires n <= |cs|
  {
    && (forall r :: 0 <= r < |p.done| ==> GoodRow(screen, cs, p.done[r]))
    && GoodRow(screen, cs, p.line)
    && p.pos == Position(|p.done|, ColsOf(p.line))
    && Effect(p.line) == p.pieces == StyleAt(cs, n)
    && (forall i :: 0 <= i < |p.pieces| ==> !IsReset(p.pieces[i]))
    && p.offset == OffsetOf(cs, n) && |p.spots| == n
  }

  lemma DrawnBreak(screen: Screen, cs: seq<string>, n: nat, p: Page)
    requires n <= |cs| && Drawn(screen, cs, n, p)
    ensures Drawn(screen, cs, n, p.Break())
  {
    hide GoodRow, ColsOf, Effect, StyleAt, OffsetOf, Paints;
    GoodPaints(screen, cs, p.pieces);
    PaintsCarry(p.pieces);
  }

  lemma DrawnDraw(screen: Screen, cs: seq<string>, n: nat, p: Page)
    requires n < |cs| && Drawn(screen, cs, n, p) && IsGlyph(cs[n]) && screen.Fits(p.pos.col, cs[n])
    ensures Drawn(screen, cs, n + 1, p.Draw(screen, cs[n]))
  {
    hide GoodRow, ColsOf, Effect;
    var item := Glyph(n, screen.Shown(cs[n]), p.pos.col, screen.Cells(cs[n]));
    GoodSnoc(screen, cs, p.line, item);
    RowSnoc(p.line, item);
  }

  lemma DrawnPaint(screen: Screen, cs: seq<string>, n: nat, p: Page)
    requires n < |cs| && Drawn(screen, cs, n, p) && IsPaint(cs[n])
    ensures Drawn(screen, cs, n + 1, p.AddPaint(cs[n]))
  {
    hide GoodRow, ColsOf, Effect;
    GoodSnoc(screen, cs, p.line, Paint(cs[n]));
    RowSnoc(p.line, Paint(cs[n]));
  }

  lemma DrawnNewline(screen: Screen, cs: seq<string>, n: nat, p: Page)
    requires n < |cs| && Drawn(screen, cs, n, p) && IsNewline(cs[n])
    ensures Drawn(screen, cs, n + 1, p.AddNewline(cs[n]))
  {
    hide GoodRow, ColsOf, Effect, Paints;
    GoodPaints(screen, cs, p.pieces);
    PaintsCarry(p.pieces);
  }

  /** A new row always takes the next glyph: no glyph shown is wider than the
      screen. */
  lemma FreshRowFits(screen: Screen, c: string)
    ensures screen.Fits(0, c)
  {
  }

  lemma {:induction false} EveryPageIsDrawn(screen: Screen, cs: seq<string>, n: nat)
    requires n <= |cs|
    ensures Drawn(screen, cs, n, PageOf(screen, cs, n))
    decreases n
  {
    hide Drawn, Screen.Fits, Page.Break, Page.Draw, Page.AddPaint, Page.AddNewline;
    if n == 0 {
      BlankIsDrawn(screen, cs);
    } else {
      var p := PageOf(screen, cs, n - 1);
      EveryPageIsDrawn(screen, cs, n - 1);
      if IsPaint(cs[n - 1]) {
        DrawnPaint(screen, cs, n - 1, p);
      } else if IsNewline(cs[n - 1]) {
        DrawnNewline(screen, cs, n - 1, p);
      } else if screen.Fits(p.pos.col, cs[n - 1]) {
        DrawnDraw(screen, cs, n - 1, p);
      } else {
        DrawnBreak(screen, cs, n - 1, p);
        FreshRowFits(screen, cs[n - 1]);
        BreakStartsOver(p);
        DrawnDraw(screen, cs, n - 1, p.Break());
      }
    }
  }

  lemma BlankIsDrawn(screen: Screen, cs: seq<string>)
    ensures Drawn(screen, cs, 0, BLANK)
  {
  }

  lemma BreakStartsOver(p: Page)
    ensures p.Break().pos.col == 0
  {
  }

  // ----- which clusters each row holds -----

  ghost predicate Within(cs: seq<string>, p: Page) {
    |p.breaks| == |p.done| && forall i :: 0 <= i < |p.breaks| ==> p.breaks[i] < |cs|
  }

  /** Row r holds exactly the glyphs from its start to `end`, in order, and no
      newline. */
  ghost predicate RowHolds(cs: seq<string>, p: Page, r: nat, end: nat)
    requires Within(cs, p) && r <= |p.done|
  {
    && p.Start(cs, r) <= end <= |cs|
    && GlyphsIn(p.Row(r)) == GlyphsBetween(cs, p.Start(cs, r), end)
    && forall k :: p.Start(cs, r) <= k < end ==> cs[k] != "\n" && cs[k] != "\r\n"
  }

  /** A row ends only at a newline, or before a glyph it has no room for, one
      that takes cells, and as many as would pass the width. */
  ghost predicate RowEnds(screen: Screen, cs: seq<string>, p: Page, r: nat)
    requires Within(cs, p) && r < |p.done|
  {
    var c := cs[p.breaks[r]];
    || c == "\n" || c == "\r\n"
    || (IsGlyph(c) && screen.width > 0 && screen.cells(c) > 0
        && ColsOf(p.done[r]) + (if screen.cells(c) > screen.width then 1 else screen.cells(c)) > screen.width)
  }

  ghost predicate Parted(screen: Screen, cs: seq<string>, n: nat, p: Page)
    requires n <= |cs|
  {
    && Within(cs, p)
    && (forall r :: 0 <= r < |p.done| ==> RowHolds(cs, p, r, p.breaks[r]) && RowEnds(screen, cs, p, r))
    && RowHolds(cs, p, |p.done|, n)
  }

  /** A row done stays as it is. */
  lemma RowKept(screen: Screen, cs: seq<string>, p: Page, q: Page, r: nat)
    requires Within(cs, p) && Within(cs, q) && r < |p.done| <= |q.done|
    requires q.done[..|p.done|] == p.done && q.breaks[..|p.done|] == p.breaks
    requires RowHolds(cs, p, r, p.breaks[r]) && RowEnds(screen, cs, p, r)
    ensures RowHolds(cs, q, r, q.breaks[r]) && RowEnds(screen, cs, q, r)
  {
    hide GlyphsIn, GlyphsBetween, IsGlyph, IsNewline, ColsOf;
    assert q.done[r] == q.done[..|p.done|][r] && q.breaks[r] == q.breaks[..|p.done|][r];
    if r > 0 {
      assert q.breaks[r - 1] == q.breaks[..|p.done|][r - 1];
    }
  }

  lemma RowGrows(cs: seq<string>, n: nat, p: Page, q: Page)
    requires Within(cs, p) && Within(cs, q) && n < |cs| && RowHolds(cs, p, |p.done|, n) && !IsNewline(cs[n])
    requires q.done == p.done && q.breaks == p.breaks
    requires GlyphsIn(q.line) == GlyphsIn(p.line) + if IsGlyph(cs[n]) then [n] else []
    ensures RowHolds(cs, q, |q.done|, n + 1)
  {
    hide GlyphsIn, IsGlyph;
  }

  /** Only the row in hand grows. */
  lemma PartedMore(screen: Screen, cs: seq<string>, n: nat, p: Page, q: Page)
    requires n < |cs| && Parted(screen, cs, n, p) && !IsNewline(cs[n])
    requires q.done == p.done && q.breaks == p.breaks
    requires GlyphsIn(q.line) == GlyphsIn(p.line) + if IsGlyph(cs[n]) then [n] else []
    ensures Parted(screen, cs, n + 1, q)
  {
    hide GlyphsIn, IsGlyph, IsNewline, RowHolds, RowEnds;
    forall r | 0 <= r < |q.done| ensures RowHolds(cs, q, r, q.breaks[r]) && RowEnds(screen, cs, q, r) {
      RowKept(screen, cs, p, q, r);
    }
    RowGrows(cs, n, p, q);
  }

  /** A row ended at cluster n begins the next one past it, or with it. */
  lemma PartedBreak(screen: Screen, cs: seq<string>, n: nat, p: Page, q: Page)
    requires n < |cs| && Parted(screen, cs, n, p)
    requires IsNewline(cs[n]) || (IsGlyph(cs[n]) && !screen.Fits(ColsOf(p.line), cs[n]))
    requires q.done == p.done + [p.line] && q.breaks == p.breaks + [n] && GlyphsIn(q.line) == []
    ensures Parted(screen, cs, if IsNewline(cs[n]) then n + 1 else n, q)
  {
    hide GlyphsIn, GlyphsBetween, IsGlyph, IsNewline, ColsOf, Screen.Fits, RowHolds, RowEnds;
    forall r | 0 <= r < |q.done| ensures RowHolds(cs, q, r, q.breaks[r]) && RowEnds(screen, cs, q, r) {
      if r < |p.done| {
        RowKept(screen, cs, p, q, r);
      } else {
        RowEnded(screen, cs, n, p, q);
      }
    }
    RowBegins(cs, n, q);
  }

  lemma RowEnded(screen: Screen, cs: seq<string>, n: nat, p: Page, q: Page)
    requires Within(cs, p) && n < |cs| && RowHolds(cs, p, |p.done|, n)
    requires IsNewline(cs[n]) || (IsGlyph(cs[n]) && !screen.Fits(ColsOf(p.line), cs[n]))
    requires q.done == p.done + [p.line] && q.breaks == p.breaks + [n]
    ensures Within(cs, q) && RowHolds(cs, q, |p.done|, n) && RowEnds(screen, cs, q, |p.done|)
  {
    hide GlyphsIn, GlyphsBetween, IsGlyph, ColsOf;
    assert q.Start(cs, |p.done|) == p.Start(cs, |p.done|);
  }

  lemma RowBegins(cs: seq<string>, n: nat, q: Page)
    requires Within(cs, q) && n < |cs| && q.done != [] && q.breaks[|q.done| - 1] == n && GlyphsIn(q.line) == []
    ensures RowHolds(cs, q, |q.done|, if IsNewline(cs[n]) then n + 1 else n)
  {
    hide GlyphsIn, IsNewline;
  }

  lemma {:induction false} EveryPageIsParted(screen: Screen, cs: seq<string>, n: nat)
    requires n <= |cs|
    ensures Parted(screen, cs, n, PageOf(screen, cs, n))
    decreases n
  {
    hide Parted, Drawn, GlyphsIn, ColsOf, GlyphsBetween, Screen.Fits, Page.Draw, Paints, StyleAt, OffsetOf, Effect;
    if n == 0 {
      BlankIsParted(screen, cs);
    } else {
      var p, c := PageOf(screen, cs, n - 1), cs[n - 1];
      EveryPageIsParted(screen, cs, n - 1);
      EveryPageIsDrawn(screen, cs, n - 1);
      DrawnFacts(screen, cs, n - 1, p);
      PaintsCarry(p.pieces);
      if IsPaint(c) {
        RowSnoc(p.line, Paint(c));
        PartedMore(screen, cs, n - 1, p, p.AddPaint(c));
      } else if IsNewline(c) {
        PartedBreak(screen, cs, n - 1, p, p.AddNewline(c));
      } else if screen.Fits(p.pos.col, c) {
        PartedDraw(screen, cs, n - 1, p);
      } else {
        PartedBreak(screen, cs, n - 1, p, p.Break());
        PartedDraw(screen, cs, n - 1, p.Break());
      }
    }
  }

  lemma PartedDraw(screen: Screen, cs: seq<string>, n: nat, p: Page)
    requires n < |cs| && Parted(screen, cs, n, p) && IsGlyph(cs[n]) && |p.spots| == n
    ensures Parted(screen, cs, n + 1, p.Draw(screen, cs[n]))
  {
    hide Parted, GlyphsIn, Screen.Shown, Screen.Cells;
    RowSnoc(p.line, Glyph(n, screen.Shown(cs[n]), p.pos.col, screen.Cells(cs[n])));
    PartedMore(screen, cs, n, p, p.Draw(screen, cs[n]));
  }

  lemma DrawnFacts(screen: Screen, cs: seq<string>, n: nat, p: Page)
    requires n <= |cs| && Drawn(screen, cs, n, p)
    ensures p.pos == Position(|p.done|, ColsOf(p.line)) && |p.spots| == n && p.offset == OffsetOf(cs, n)
    ensures forall i :: 0 <= i < |p.pieces| ==> !IsReset(p.pieces[i])
  {
  }

  lemma BlankIsParted(screen: Screen, cs: seq<string>)
    ensures Parted(screen, cs, 0, BLANK)
  {
  }

  /** The glyphs of the first r rows, in order. */
  ghost function GlyphsOfRows(p: Page, r: nat): seq<nat>
    requires r <= |p.done| + 1
  {
    if r == 0 then [] else GlyphsOfRows(p, r - 1) + GlyphsIn(p.Row(r - 1))
  }

  lemma {:induction false} GlyphsJoin(cs: seq<string>, a: nat, b: nat, c: nat)
    requires a <= b <= c <= |cs|
    ensures GlyphsBetween(cs, a, b) + GlyphsBetween(cs, b, c) == GlyphsBetween(cs, a, c)
    decreases c
  {
    if b < c {
      GlyphsJoin(cs, a, b, c - 1);
    }
  }

  lemma {:induction false} RowsJoin(screen: Screen, cs: seq<string>, n: nat, p: Page, r: nat)
    requires n <= |cs| && Parted(screen, cs, n, p) && r <= |p.done|
    ensures p.Start(cs, r) <= |cs| && GlyphsOfRows(p, r) == GlyphsBetween(cs, 0, p.Start(cs, r))
    decreases r
  {
    hide GlyphsIn, IsNewline, GlyphsBetween, RowHolds, RowEnds;
    if r == 0 {
      GlyphsJoin(cs, 0, 0, 0);
    } else {
      RowsJoin(screen, cs, n, p, r - 1);
      RowJoin(screen, cs, p, r - 1);
    }
  }

  lemma RowJoin(screen: Screen, cs: seq<string>, p: Page, r: nat)
    requires Within(cs, p) && r < |p.done| && RowHolds(cs, p, r, p.breaks[r]) && RowEnds(screen, cs, p, r)
    ensures p.Start(cs, r + 1) <= |cs|
    ensures GlyphsBetween(cs, 0, p.Start(cs, r)) + GlyphsIn(p.Row(r)) == GlyphsBetween(cs, 0, p.Start(cs, r + 1))
  {
    hide GlyphsIn, IsGlyph, GlyphsBetween;
    GlyphsJoin(cs, 0, p.Start(cs, r), p.breaks[r]);
    if IsNewline(cs[p.breaks[r]]) {
      PastBreak(cs, p.breaks[r]);
    }
  }

  lemma PastBreak(cs: seq<string>, b: nat)
    requires b < |cs| && IsNewline(cs[b])
    ensures GlyphsBetween(cs, 0, b + 1) == GlyphsBetween(cs, 0, b)
  {
  }

  /** Nothing is lost or doubled: read row by row, the glyphs shown are exactly
      the text's, in order, newlines apart. */
  lemma RowsRejoin(screen: Screen, cs: seq<string>)
    ensures var p := PageOf(screen, cs, |cs|); GlyphsOfRows(p, |p.done| + 1) == GlyphsBetween(cs, 0, |cs|)
  {
    hide GlyphsIn, IsNewline;
    var p := PageOf(screen, cs, |cs|);
    EveryPageIsParted(screen, cs, |cs|);
    RowsJoin(screen, cs, |cs|, p, |p.done|);
    assert RowHolds(cs, p, |p.done|, |cs|);
    GlyphsJoin(cs, 0, p.Start(cs, |p.done|), |cs|);
  }

  // ----- where each cluster stands -----

  ghost predicate DrawnIn(row: seq<Item>, k: nat, col: nat) {
    exists j :: 0 <= j < |row| && row[j].Glyph? && row[j].cluster == k && row[j].col == col
  }

  /** A glyph stands where its row draws it; a newline where its row ends. */
  ghost predicate Stands(cs: seq<string>, p: Page, k: nat)
    requires k < |cs| && k < |p.spots| && |p.breaks| == |p.done|
  {
    var at := p.spots[k];
    && at.row <= |p.done|
    && (IsGlyph(cs[k]) ==> DrawnIn(p.Row(at.row), k, at.col))
    && (IsNewline(cs[k]) ==> at.row < |p.done| && at.col == ColsOf(p.done[at.row]) && p.breaks[at.row] == k)
  }

  ghost predicate AllStand(cs: seq<string>, n: nat, p: Page)
    requires n <= |cs|
  {
    |p.spots| == n && |p.breaks| == |p.done| && forall k :: 0 <= k < n ==> Stands(cs, p, k)
  }

  /** A page drawn on: every row begins as it did. */
  ghost predicate Continues(p: Page, q: Page) {
    && |p.breaks| == |p.done| && |q.breaks| == |q.done|
    && |p.done| <= |q.done| && q.done[..|p.done|] == p.done && q.breaks[..|p.done|] == p.breaks
    && p.line <= q.Row(|p.done|)
    && p.spots <= q.spots
  }

  lemma StillStands(cs: seq<string>, p: Page, q: Page, k: nat)
    requires Continues(p, q) && k < |cs| && k < |p.spots| && Stands(cs, p, k)
    ensures Stands(cs, q, k)
  {
    hide ColsOf, IsGlyph, IsNewline;
    var at := p.spots[k];
    assert q.spots[k] == at;
    if at.row < |p.done| {
      assert q.done[at.row] == q.done[..|p.done|][at.row] && q.breaks[at.row] == q.breaks[..|p.done|][at.row];
    } else if IsGlyph(cs[k]) {
      var j :| 0 <= j < |p.line| && p.line[j].Glyph? && p.line[j].cluster == k && p.line[j].col == at.col;
      assert q.Row(|p.done|)[j] == p.line[j];
    }
  }

  lemma AllStandOn(cs: seq<string>, n: nat, p: Page, q: Page)
    requires n < |cs| && AllStand(cs, n, p) && Continues(p, q) && |q.spots| == n + 1 && Stands(cs, q, n)
    ensures AllStand(cs, n + 1, q)
  {
    hide Stands;
    forall k | 0 <= k < n + 1 ensures Stands(cs, q, k) {
      if k < n {
        StillStands(cs, p, q, k);
      }
    }
  }

  lemma DrawStands(screen: Screen, cs: seq<string>, n: nat, p: Page, q: Page)
    requires n < |cs| && IsGlyph(cs[n]) && |p.spots| == n && |p.breaks| == |p.done|
    requires p.pos.row == |p.done| && q == p.Draw(screen, cs[n])
    ensures Stands(cs, q, n) && Continues(p, q)
  {
    assert q.line[|p.line|].cluster == n;
  }

  lemma BreakContinues(p: Page, q: Page)
    requires Continues(p.Break(), q) && |p.breaks| == |p.done|
    ensures Continues(p, q)
  {
    var b := p.Break();
    assert q.done[..|p.done|] == q.done[..|b.done|][..|p.done|];
    assert q.breaks[..|p.done|] == q.breaks[..|b.done|][..|p.done|];
    assert q.Row(|p.done|) == q.done[..|b.done|][|p.done|];
  }

  lemma {:induction false} EverythingStands(screen: Screen, cs: seq<string>, n: nat)
    requires n <= |cs|
    ensures AllStand(cs, n, PageOf(screen, cs, n))
    decreases n
  {
    hide Drawn, Continues, ColsOf, OffsetOf, Screen.Fits, Paints, Bytes, Page.Draw;
    if n > 0 {
      var p, c := PageOf(screen, cs, n - 1), cs[n - 1];
      var q := p.Add(screen, c);
      EverythingStands(screen, cs, n - 1);
      EveryPageIsDrawn(screen, cs, n - 1);
      DrawnFacts(screen, cs, n - 1, p);
      if IsGlyph(c) {
        if screen.Fits(p.pos.col, c) {
          DrawStands(screen, cs, n - 1, p, q);
        } else {
          DrawStands(screen, cs, n - 1, p.Break(), q);
          BreakContinues(p, q);
        }
        DrawSpots(screen, p, c);
        DrawSpots(screen, p.Break(), c);
      } else {
        OtherStands(screen, cs, n - 1, p, q);
      }
      AllStandOn(cs, n - 1, p, q);
    }
  }

  lemma DrawSpots(screen: Screen, p: Page, c: string)
    ensures |p.Draw(screen, c).spots| == |p.spots| + 1
  {
  }

  lemma OtherStands(screen: Screen, cs: seq<string>, n: nat, p: Page, q: Page)
    requires n < |cs| && !IsGlyph(cs[n]) && |p.spots| == n && |p.breaks| == |p.done|
    requires p.pos == Position(|p.done|, ColsOf(p.line)) && q == p.Add(screen, cs[n])
    ensures Stands(cs, q, n) && Continues(p, q) && |q.spots| == n + 1
  {
    hide ColsOf;
  }

  // ----- the cursor -----

  /** The cluster that holds a byte of the unpainted text: the first whose bytes
      reach past it. */
  ghost function Holder(cs: seq<string>, target: int, n: nat): (k: Option<nat>)
    requires n <= |cs|
    ensures k.Some? ==> k.value < n
  {
    if n == 0 then None
    else if Holder(cs, target, n - 1).Some? then Holder(cs, target, n - 1)
    else if !IsPaint(cs[n - 1]) && target < OffsetOf(cs, n) then Some(n - 1)
    else None
  }

  /** It does hold it; and when there is none, the byte is past the text. */
  lemma {:induction false} HolderHolds(cs: seq<string>, target: nat, n: nat)
    requires n <= |cs|
    ensures match Holder(cs, target, n)
            case Some(k) => k < n && !IsPaint(cs[k]) && OffsetOf(cs, k) <= target < OffsetOf(cs, k + 1)
            case None => OffsetOf(cs, n) <= target
    decreases n
  {
    if n > 0 {
      HolderHolds(cs, target, n - 1);
    }
  }

  ghost function CursorOf(screen: Screen, cs: seq<string>, target: int): Position {
    var p, k := PageOf(screen, cs, |cs|), Holder(cs, target, |cs|);
    if k.Some? then p.spots[k.value] else p.pos
  }

  /** The cursor's cell is where the glyph that holds its byte is drawn, or where
      the row of the newline that holds it ends; past the text it is the end. */
  lemma CursorIsWhereDrawn(screen: Screen, cs: seq<string>, target: nat, k: nat)
    requires k < |cs| && !IsPaint(cs[k]) && OffsetOf(cs, k) <= target < OffsetOf(cs, k + 1)
    ensures var p, at := PageOf(screen, cs, |cs|), CursorOf(screen, cs, target);
            && at.row <= |p.done|
            && (IsGlyph(cs[k]) ==> DrawnIn(p.Row(at.row), k, at.col))
            && (IsNewline(cs[k]) ==> at.row < |p.done| && at.col == ColsOf(p.done[at.row]))
  {
    hide PageOf, DrawnIn, ColsOf;
    HolderHolds(cs, target, |cs|);
    HolderIs(cs, target, k, |cs|);
    EverythingStands(screen, cs, |cs|);
    assert Stands(cs, PageOf(screen, cs, |cs|), k);
  }

  lemma {:induction false} HolderIs(cs: seq<string>, target: nat, k: nat, n: nat)
    requires k < n <= |cs| && !IsPaint(cs[k]) && OffsetOf(cs, k) <= target < OffsetOf(cs, k + 1)
    ensures Holder(cs, target, n) == Some(k)
    decreases n
  {
    if k == n - 1 {
      HolderHolds(cs, target, k);
      if Holder(cs, target, k).Some? {
        OffsetsGrow(cs, Holder(cs, target, k).value + 1, k);
      }
    } else {
      HolderIs(cs, target, k, n - 1);
    }
  }

  lemma {:induction false} OffsetsGrow(cs: seq<string>, a: nat, b: nat)
    requires a <= b <= |cs|
    ensures OffsetOf(cs, a) <= OffsetOf(cs, b)
    decreases b
  {
    if a < b {
      OffsetsGrow(cs, a, b - 1);
    }
  }

  // ----- the builder -----

  /** The strings in hand are the page's rows. */
  ghost predicate Renders(p: Page, rows: seq<string>, line: string, style: string) {
    && |rows| == |p.done| && (forall r :: 0 <= r < |rows| ==> rows[r] == Flat(p.done[r]))
    && line == Flat(p.line) && style == Flat(Paints(p.pieces))
  }

  lemma RendersPaint(p: Page, rows: seq<string>, line: string, style: string, c: string)
    requires Renders(p, rows, line, style)
    ensures Renders(p.AddPaint(c), rows, line + c, if IsReset(c) then "" else style + c)
  {
    hide Flat, IsReset;
    EmptyRow();
    RowSnoc(p.line, Paint(c));
    RowSnoc(Paints(p.pieces), Paint(c));
    assert Paints(p.pieces + [c]) == Paints(p.pieces) + [Paint(c)];
    assert Paints([]) == [];
  }

  lemma RendersBreak(p: Page, rows: seq<string>, line: string, style: string)
    requires Renders(p, rows, line, style)
    ensures Renders(p.Break(), rows + [line], style, style)
    ensures forall c :: Renders(p.AddNewline(c), rows + [line], style, style)
  {
    hide Flat, Paints;
  }

  lemma RendersDraw(screen: Screen, p: Page, rows: seq<string>, line: string, style: string, c: string)
    requires Renders(p, rows, line, style)
    ensures Renders(p.Draw(screen, c), rows, line + screen.Shown(c), style)
  {
    hide Flat, Paints;
    RowSnoc(p.line, Glyph(|p.spots|, screen.Shown(c), p.pos.col, screen.Cells(c)));
  }

  lemma {:induction false} Unmoved(screen: Screen, cs: seq<string>, c: string, target: int, n: nat)
    requires n <= |cs|
    ensures PageOf(screen, cs + [c], n) == PageOf(screen, cs, n)
    ensures OffsetOf(cs + [c], n) == OffsetOf(cs, n)
    ensures Holder(cs + [c], target, n) == Holder(cs, target, n)
    decreases n
  {
    hide Page.Add, Bytes;
    if n > 0 {
      Unmoved(screen, cs, c, target, n - 1);
    }
  }

  class LayoutBuilder {
    const screen: Screen
    const target: int
    var rows: seq<string>
    var line: string
    var style: string
    var position: Position
    var offset: nat
    var found: bool
    var cursor: Position
    ghost var seen: seq<string>

    ghost function Drawing(): Page
      reads this
    {
      PageOf(screen, seen, |seen|)
    }

    /** The page of the clusters seen so far, and the cursor once its cluster has
        gone by. */
    ghost predicate Valid()
      reads this
    {
      && Renders(Drawing(), rows, line, style)
      && position == Drawing().pos && offset == Drawing().offset
      && found == Holder(seen, target, |seen|).Some?
      && (found ==> cursor == Drawing().spots[Holder(seen, target, |seen|).value])
    }

    constructor (screen: Screen, target: int)
      ensures Valid() && seen == [] && this.screen == screen && this.target == target
    {
      this.screen, this.target := screen, target;
      rows, line, style, position, offset := [], "", "", Position(0, 0), 0;
      found, cursor := false, Position(0, 0);
      seen := [];
    }

    method Flush()
      modifies this`rows, this`line
      ensures rows == old(rows) + [old(line)] && line == ""
    {
      rows := rows + [line];
      line := "";
    }

    method Add(cluster: string)
      requires Valid()
      modifies this
      ensures Valid() && seen == old(seen) + [cluster]
    {
      hide Renders, PageOf, Holder, Paints, OffsetOf;
      ghost var p := Drawing();
      Next(cluster);
      if |cluster| >= 2 && cluster[0] == ESCAPE && cluster[1] == '[' {
        RendersPaint(p, rows, line, style, cluster);
        line := line + cluster;
        if cluster == [ESCAPE] + "[m" || cluster == [ESCAPE] + "[0m" {
          style := "";
        } else {
          style := style + cluster;
        }
        seen := seen + [cluster];
        return;
      }
      if cluster == "\n" || cluster == "\r\n" {
        if !found && target < offset + |Encode(cluster)| {
          cursor, found := position, true;
        }
        offset := offset + |Encode(cluster)|;
        RendersBreak(p, rows, line, style);
        this.Flush();
        position := Position(position.row + 1, 0);
        line := line + style;
        assert line == style;
        seen := seen + [cluster];
        return;
      }
      this.AddGlyph(cluster);
    }

    method AddGlyph(cluster: string)
      requires Valid() && IsGlyph(cluster)
      modifies this
      ensures Valid() && seen == old(seen) + [cluster]
    {
      hide Renders, PageOf, Holder, Paints, OffsetOf;
      ghost var p := Drawing();
      Next(cluster);
      var cells := screen.cells(cluster);
      var shown := cluster;
      if screen.width > 0 && cells > screen.width {
        shown, cells := "?", 1;
      }
      if screen.width > 0 && cells > 0 && position.col + cells > screen.width {
        RendersBreak(p, rows, line, style);
        p := p.Break();
        this.Flush();
        position := Position(position.row + 1, 0);
        line := line + style;
        assert line == style;
      }
      RendersDraw(screen, p, rows, line, style, cluster);
      if !found && target < offset + |Encode(cluster)| {
        cursor, found := position, true;
      }
      line := line + shown;
      position := position.(col := position.col + cells);
      offset := offset + |Encode(cluster)|;
      seen := seen + [cluster];
    }

    lemma Next(c: string)
      requires Valid()
      ensures PageOf(screen, seen + [c], |seen| + 1) == Drawing().Add(screen, c)
      ensures Holder(seen + [c], target, |seen| + 1) ==
                if found then Holder(seen, target, |seen|)
                else if !IsPaint(c) && target < offset + Bytes(c) then Some(|seen|) else None
    {
      hide Page.Add, Renders, Bytes;
      Unmoved(screen, seen, c, target, |seen|);
      EveryPageIsDrawn(screen, seen, |seen|);
      DrawnFacts(screen, seen, |seen|, Drawing());
      assert (seen + [c])[|seen|] == c;
      assert OffsetOf(seen + [c], |seen| + 1) == offset + Bytes(c);
    }
  }

  /** A laid out text: its rows, the cursor's cell, and where the text ends. */
  datatype EditLayout = EditLayout(rows: seq<string>, cursor: Position, end: Position)
  {
    /** The consecutive rows to show: the window stays where it is as long as the
        cursor is in it, and moves no further than it must. */
    method View(top: int, height: int) returns (first: int, last: int)
      requires cursor.row < |rows|
      ensures 0 <= first <= cursor.row < last <= |rows|
      ensures last - first == if height <= 0 then |rows| else Min(height, |rows|)
      ensures 0 < height < |rows| ==>
                var kept := Max(0, Min(top, |rows| - height));
                && (kept <= cursor.row < kept + height ==> first == kept)
                && (cursor.row < kept ==> first == cursor.row)
                && (cursor.row >= kept + height ==> last == cursor.row + 1)
    {
      if height <= 0 || |rows| <= height {
        return 0, |rows|;
      }
      first := Max(0, Min(top, |rows| - height));
      if cursor.row < first {
        first := cursor.row;
      } else if cursor.row >= first + height {
        first := cursor.row - height + 1;
      }
      last := Min(|rows|, first + height);
    }
  }

  method LayoutText(clusters: seq<string>, screen: Screen, cursor: int) returns (layout: EditLayout)
    ensures var p := PageOf(screen, clusters, |clusters|);
            && |layout.rows| == |p.done| + 1
            && (forall r :: 0 <= r < |layout.rows| ==> layout.rows[r] == Flat(p.Row(r)))
            && layout.end == p.pos && layout.cursor == CursorOf(screen, clusters, cursor)
    ensures layout.cursor.row <= layout.end.row == |layout.rows| - 1
  {
    hide Flat, PageOf, Holder, Paints;
    var b := new LayoutBuilder(screen, cursor);
    for i := 0 to |clusters|
      invariant fresh(b) && b.Valid() && b.seen == clusters[..i] && b.screen == screen && b.target == cursor
    {
      assert clusters[..i + 1] == clusters[..i] + [clusters[i]];
      b.Add(clusters[i]);
    }
    assert clusters[..|clusters|] == clusters;
    if !b.found {
      b.cursor := b.position;
    }
    CursorStays(screen, clusters, cursor);
    var end := b.position;
    b.Flush();
    layout := EditLayout(b.rows, b.cursor, end);
  }

  /** The cursor is on the page. */
  lemma CursorStays(screen: Screen, cs: seq<string>, target: int)
    ensures CursorOf(screen, cs, target).row <= PageOf(screen, cs, |cs|).pos.row
    ensures PageOf(screen, cs, |cs|).pos.row == |PageOf(screen, cs, |cs|).done|
  {
    hide PageOf, ColsOf, StyleAt, OffsetOf;
    EveryPageIsDrawn(screen, cs, |cs|);
    EverythingStands(screen, cs, |cs|);
    var k := Holder(cs, target, |cs|);
    if k.Some? {
      assert Stands(cs, PageOf(screen, cs, |cs|), k.value);
    }
  }

  /** Everything a laid out text keeps: every row fits the screen and, shown
      alone, draws its glyphs side by side in their own colours; it holds exactly
      the glyphs from its start to its end; and it ends only where it must. */
  lemma EveryRowIsRight(screen: Screen, cs: seq<string>, r: nat)
    requires r <= |PageOf(screen, cs, |cs|).done|
    ensures var p := PageOf(screen, cs, |cs|);
            && GoodRow(screen, cs, p.Row(r))
            && Within(cs, p)
            && RowHolds(cs, p, r, if r < |p.done| then p.breaks[r] else |cs|)
            && (r < |p.done| ==> RowEnds(screen, cs, p, r))
  {
    hide PageOf, GoodRow, RowHolds, RowEnds;
    EveryPageIsDrawn(screen, cs, |cs|);
    EveryPageIsParted(screen, cs, |cs|);
  }
}
