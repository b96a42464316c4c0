/** The editable command line: positions are runes, limits and completion spans
    are UTF-8 bytes, and the cursor stands between displayed graphemes
    (internal/cli/edit_buffer.go, and the keys of internal/cli/editor.go). */
module EditBuffers {
  import opened Common
  import opened Utf8

  const MAX_LINE_BYTES: nat := 4096

  // ----- clusters -----

  /** The end of the i-th cluster, in runes. */
  ghost function SumTo(lens: seq<nat>, i: nat): nat
    requires i <= |lens|
  {
    if i == 0 then 0 else SumTo(lens, i - 1) + lens[i - 1]
  }

  /** Nonempty clusters that make up a text of n runes. */
  ghost predicate Cuts(lens: seq<nat>, n: nat) {
    SumTo(lens, |lens|) == n && forall i :: 0 <= i < |lens| ==> lens[i] > 0
  }

  /** A grapheme segmentation, whatever its rules: every text is cut into
      nonempty clusters. */
  ghost predicate Partition(clusters: string -> seq<nat>) {
    forall text: string :: Cuts(clusters(text), |text|)
  }

  ghost predicate Boundary(lens: seq<nat>, at: nat) {
    exists i :: 0 <= i <= |lens| && SumTo(lens, i) == at
  }

  /** The first boundary at or after a position. */
  ghost predicate FirstFrom(lens: seq<nat>, at: nat, p: nat) {
    at <= p && Boundary(lens, p) && forall b :: at <= b < p ==> !Boundary(lens, b)
  }

  lemma {:induction false} SumGrows(lens: seq<nat>, i: nat, j: nat)
    requires i < j <= |lens| && forall k :: 0 <= k < |lens| ==> lens[k] > 0
    ensures SumTo(lens, i) < SumTo(lens, j)
    decreases j
  {
    if i < j - 1 {
      SumGrows(lens, i, j - 1);
    }
  }

  lemma NoneBetween(lens: seq<nat>, i: nat)
    requires i < |lens| && forall k :: 0 <= k < |lens| ==> lens[k] > 0
    ensures forall b :: SumTo(lens, i) < b < SumTo(lens, i + 1) ==> !Boundary(lens, b)
  {
    forall b | SumTo(lens, i) < b < SumTo(lens, i + 1) ensures !Boundary(lens, b) {
      if Boundary(lens, b) {
        var j :| 0 <= j <= |lens| && SumTo(lens, j) == b;
        if j < i {
          SumGrows(lens, j, i);
        } else if i + 1 < j {
          SumGrows(lens, i + 1, j);
        }
      }
    }
  }

  lemma EndsAreBoundaries(lens: seq<nat>, n: nat)
    requires Cuts(lens, n)
    ensures Boundary(lens, 0) && Boundary(lens, n)
  {
    assert SumTo(lens, 0) == 0;
  }

  // ----- the buffer -----

  class EditBuffer {
    const clusters: string -> seq<nat>
    var buf: string
    var cur: nat
    var bytes: nat

    /** The byte count is the text's, within the limit, and the cursor stands
        between clusters. */
    ghost predicate Valid()
      reads this
    {
      && Partition(clusters)
      && bytes == |Encode(buf)| <= MAX_LINE_BYTES
      && Boundary(clusters(buf), cur) && cur <= |buf|
    }

    constructor (clusters: string -> seq<nat>)
      requires Partition(clusters)
      ensures Valid() && buf == "" && cur == 0 && this.clusters == clusters
    {
      this.clusters, buf, cur, bytes := clusters, "", 0, 0;
      EndsAreBoundaries(clusters(""), 0);
    }

    method Reset()
      requires Valid()
      modifies this
      ensures Valid() && buf == "" && cur == 0
    {
      buf, cur, bytes := "", 0, 0;
      EndsAreBoundaries(clusters(""), 0);
    }

    method CursorByte() returns (n: nat)
      requires Valid()
      ensures n == ByteOf(buf, cur)
    {
      n := RuneBytes(buf[..cur]);
    }

    static method RuneBytes(text: string) returns (n: nat)
      ensures n == |Encode(text)|
    {
      n := 0;
      for i := 0 to |text|
        invariant n == ByteOf(text, i)
      {
        ByteOfNext(text, i);
        n := n + RuneLen(text[i]);
      }
      assert text[..|text|] == text;
    }

    /** Puts text where a rune span was, the cursor after it; or leaves the draft
        as it was when the result would be too long. */
    method Replace(start: nat, end: nat, text: string) returns (ok: bool)
      requires Valid() && start <= end <= |buf|
      modifies this
      ensures Valid()
      ensures ok <==> |Encode(old(buf)[..start] + text + old(buf)[end..])| <= 4096
      ensures ok ==> buf == old(buf)[..start] + text + old(buf)[end..] && FirstFrom(clusters(buf), start + |text|, cur)
      ensures !ok ==> buf == old(buf) && cur == old(cur)
    {
      hide Encode, Boundary, FirstFrom, Partition;
      SpliceBytes(buf, start, end, text);
      var removed := RuneBytes(buf[start..end]);
      var added := RuneBytes(text);
      var size := bytes - removed + added;
      if size > MAX_LINE_BYTES {
        return false;
      }
      buf := buf[..start] + text + buf[end..];
      cur, bytes := start + |text|, size;
      this.SnapForward();
      return true;
    }

    /** The cursor off the inside of a cluster. */
    method SnapForward()
      requires Partition(clusters) && cur <= |buf|
      modifies this`cur
      ensures FirstFrom(clusters(buf), old(cur), cur) && Boundary(clusters(buf), cur) && cur <= |buf|
    {
      var lens := clusters(buf);
      assert Cuts(lens, |buf|);
      EndsAreBoundaries(lens, |buf|);
      if cur == 0 || cur == |buf| {
        return;
      }
      var at := 0;
      for i := 0 to |lens|
        invariant at == SumTo(lens, i) < cur == old(cur)
      {
        at := at + lens[i];
        NoneBetween(lens, i);
        if at >= cur {
          assert SumTo(lens, i + 1) == at;
          SumAtMost(lens, i + 1, |buf|);
          cur := at;
          return;
        }
      }
    }

    method Insert(r: char) returns (ok: bool)
      requires Valid()
      modifies this
      ensures Valid()
      ensures ok <==> |Encode(old(buf))| + |Encode([r])| <= 4096
      ensures ok ==>
                && buf == old(buf)[..old(cur)] + [r] + old(buf)[old(cur)..]
                && FirstFrom(clusters(buf), old(cur) + 1, cur)
      ensures !ok ==> buf == old(buf) && cur == old(cur)
    {
      SpliceBytes(buf, cur, cur, [r]);
      EncodeOne(r);
      ok := this.Replace(cur, cur, [r]);
    }

    /** Deletion cannot be refused: it only gives bytes back. */
    method Remove(start: nat, end: nat)
      requires Valid() && start <= end <= |buf|
      modifies this
      ensures Valid() && buf == old(buf)[..start] + old(buf)[end..] && FirstFrom(clusters(buf), start, cur)
    {
      hide Encode, FirstFrom, ByteOf;
      SpliceBytes(buf, start, end, "");
      EncodeNone();
      var ok := this.Replace(start, end, "");
      assert old(buf)[..start] + "" + old(buf)[end..] == old(buf)[..start] + old(buf)[end..];
    }

    /** The whole line, from bytes: malformed ones become U+FFFD. */
    method SetText(text: seq<Byte>) returns (ok: bool)
      requires Valid()
      modifies this
      ensures Valid()
      ensures ok <==> |Encode(Runes(text))| <= 4096
      ensures ok ==> buf == Runes(text) && cur == |buf|
      ensures ok && Utf8.Valid(text) ==> Encode(buf) == text
      ensures !ok ==> buf == old(buf) && cur == old(cur)
    {
      RunesGrow(text);
      if |text| > MAX_LINE_BYTES {
        return false;
      }
      ok := this.Replace(0, |buf|, Runes(text));
      assert old(buf)[..0] + Runes(text) + old(buf)[|old(buf)|..] == Runes(text);
      if ok && Utf8.Valid(text) {
        EncodeOfRunes(text);
      }
    }

    method PrevBoundary() returns (at: nat)
      requires Valid()
      ensures at <= cur && Boundary(clusters(buf), at)
      ensures cur > 0 ==> at < cur && forall b :: at < b < cur ==> !Boundary(clusters(buf), b)
    {
      var lens := clusters(buf);
      assert Cuts(lens, |buf|);
      EndsAreBoundaries(lens, |buf|);
      at := 0;
      for i := 0 to |lens|
        invariant at == SumTo(lens, i) && (at < cur || at == 0)
      {
        var end := at + lens[i];
        NoneBetween(lens, i);
        assert SumTo(lens, i + 1) == end;
        if end >= cur {
          return;
        }
        at := end;
      }
    }

    method NextBoundary() returns (at: nat)
      requires Valid()
      ensures at <= |buf| && Boundary(clusters(buf), at)
      ensures cur < |buf| ==> FirstFrom(clusters(buf), cur + 1, at)
      ensures cur == |buf| ==> at == |buf|
    {
      var lens := clusters(buf);
      assert Cuts(lens, |buf|);
      EndsAreBoundaries(lens, |buf|);
      at := 0;
      for i := 0 to |lens|
        invariant at == SumTo(lens, i) <= cur
      {
        at := at + lens[i];
        NoneBetween(lens, i);
        assert SumTo(lens, i + 1) == at;
        SumAtMost(lens, i + 1, |buf|);
        if at > cur {
          return;
        }
      }
    }

    /** A completion's byte span: exactly the splice of the byte string, or
        nothing at all — when an offset splits a rune, when the result is too
        long, or when the text is not UTF-8. */
    method ReplaceBytes(start: int, end: int, text: seq<Byte>) returns (ok: bool)
      requires Valid()
      modifies this
      ensures Valid()
      ensures ok <==>
                && 0 <= start <= end <= |old(Encode(buf))|
                && |old(Encode(buf))| - (end - start) + |text| <= 4096
                && Utf8.Valid(text) && OnRune(old(buf), start) && OnRune(old(buf), end)
      ensures ok ==> Encode(buf) == old(Encode(buf))[..start] + text + old(Encode(buf))[end..]
      ensures ok ==> exists left: nat | left <= |old(buf)| && ByteOf(old(buf), left) == start ::
                FirstFrom(clusters(buf), left + |Runes(text)|, cur)
      ensures !ok ==> buf == old(buf) && cur == old(cur)
    {
      hide Encode, Runes, Utf8.Valid, FirstFrom, Boundary, Partition;
      if start < 0 || end < start || end > bytes || bytes - (end - start) + |text| > MAX_LINE_BYTES
         || !Utf8.Valid(text)
      {
        return false;
      }
      OnRuneIffNoContinuation(buf, start);
      OnRuneIffNoContinuation(buf, end);
      var left, right := this.RunesAt(start, end);
      if left < 0 || right < 0 {
        return false;
      }
      EncodeOfRunes(text);
      SpliceBytes(buf, left, right, Runes(text));
      ok := this.Replace(left, right, Runes(text));
    }

    // ----- the keys -----

    method Left()
      requires Valid()
      modifies this`cur
      ensures Valid() && cur <= old(cur)
      ensures old(cur) > 0 ==> cur < old(cur) && forall b :: cur < b < old(cur) ==> !Boundary(clusters(buf), b)
    {
      if cur > 0 {
        cur := this.PrevBoundary();
      }
    }

    method Right()
      requires Valid()
      modifies this`cur
      ensures Valid()
      ensures if old(cur) < |buf| then FirstFrom(clusters(buf), old(cur) + 1, cur) else cur == |buf|
    {
      if cur < |buf| {
        cur := this.NextBoundary();
      }
    }

    method Home()
      requires Valid()
      modifies this`cur
      ensures Valid() && cur == 0
    {
      assert Cuts(clusters(buf), |buf|);
      EndsAreBoundaries(clusters(buf), |buf|);
      cur := 0;
    }

    method End()
      requires Valid()
      modifies this`cur
      ensures Valid() && cur == |buf|
    {
      assert Cuts(clusters(buf), |buf|);
      EndsAreBoundaries(clusters(buf), |buf|);
      cur := |buf|;
    }

    /** One displayed grapheme before the cursor, whole. */
    method Backspace()
      requires Valid()
      modifies this
      ensures Valid()
      ensures old(cur) == 0 ==> buf == old(buf) && cur == 0
      ensures old(cur) > 0 ==> exists at | 0 <= at < old(cur) ::
                && Boundary(clusters(old(buf)), at)
                && (forall b :: at < b < old(cur) ==> !Boundary(clusters(old(buf)), b))
                && buf == old(buf)[..at] + old(buf)[old(cur)..] && FirstFrom(clusters(buf), at, cur)
    {
      if cur == 0 {
        return;
      }
      hide Encode, FirstFrom, Boundary, Partition;
      var at := this.PrevBoundary();
      this.Remove(at, cur);
    }

    /** And one after it. */
    method Delete()
      requires Valid()
      modifies this
      ensures Valid()
      ensures old(cur) == |old(buf)| ==> buf == old(buf) && cur == old(cur)
      ensures old(cur) < |old(buf)| ==> exists at | old(cur) < at <= |old(buf)| ::
                && FirstFrom(clusters(old(buf)), old(cur) + 1, at)
                && buf == old(buf)[..old(cur)] + old(buf)[at..] && FirstFrom(clusters(buf), old(cur), cur)
    {
      if cur < |buf| {
        hide Encode, Boundary, Partition;
        var at := this.NextBoundary();
        this.Remove(cur, at);
      }
    }

    method KillToStart()
      requires Valid()
      modifies this
      ensures Valid() && buf == old(buf)[old(cur)..] && cur == 0
    {
      if cur > 0 {
        assert buf[..0] + buf[cur..] == buf[cur..];
        this.Remove(0, cur);
        assert Cuts(clusters(buf), |buf|);
        EndsAreBoundaries(clusters(buf), |buf|);
      }
    }

    method KillToEnd()
      requires Valid()
      modifies this
      ensures Valid() && buf == old(buf)[..old(cur)] && cur == |buf|
    {
      if cur < |buf| {
        assert buf[..cur] + buf[|buf|..] == buf[..cur];
        this.Remove(cur, |buf|);
        assert Cuts(clusters(buf), |buf|);
        EndsAreBoundaries(clusters(buf), |buf|);
      }
    }

    /** The word before the cursor with the spaces after it. */
    method KillWord()
      requires Valid()
      modifies this
      ensures Valid()
      ensures exists i, m | 0 <= i <= m <= old(cur) ::
                && IsWordBefore(old(buf), i, m, old(cur))
                && buf == old(buf)[..i] + old(buf)[old(cur)..] && FirstFrom(clusters(buf), i, cur)
    {
      hide Encode, FirstFrom, Boundary, Partition;
      if cur == 0 {
        FirstHere(clusters(buf), cur);
        assert IsWordBefore(buf, 0, 0, 0);
        assert buf == buf[..0] + buf[0..];
        return;
      }
      var m := cur;
      while m > 0 && buf[m - 1] == ' '
        invariant 0 <= m <= cur <= |buf| && forall j :: m <= j < cur ==> buf[j] == ' '
      {
        m := m - 1;
      }
      var i := m;
      while i > 0 && buf[i - 1] != ' '
        invariant 0 <= i <= m && forall j :: i <= j < m ==> buf[j] != ' '
      {
        i := i - 1;
      }
      assert IsWordBefore(buf, i, m, cur);
      this.Remove(i, cur);
    }

    /** The rune indices of two byte offsets, -1 for one inside a rune. */
    method RunesAt(start: nat, end: nat) returns (left: int, right: int)
      requires Valid() && start <= end <= bytes
      ensures left >= 0 && right >= 0 <==> OnRune(buf, start) && OnRune(buf, end)
      ensures left >= 0 && right >= 0 ==>
                left <= right <= |buf| && ByteOf(buf, left) == start && ByteOf(buf, right) == end
    {
      hide Encode, Boundary, Partition;
      var offset := 0;
      left, right := -1, -1;
      assert ByteOf(buf, |buf|) == bytes by {
        assert buf[..|buf|] == buf;
      }
      ByteOfNone(buf);
      for i := 0 to |buf| + 1
        invariant i <= |buf| ==> offset == ByteOf(buf, i)
        invariant left >= 0 ==> left < i && ByteOf(buf, left) == start
        invariant left < 0 ==> forall j :: 0 <= j < i ==> ByteOf(buf, j) != start
        invariant right == -1 && forall j :: 0 <= j < i ==> ByteOf(buf, j) != end
      {
        if offset == start {
          left := i;
        }
        if offset == end {
          right := i;
          if left < 0 {
            NotAfter(buf, start, i);
          }
          return;
        }
        if i < |buf| {
          ByteOfNext(buf, i);
          offset := offset + RuneLen(buf[i]);
        }
      }
    }
  }

  /** The word that ends at m with only spaces from there to the cursor. */
  predicate IsWordBefore(text: string, i: nat, m: nat, cur: nat)
    requires i <= m <= cur <= |text|
  {
    && (forall j :: m <= j < cur ==> text[j] == ' ')
    && (forall j :: i <= j < m ==> text[j] != ' ')
    && (m == 0 || text[m - 1] != ' ')
    && (i == 0 || text[i - 1] == ' ')
  }

  /** It is one word and no other: of a line that reads head, word, spaces, where
      the word holds no space, the head ends in one, and the word is there unless
      the head is not. */
  lemma KilledWord(head: string, word: string, spaces: string, rest: string, i: nat, m: nat)
    requires ' ' !in word && (forall j :: 0 <= j < |spaces| ==> spaces[j] == ' ')
    requires head == "" || (head[|head| - 1] == ' ' && word != "")
    requires i <= m <= |head + word + spaces|
    ensures IsWordBefore(head + word + spaces + rest, i, m, |head + word + spaces|) <==>
              i == |head| && m == |head + word|
  {
    var text := head + word + spaces + rest;
    assert forall j :: |head| <= j < |head + word| ==> text[j] == word[j - |head|];
    assert forall j :: |head + word| <= j < |head + word + spaces| ==> text[j] == spaces[j - |head + word|];
    if head != "" {
      assert text[|head| - 1] == head[|head| - 1];
    }
    if IsWordBefore(text, i, m, |head + word + spaces|) {
      WordEnds(text, i, m, |head|, |head + word|, |head + word + spaces|);
    }
  }

  /** No two words end before one cursor. */
  lemma WordEnds(text: string, i: nat, m: nat, i': nat, m': nat, cur: nat)
    requires i <= m <= cur <= |text| && i' <= m' <= cur
    requires IsWordBefore(text, i, m, cur) && IsWordBefore(text, i', m', cur)
    ensures i == i' && m == m'
  {
  }

  lemma FirstHere(lens: seq<nat>, at: nat)
    requires Boundary(lens, at)
    ensures FirstFrom(lens, at, at)
  {
  }

  lemma SumAtMost(lens: seq<nat>, i: nat, n: nat)
    requires Cuts(lens, n) && i <= |lens|
    ensures SumTo(lens, i) <= n
  {
    if i < |lens| {
      SumGrows(lens, i, |lens|);
    }
  }
}
