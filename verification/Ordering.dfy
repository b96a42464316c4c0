/** Byte order, as bytes.Compare and Go's string comparison have it, and lists in
    it. */
module Ordering {
  import opened Common
  import Utf8

  predicate Before(a: seq<int>, b: seq<int>) {
    if b == [] then false
    else a == [] || a[0] < b[0] || (a[0] == b[0] && Before(a[1..], b[1..]))
  }

  /** The first place where two strings part decides: the lesser element there,
      or the string that ends there, comes first. */
  lemma {:induction false} BeforeExactly(a: seq<int>, b: seq<int>, n: nat)
    requires n <= |a| && n <= |b| && a[..n] == b[..n]
    requires n == |a| || n == |b| || a[n] != b[n]
    ensures Before(a, b) <==> n < |b| && (n == |a| || a[n] < b[n])
    decreases n
  {
    if n > 0 {
      assert a[0] == a[..n][0] && b[0] == b[..n][0];
      assert a[1..][..n - 1] == a[..n][1..] && b[1..][..n - 1] == b[..n][1..];
      BeforeExactly(a[1..], b[1..], n - 1);
    }
  }

  lemma {:induction false} BeforeTransitive(a: seq<int>, b: seq<int>, c: seq<int>)
    requires Before(a, b) && Before(b, c)
    ensures Before(a, c)
    decreases |a|
  {
    if a != [] && a[0] == b[0] == c[0] {
      BeforeTransitive(a[1..], b[1..], c[1..]);
    }
  }

  lemma {:induction false} BeforeTotal(a: seq<int>, b: seq<int>)
    ensures a == b || Before(a, b) || Before(b, a)
    decreases |a|
  {
    if a != [] && b != [] && a[0] == b[0] {
      BeforeTotal(a[1..], b[1..]);
      assert a == [a[0]] + a[1..] && b == [b[0]] + b[1..];
    }
  }

  lemma {:induction false} BeforeAntisymmetric(a: seq<int>, b: seq<int>)
    requires Before(a, b)
    ensures !Before(b, a) && a != b
    decreases |a|
  {
    if a != [] && a[0] == b[0] {
      BeforeAntisymmetric(a[1..], b[1..]);
    }
  }

  // ----- text -----

  /** Strings compare by their bytes. */
  predicate Less(a: string, b: string) {
    Before(Utf8.Encode(a), Utf8.Encode(b))
  }

  lemma LessTransitive(a: string, b: string, c: string)
    requires Less(a, b) && Less(b, c)
    ensures Less(a, c)
  {
    BeforeTransitive(Utf8.Encode(a), Utf8.Encode(b), Utf8.Encode(c));
  }

  lemma LessTotal(a: string, b: string)
    ensures a == b || Less(a, b) || Less(b, a)
    ensures Less(a, b) ==> a != b && !Less(b, a)
  {
    BeforeTotal(Utf8.Encode(a), Utf8.Encode(b));
    if Utf8.Encode(a) == Utf8.Encode(b) {
      Utf8.EncodeInjective(a, b);
    }
    if Less(a, b) {
      BeforeAntisymmetric(Utf8.Encode(a), Utf8.Encode(b));
    }
  }

  /** Ascending, so each once. */
  ghost predicate Ascending(names: seq<string>) {
    forall i, j :: 0 <= i < j < |names| ==> Less(names[i], names[j])
  }

  lemma EachOnce(names: seq<string>)
    requires Ascending(names)
    ensures forall i, j :: 0 <= i < j < |names| ==> names[i] != names[j]
  {
    hide Less;
    forall i, j | 0 <= i < j < |names| ensures names[i] != names[j] {
      LessTotal(names[i], names[j]);
    }
  }

  lemma Inserted(names: seq<string>, name: string, at: nat)
    requires Ascending(names) && at <= |names| && name !in names
    requires at > 0 ==> Less(names[at - 1], name)
    requires at < |names| ==> !Less(names[at], name)
    ensures Ascending(names[..at] + [name] + names[at..])
  {
    hide Less;
    var more := names[..at] + [name] + names[at..];
    forall i | 0 <= i < at ensures Less(names[i], name) {
      if i < at - 1 {
        LessTransitive(names[i], names[at - 1], name);
      }
    }
    forall j | at <= j < |names| ensures Less(name, names[j]) {
      LessTotal(name, names[at]);
      if at < j {
        LessTransitive(name, names[at], names[j]);
      }
    }
    forall i, j | 0 <= i < j < |more| ensures Less(more[i], more[j]) {
      assert more[i] == if i < at then names[i] else if i == at then name else names[i - 1];
      assert more[j] == if j < at then names[j] else if j == at then name else names[j - 1];
    }
  }

  /** sort.Strings over a map's keys. */
  method Sorted(keys: set<string>) returns (names: seq<string>)
    ensures Ascending(names) && (forall k :: k in names <==> k in keys) && |names| == |keys|
  {
    hide Less, Ascending;
    names := [];
    AscendingNone();
    var rest := keys;
    while rest != {}
      invariant rest <= keys && Ascending(names) && |names| + |rest| == |keys|
      invariant forall k :: k in names <==> k in keys - rest
    {
      var k :| k in rest;
      var at := 0;
      while at < |names| && Less(names[at], k)
        invariant at <= |names| && (at > 0 ==> Less(names[at - 1], k))
      {
        at := at + 1;
      }
      Inserted(names, k, at);
      MembersOfInserted(names, k, at);
      names, rest := names[..at] + [k] + names[at..], rest - {k};
    }
  }

  lemma AscendingNone()
    ensures Ascending([])
  {
  }

  lemma MembersOfInserted<T>(s: seq<T>, x: T, at: nat)
    requires at <= |s|
    ensures forall y :: y in s[..at] + [x] + s[at..] <==> y == x || y in s
  {
    assert s == s[..at] + s[at..];
  }
}
