/** An export is a program that rebuilds the object: one creation, one profile
    switch for every other scope, and a switch back (internal/cli/tree.go,
    replayed through cmd/lotor/manager.go). */
module ExportReplay {
  import opened Common
  import opened Layers
  import opened Lexer
  import opened Ordering
  import opened ExportText

  type Instances = map<string, Obj>

  // ----- what an object is -----

  /** The shape every creation and mutation leaves an object in. */
  ghost predicate WellFormed(k: Kind, o: Obj) {
    && k.Valid()
    && o.fields.Keys <= k.fields
    && "" !in o.layers.overrides
    && forall scope :: scope in o.layers.overrides ==> o.layers.overrides[scope].Keys !! k.fields + {PROFILE}
  }

  ghost predicate Complete(k: Kind, attrs: Values) {
    forall a :: a in k.required ==> a in attrs && attrs[a] != ""
  }

  lemma CreatedWellFormed(k: Kind, attrs: Values)
    requires k.Valid()
    ensures WellFormed(k, Created(k, attrs))
  {
  }

  lemma MutatedWellFormed(k: Kind, o: Obj, attrs: Values)
    requires WellFormed(k, o)
    ensures WellFormed(k, Mutated(k, o, attrs))
  {
    var l := Switched(o.layers, attrs);
    var over := Overriding(k, attrs);
    assert (l.At(l.Scope()) + over).Keys !! k.fields + {PROFILE};
  }

  /** The object an export describes: its profile by name, and no scope that
      holds nothing. */
  ghost function Normalized(o: Obj): Obj {
    Obj(o.fields, Layered(o.layers.Scope(), Held(o.layers.overrides)))
  }

  ghost function Held(overrides: map<string, Values>): map<string, Values> {
    map scope | scope in overrides && overrides[scope] != map[] :: overrides[scope]
  }

  /** It resolves to the same effective set under every catalog, and resolves
      whenever the object did; the converse fails only for a scope that holds
      nothing and that the catalog does not know. */
  lemma NormalizedResolves(o: Obj, catalog: Catalog)
    ensures EffectiveOf(Normalized(o).layers, catalog) == EffectiveOf(o.layers, catalog)
    ensures Resolvable(o.layers, catalog) <==>
              && Resolvable(Normalized(o).layers, catalog)
              && forall scope :: scope in o.layers.overrides && o.layers.overrides[scope] == map[] ==>
                Known(catalog, scope)
  {
    var l, n := o.layers, Normalized(o).layers;
    assert n.Scope() == l.Scope();
    assert n.At(n.Scope()) == l.At(l.Scope());
    if && Resolvable(n, catalog)
       && forall scope :: scope in l.overrides && l.overrides[scope] == map[] ==> Known(catalog, scope)
    {
      forall scope | scope in l.overrides ensures Known(catalog, scope) {
        if l.overrides[scope] != map[] {
          assert scope in n.overrides;
        }
      }
    }
    if Resolvable(l, catalog) {
      forall scope | scope in n.overrides ensures Known(catalog, scope) {
        assert scope in l.overrides;
      }
    }
  }

  // ----- the export -----

  /** The scopes that need a line of their own, each once. */
  ghost predicate OtherScopes(o: Obj, scopes: seq<string>) {
    && (forall i, j :: 0 <= i < j < |scopes| ==> scopes[i] != scopes[j])
    && (forall s :: s in scopes <==> s in Held(o.layers.overrides) && s != o.layers.Scope())
  }

  function AddAttrs(o: Obj): Values {
    o.fields[PROFILE := o.layers.Scope()] + o.layers.At(o.layers.Scope())
  }

  function ScopeAttrs(o: Obj, scope: string): Values {
    map[PROFILE := scope] + o.layers.At(scope)
  }

  function SwitchBack(o: Obj): seq<Pair> {
    [(PROFILE, o.layers.Scope())]
  }

  /** The pairs of every line of an export, whatever order the maps yield. */
  ghost predicate Exported(o: Obj, scopes: seq<string>, raws: seq<seq<Pair>>) {
    && OtherScopes(o, scopes)
    && |raws| == |scopes| + (if scopes == [] then 1 else 2)
    && PairMap(raws[0]) == AddAttrs(o)
    && (forall i :: 0 <= i < |scopes| ==> PairMap(raws[i + 1]) == ScopeAttrs(o, scopes[i]))
    && (scopes != [] ==> raws[|scopes| + 1] == SwitchBack(o))
  }

  /** The lines themselves: the switch back is written as it stands, every other
      line by whichever carrier its values need. */
  function LineOf(graphic: char -> bool, kind: string, name: string, raws: seq<seq<Pair>>, i: nat): string
    requires i < |raws|
  {
    if i == 0 then ObjectText(graphic, kind, "add", name, raws[0])
    else if i < |raws| - 1 then ObjectText(graphic, kind, "set", name, raws[i])
    else LineText(kind, "set", name, raws[i])
  }

  ghost predicate TextOf(graphic: char -> bool, kind: string, name: string, raws: seq<seq<Pair>>, lines: seq<string>) {
    |lines| == |raws| && forall i :: 0 <= i < |lines| ==> lines[i] == LineOf(graphic, kind, name, raws, i)
  }

  lemma {:induction false} PairMapConcat(a: seq<Pair>, b: seq<Pair>)
    ensures PairMap(a + b) == PairMap(a) + PairMap(b)
    decreases |b|
  {
    if b == [] {
      assert a + b == a;
    } else {
      var n := |b| - 1;
      assert (a + b)[..|a| + n] == a + b[..n];
      PairMapConcat(a, b[..n]);
    }
  }

  ghost predicate InOrder(pairs: seq<Pair>) {
    forall i, j :: 0 <= i < j < |pairs| ==> Less(pairs[i].0, pairs[j].0)
  }

  /** One map as pairs, its keys sorted. */
  method ScopePairs(kv: Values) returns (pairs: seq<Pair>)
    ensures PairMap(pairs) == kv && |pairs| == |kv| && InOrder(pairs)
  {
    hide Less, PairMap, Upto;
    var keys := Sorted(kv.Keys);
    EachOnce(keys);
    pairs := [];
    NoPairMap();
    UptoAll(kv, keys);
    for i := 0 to |keys|
      invariant |pairs| == i && forall j :: 0 <= j < i ==> pairs[j].0 == keys[j]
      invariant PairMap(pairs) == Upto(kv, keys, i)
    {
      assert keys[i] in keys;
      UptoNext(kv, keys, i);
      PairMapSnoc(pairs, keys[i], kv[keys[i]]);
      pairs := pairs + [(keys[i], kv[keys[i]])];
    }
  }

  lemma PairMapSnoc(pairs: seq<Pair>, key: string, value: string)
    ensures PairMap(pairs + [(key, value)]) == PairMap(pairs)[key := value]
  {
    assert (pairs + [(key, value)])[..|pairs|] == pairs;
  }

  method OthersOf(o: Obj) returns (scopes: seq<string>)
    ensures OtherScopes(o, scopes) && Ascending(scopes)
  {
    hide Less;
    var rest := set s | s in o.layers.overrides && s != o.layers.Scope() && |o.layers.overrides[s]| > 0;
    scopes := Sorted(rest);
    EachOnce(scopes);
  }

  /** The order the lines come in, and the pairs on each: the scopes sorted, the
      attributes of the object before those of its own scope, either sorted, and
      on every other line the profile before what its scope holds. */
  ghost predicate Arranged(o: Obj, scopes: seq<string>, raws: seq<seq<Pair>>)
    requires Exported(o, scopes, raws)
  {
    && Ascending(scopes)
    && (exists structural, own :: FirstLine(o, structural, own) && raws[0] == structural + own)
    && (forall i :: 0 <= i < |scopes| ==> ScopeRaw(o, scopes[i], raws[i + 1]))
  }

  ghost predicate ScopeRaw(o: Obj, scope: string, pairs: seq<Pair>) {
    && PairMap(pairs) == ScopeAttrs(o, scope)
    && pairs != [] && pairs[0] == (PROFILE, scope) && InOrder(pairs[1..]) && PairMap(pairs[1..]) == o.layers.At(scope)
  }

  ghost predicate FirstLine(o: Obj, structural: seq<Pair>, own: seq<Pair>) {
    && InOrder(structural) && PairMap(structural) == o.fields[PROFILE := o.layers.Scope()]
    && InOrder(own) && PairMap(own) == o.layers.At(o.layers.Scope())
  }

  /** The lines that recreate an object. */
  ghost predicate IsExport(graphic: char -> bool, kind: string, name: string, o: Obj, lines: seq<string>) {
    exists scopes, raws ::
      Exported(o, scopes, raws) && Arranged(o, scopes, raws) && TextOf(graphic, kind, name, raws, lines)
  }

  method ExportInstance(graphic: char -> bool, kind: string, name: string, o: Obj) returns (lines: seq<string>)
    ensures IsExport(graphic, kind, name, o, lines)
  {
    hide Exported, Arranged, TextOf;
    ghost var scopes, raws;
    lines, scopes, raws := ExportLines(graphic, kind, name, o);
  }

  /** Pairs in order are one with the map they hold. */
  lemma {:induction false} OneOrder(a: seq<Pair>, b: seq<Pair>)
    requires InOrder(a) && InOrder(b) && PairMap(a) == PairMap(b)
    ensures a == b
    decreases |a|
  {
    hide Less, PairMap;
    if a == [] || b == [] {
      NoPairMap();
      if a != [] {
        KeysOfPairMap(a, 0);
      }
      if b != [] {
        KeysOfPairMap(b, 0);
      }
    } else {
      LastIsGreatest(a, b);
      LastIsGreatest(b, a);
      LessTotal(a[|a| - 1].0, b[|b| - 1].0);
      WithoutLast(a);
      WithoutLast(b);
      OneOrder(a[..|a| - 1], b[..|b| - 1]);
      assert a == a[..|a| - 1] + [a[|a| - 1]] && b == b[..|b| - 1] + [b[|b| - 1]];
    }
  }

  lemma LastIsGreatest(a: seq<Pair>, b: seq<Pair>)
    requires a != [] && b != [] && InOrder(b) && PairMap(a) == PairMap(b)
    ensures a[|a| - 1].0 == b[|b| - 1].0 || Less(a[|a| - 1].0, b[|b| - 1].0)
  {
    hide Less;
    KeysOfPairMap(a, |a| - 1);
    var j := HolderOf(b, a[|a| - 1].0);
  }

  lemma {:induction false} HolderOf(pairs: seq<Pair>, key: string) returns (i: nat)
    requires key in PairMap(pairs)
    ensures i < |pairs| && pairs[i].0 == key
    decreases |pairs|
  {
    var n := |pairs| - 1;
    if pairs[n].0 == key {
      i := n;
    } else {
      i := HolderOf(pairs[..n], key);
    }
  }

  lemma WithoutLast(pairs: seq<Pair>)
    requires pairs != [] && InOrder(pairs)
    ensures var n := |pairs| - 1;
            && InOrder(pairs[..n]) && PairMap(pairs[..n]) == PairMap(pairs) - {pairs[n].0}
            && pairs[n].0 in PairMap(pairs) && PairMap(pairs)[pairs[n].0] == pairs[n].1
  {
    hide Less, PairMap;
    var n := |pairs| - 1;
    assert pairs == pairs[..n] + [(pairs[n].0, pairs[n].1)];
    PairMapSnoc(pairs[..n], pairs[n].0, pairs[n].1);
    if pairs[n].0 in PairMap(pairs[..n]) {
      var j := HolderOf(pairs[..n], pairs[n].0);
      LessTotal(pairs[j].0, pairs[n].0);
    }
  }

  lemma {:induction false} OneAscent(a: seq<string>, b: seq<string>)
    requires Ascending(a) && Ascending(b) && forall s :: s in a <==> s in b
    ensures a == b
    decreases |a|
  {
    hide Less;
    BothEmpty(a, b);
    if a != [] {
      var m, n := |a| - 1, |b| - 1;
      assert a[m] in b && b[n] in a;
      LessTotal(a[m], b[n]);
      LessTotal(b[n], a[m]);
      forall s ensures s in a[..m] <==> s in b[..n] {
        AllButLast(a, s);
        AllButLast(b, s);
      }
      OneAscent(a[..m], b[..n]);
      assert a == a[..m] + [a[m]] && b == b[..n] + [b[n]];
    }
  }

  lemma BothEmpty(a: seq<string>, b: seq<string>)
    requires forall s :: s in a <==> s in b
    ensures a == [] <==> b == []
  {
    if a != [] {
      assert a[0] in a;
    }
    if b != [] {
      assert b[0] in b;
    }
  }

  lemma AllButLast(a: seq<string>, s: string)
    requires a != [] && Ascending(a)
    ensures s in a[..|a| - 1] <==> s in a && s != a[|a| - 1]
  {
    hide Less;
    if s in a[..|a| - 1] {
      var i :| 0 <= i < |a| - 1 && a[i] == s;
      LessTotal(s, a[|a| - 1]);
    }
  }

  /** An object has one export: printed twice, it reads the same. */
  lemma OneExport(graphic: char -> bool, kind: string, name: string, o: Obj, lines: seq<string>, again: seq<string>)
    requires IsExport(graphic, kind, name, o, lines) && IsExport(graphic, kind, name, o, again)
    ensures lines == again
  {
    hide Exported, Arranged, LineOf;
    var scopes: seq<string>, raws: seq<seq<Pair>> :|
      Exported(o, scopes, raws) && Arranged(o, scopes, raws) && TextOf(graphic, kind, name, raws, lines);
    var scopes', raws' :|
      Exported(o, scopes', raws') && Arranged(o, scopes', raws') && TextOf(graphic, kind, name, raws', again);
    OneArrangement(o, scopes, raws, scopes', raws');
  }

  lemma OneArrangement(o: Obj, scopes: seq<string>, raws: seq<seq<Pair>>, scopes': seq<string>, raws': seq<seq<Pair>>)
    requires Exported(o, scopes, raws) && Arranged(o, scopes, raws)
    requires Exported(o, scopes', raws') && Arranged(o, scopes', raws')
    ensures scopes == scopes' && raws == raws'
  {
    hide Ascending, PairMap, InOrder, ScopeRaw;
    OneAscent(scopes, scopes');
    OneFirstLine(o, scopes, raws, raws');
    forall i | 0 <= i < |raws| ensures raws[i] == raws'[i] {
      if 0 < i <= |scopes| {
        assert ScopeRaw(o, scopes[i - 1], raws[(i - 1) + 1]) && ScopeRaw(o, scopes[i - 1], raws'[(i - 1) + 1]);
        OneScopeRaw(o, scopes[i - 1], raws[i], raws'[i]);
      }
    }
  }

  lemma OneScopeRaw(o: Obj, scope: string, pairs: seq<Pair>, pairs': seq<Pair>)
    requires ScopeRaw(o, scope, pairs) && ScopeRaw(o, scope, pairs')
    ensures pairs == pairs'
  {
    hide PairMap, InOrder;
    OneOrder(pairs[1..], pairs'[1..]);
    assert pairs == [pairs[0]] + pairs[1..] && pairs' == [pairs'[0]] + pairs'[1..];
  }

  lemma OneFirstLine(o: Obj, scopes: seq<string>, raws: seq<seq<Pair>>, raws': seq<seq<Pair>>)
    requires Exported(o, scopes, raws) && Arranged(o, scopes, raws)
    requires Exported(o, scopes, raws') && Arranged(o, scopes, raws')
    ensures raws[0] == raws'[0]
  {
    hide Ascending, PairMap, InOrder, OtherScopes;
    var a, b :| FirstLine(o, a, b) && raws[0] == a + b;
    var a', b' :| FirstLine(o, a', b') && raws'[0] == a' + b';
    OneOrder(a, a');
    OneOrder(b, b');
  }

  method ExportLines(graphic: char -> bool, kind: string, name: string, o: Obj)
      returns (lines: seq<string>, ghost scopes: seq<string>, ghost raws: seq<seq<Pair>>)
    ensures Exported(o, scopes, raws) && Arranged(o, scopes, raws) && TextOf(graphic, kind, name, raws, lines)
  {
    hide ObjectText, LineText, PairMap, OtherScopes, InOrder, Ascending, ScopeAttrs;
    var active := o.layers.profile;
    if active == "" {
      active := CUSTOM;
    }
    var structural := ScopePairs(o.fields[PROFILE := active]);
    var own := ScopePairs(if active in o.layers.overrides then o.layers.overrides[active] else map[]);
    var line := EmitObject(graphic, kind, VERB_ADD, name, structural + own);
    PairMapConcat(structural, own);
    assert FirstLine(o, structural, own);
    var others := OthersOf(o);
    var middle;
    ghost var kept;
    middle, kept := ScopeLines(graphic, kind, name, o, others);
    scopes, raws := others, [structural + own] + kept;
    lines := [line] + middle;
    LinesSoFar(graphic, kind, name, structural + own, kept, line, middle);
    if |others| > 0 {
      var last := ExportLine(kind, VERB_SET, name, [(PROFILE, active)]);
      lines, raws := lines + [last], raws + [SwitchBack(o)];
    }
  }

  lemma LinesSoFar(graphic: char -> bool, kind: string, name: string,
                   first: seq<Pair>, kept: seq<seq<Pair>>, line: string, middle: seq<string>)
    requires |kept| == |middle| && line == ObjectText(graphic, kind, VERB_ADD, name, first)
    requires forall i :: 0 <= i < |kept| ==> middle[i] == ObjectText(graphic, kind, VERB_SET, name, kept[i])
    ensures var lines, raws := [line] + middle, [first] + kept;
            forall i :: 0 <= i < |lines| ==>
              lines[i] == ObjectText(graphic, kind, if i == 0 then VERB_ADD else VERB_SET, name, raws[i])
  {
    hide ObjectText;
  }

  /** One line for each scope kept beside the active one. */
  method ScopeLines(graphic: char -> bool, kind: string, name: string, o: Obj, others: seq<string>)
      returns (lines: seq<string>, ghost raws: seq<seq<Pair>>)
    requires OtherScopes(o, others)
    ensures |lines| == |raws| == |others|
    ensures forall i :: 0 <= i < |others| ==> ScopeRaw(o, others[i], raws[i])
    ensures forall i :: 0 <= i < |others| ==> lines[i] == ObjectText(graphic, kind, VERB_SET, name, raws[i])
  {
    hide ObjectText, ScopeRaw;
    lines, raws := [], [];
    for i := 0 to |others|
      invariant |lines| == |raws| == i
      invariant forall j :: 0 <= j < i ==> ScopeRaw(o, others[j], raws[j])
      invariant forall j :: 0 <= j < i ==> lines[j] == ObjectText(graphic, kind, VERB_SET, name, raws[j])
    {
      assert others[i] in others;
      var line;
      ghost var pairs;
      line, pairs := ScopeLine(graphic, kind, name, o, others[i]);
      lines, raws := lines + [line], raws + [pairs];
    }
  }

  method ScopeLine(graphic: char -> bool, kind: string, name: string, o: Obj, scope: string)
      returns (line: string, ghost pairs: seq<Pair>)
    requires scope in o.layers.overrides
    ensures ScopeRaw(o, scope, pairs) && line == ObjectText(graphic, kind, VERB_SET, name, pairs)
  {
    hide ObjectText, PairMap, InOrder;
    var kept := ScopePairs(o.layers.overrides[scope]);
    var all := [(PROFILE, scope)] + kept;
    OnePairMap(PROFILE, scope);
    PairMapConcat([(PROFILE, scope)], kept);
    line := EmitObject(graphic, kind, VERB_SET, name, all);
    pairs := all;
  }

  lemma OnePairMap(key: string, value: string)
    ensures PairMap([(key, value)]) == map[key := value]
  {
    assert [(key, value)][..0] == [];
  }

  // ----- the replay -----

  /** What a command does to the instances of `kind`. `accept` is the validation
      a change must pass before it is stored; a refused command changes nothing. */
  ghost function Execute(k: Kind, kind: string, accept: Instances -> bool, st: Instances, c: Command): Instances {
    if c.kind != kind then st
    else
      var attrs := PairMap(c.pairs);
      match c
      case Create(_, name, _) =>
        if name in st || !Complete(k, attrs) then st else Stored(accept, st, name, Created(k, attrs))
      case Mutate(_, name, _) =>
        if name !in st || !(attrs.Keys !! k.fixed) then st else Stored(accept, st, name, Mutated(k, st[name], attrs))
  }

  ghost function Stored(accept: Instances -> bool, st: Instances, name: string, o: Obj): Instances {
    if accept(st[name := o]) then st[name := o] else st
  }

  ghost function Run(k: Kind, kind: string, accept: Instances -> bool, st: Instances, cs: seq<Command>): Instances
    decreases |cs|
  {
    if cs == [] then st else Run(k, kind, accept, Execute(k, kind, accept, st, cs[0]), cs[1..])
  }

  /** The same from text: a line that reads as no command changes nothing. */
  ghost function Paste(k: Kind, kind: string, accept: Instances -> bool, st: Instances, lines: seq<string>): Instances
    decreases |lines|
  {
    if lines == [] then st
    else
      var next := match ReadCommand(st.Keys, lines[0]) case None => st case Some(c) => Execute(k, kind, accept, st, c);
      Paste(k, kind, accept, next, lines[1..])
  }

  function CommandOf(kind: string, name: string, raws: seq<seq<Pair>>, i: nat): Command
    requires i < |raws|
  {
    if i == 0 then Create(kind, name, raws[0]) else Mutate(kind, name, raws[i])
  }

  function CommandsFrom(kind: string, name: string, raws: seq<seq<Pair>>, i: nat): seq<Command>
    requires i <= |raws|
    decreases |raws| - i
  {
    if i == |raws| then [] else [CommandOf(kind, name, raws, i)] + CommandsFrom(kind, name, raws, i + 1)
  }

  /** The object as it stands once n of the other scopes are back. */
  ghost function Rebuilt(o: Obj, scopes: seq<string>, n: nat): Obj
    requires n <= |scopes|
  {
    var active := o.layers.Scope();
    Obj(o.fields, Layered(if n == 0 then active else scopes[n - 1],
                          map s | s in Held(o.layers.overrides) && (s == active || s in scopes[..n]) ::
                            o.layers.overrides[s]))
  }

  /** Every state the replay passes through after n scopes is one the manager
      accepts. */
  ghost predicate AcceptedAfter(accept: Instances -> bool, st: Instances, name: string, o: Obj, scopes: seq<string>,
                                n: nat)
    requires n <= |scopes|
  {
    && (forall m :: n < m <= |scopes| ==> accept(st[name := Rebuilt(o, scopes, m)]))
    && (scopes != [] ==> accept(st[name := Normalized(o)]))
  }

  lemma CreatedFirst(k: Kind, o: Obj, scopes: seq<string>)
    requires WellFormed(k, o)
    ensures Created(k, AddAttrs(o)) == Rebuilt(o, scopes, 0)
  {
    var active := o.layers.Scope();
    var attrs, own := AddAttrs(o), o.layers.At(active);
    assert own.Keys !! k.fields + {PROFILE};
    assert attrs[PROFILE] == active;
    assert FieldsOf(k, attrs) == o.fields;
    assert Overriding(k, attrs) == own;
    assert Layered(active, map[]).Scope() == active && Layered(active, map[]).At(active) == map[];
    assert map[] + own == own;
    var rebuilt := Rebuilt(o, scopes, 0).layers.overrides;
    if own == map[] {
      assert rebuilt.Keys == {};
    } else {
      assert active in Held(o.layers.overrides);
      assert rebuilt == map[active := own];
    }
  }

  lemma MutatedNext(k: Kind, o: Obj, scopes: seq<string>, n: nat)
    requires WellFormed(k, o) && OtherScopes(o, scopes) && n < |scopes|
    ensures Mutated(k, Rebuilt(o, scopes, n), ScopeAttrs(o, scopes[n])) == Rebuilt(o, scopes, n + 1)
  {
    var scope := scopes[n];
    assert scope in scopes;
    var attrs, own := ScopeAttrs(o, scope), o.layers.At(scope);
    assert own == o.layers.overrides[scope] && own.Keys !! k.fields + {PROFILE};
    NoFields(k, attrs);
    assert Overriding(k, attrs) == own;
    var l := Switched(Rebuilt(o, scopes, n).layers, attrs);
    assert l.Scope() == scope;
    assert scope !in scopes[..n] && l.At(scope) == map[];
    assert map[] + own == own;
    assert Written(l, own).overrides == l.overrides[scope := own];
    OneScopeMore(o, scopes, n);
  }

  lemma OneScopeMore(o: Obj, scopes: seq<string>, n: nat)
    requires OtherScopes(o, scopes) && n < |scopes|
    ensures Rebuilt(o, scopes, n + 1).layers.overrides
         == Rebuilt(o, scopes, n).layers.overrides[scopes[n] := o.layers.At(scopes[n])]
  {
    assert scopes[n] in scopes;
    assert scopes[..n + 1] == scopes[..n] + [scopes[n]];
  }

  lemma MutatedBack(k: Kind, o: Obj, scopes: seq<string>)
    requires WellFormed(k, o) && OtherScopes(o, scopes)
    ensures Mutated(k, Rebuilt(o, scopes, |scopes|), PairMap(SwitchBack(o))) == Normalized(o)
    ensures Rebuilt(o, scopes, |scopes|).layers.overrides == Held(o.layers.overrides)
    ensures scopes == [] ==> Rebuilt(o, scopes, 0) == Normalized(o)
  {
    OnePairMap(PROFILE, o.layers.Scope());
    assert scopes[..|scopes|] == scopes;
    var attrs := map[PROFILE := o.layers.Scope()];
    NoFields(k, attrs);
    NoOverriding(k, attrs);
  }

  /** What the i-th line of an export carries, past the first. */
  function LineAttrs(o: Obj, scopes: seq<string>, i: nat): Values
    requires 1 <= i <= |scopes| + 1
  {
    if i <= |scopes| then ScopeAttrs(o, scopes[i - 1]) else map[PROFILE := o.layers.Scope()]
  }

  lemma LineAttrsRead(o: Obj, scopes: seq<string>, raws: seq<seq<Pair>>, i: nat)
    requires Exported(o, scopes, raws) && 1 <= i < |raws|
    ensures PairMap(raws[i]) == LineAttrs(o, scopes, i)
  {
    if i <= |scopes| {
      assert PairMap(raws[(i - 1) + 1]) == ScopeAttrs(o, scopes[i - 1]);
    } else {
      OnePairMap(PROFILE, o.layers.Scope());
    }
  }

  lemma FreeAttrs(k: Kind, o: Obj, scopes: seq<string>, i: nat)
    requires WellFormed(k, o) && OtherScopes(o, scopes) && 1 <= i <= |scopes| + 1
    ensures LineAttrs(o, scopes, i).Keys !! k.fixed
  {
    if i <= |scopes| {
      assert scopes[i - 1] in scopes;
    }
  }

  lemma Restored(st: Instances, name: string, x: Obj, y: Obj)
    ensures st[name := x][name := y] == st[name := y]
  {
  }

  /** One mutation line of an export. */
  lemma ExecuteLine(k: Kind, kind: string, accept: Instances -> bool, st: Instances, name: string, x: Obj,
                    o: Obj, scopes: seq<string>, raws: seq<seq<Pair>>, i: nat)
    requires WellFormed(k, o) && Exported(o, scopes, raws) && 1 <= i < |raws|
    ensures var y := Mutated(k, x, LineAttrs(o, scopes, i));
            (Execute(k, kind, accept, st[name := x], CommandOf(kind, name, raws, i))
             == if accept(st[name := y]) then st[name := y] else st[name := x])
  {
    hide Mutated, LineAttrs, PairMap;
    LineAttrsRead(o, scopes, raws, i);
    FreeAttrs(k, o, scopes, i);
    Restored(st, name, x, Mutated(k, x, LineAttrs(o, scopes, i)));
  }

  lemma RunNext(k: Kind, kind: string, accept: Instances -> bool, st: Instances, name: string, raws: seq<seq<Pair>>,
                i: nat)
    requires i < |raws|
    ensures Run(k, kind, accept, st, CommandsFrom(kind, name, raws, i))
         == Run(k, kind, accept, Execute(k, kind, accept, st, CommandOf(kind, name, raws, i)),
                CommandsFrom(kind, name, raws, i + 1))
  {
    hide Execute, CommandOf;
    assert CommandsFrom(kind, name, raws, i)[1..] == CommandsFrom(kind, name, raws, i + 1);
  }

  lemma RunNothing(k: Kind, kind: string, accept: Instances -> bool, st: Instances, name: string, raws: seq<seq<Pair>>)
    ensures Run(k, kind, accept, st, CommandsFrom(kind, name, raws, |raws|)) == st
  {
  }

  /** A mutation writes one scope only. */
  lemma MutatedScopes(k: Kind, x: Obj, attrs: Values)
    requires PROFILE in attrs && attrs[PROFILE] != ""
    ensures Mutated(k, x, attrs).layers.overrides.Keys <= x.layers.overrides.Keys + {attrs[PROFILE]}
  {
  }

  lemma LineProfile(k: Kind, o: Obj, scopes: seq<string>, i: nat)
    requires WellFormed(k, o) && OtherScopes(o, scopes) && 1 <= i <= |scopes| + 1
    ensures var attrs := LineAttrs(o, scopes, i);
            PROFILE in attrs && attrs[PROFILE] != ""
            && attrs[PROFILE] == if i <= |scopes| then scopes[i - 1] else o.layers.Scope()
  {
    if i <= |scopes| {
      assert scopes[i - 1] in scopes;
      assert PROFILE !in o.layers.At(scopes[i - 1]);
    }
  }

  /** A scope whose line was refused never comes back. */
  lemma {:induction false} Lost(k: Kind, kind: string, accept: Instances -> bool, st: Instances, name: string, x: Obj,
                                o: Obj, scopes: seq<string>, raws: seq<seq<Pair>>, n: nat, i: nat)
    requires WellFormed(k, o) && Exported(o, scopes, raws) && n < |scopes| && n + 2 <= i <= |raws|
    requires scopes[n] !in x.layers.overrides
    ensures Run(k, kind, accept, st[name := x], CommandsFrom(kind, name, raws, i)) != st[name := Normalized(o)]
    decreases |raws| - i
  {
    hide WellFormed, Exported, OtherScopes, Run, Execute, CommandsFrom, Mutated, LineAttrs, CommandOf;
    ExportedScope(o, scopes, raws, n);
    if i == |raws| {
      RunNothing(k, kind, accept, st[name := x], name, raws);
      assert st[name := x][name] != st[name := Normalized(o)][name];
    } else {
      RunNext(k, kind, accept, st[name := x], name, raws, i);
      ExecuteLine(k, kind, accept, st, name, x, o, scopes, raws, i);
      var y := Mutated(k, x, LineAttrs(o, scopes, i));
      OtherLine(k, o, scopes, raws, n, i);
      MutatedScopes(k, x, LineAttrs(o, scopes, i));
      Lost(k, kind, accept, st, name, if accept(st[name := y]) then y else x, o, scopes, raws, n, i + 1);
    }
  }

  lemma ExportedScope(o: Obj, scopes: seq<string>, raws: seq<seq<Pair>>, n: nat)
    requires Exported(o, scopes, raws) && n < |scopes|
    ensures scopes[n] in Normalized(o).layers.overrides && |raws| == |scopes| + 2
  {
    assert scopes[n] in scopes;
  }

  lemma OtherLine(k: Kind, o: Obj, scopes: seq<string>, raws: seq<seq<Pair>>, n: nat, i: nat)
    requires WellFormed(k, o) && Exported(o, scopes, raws) && n < |scopes| && n + 2 <= i < |raws|
    ensures 1 <= i <= |scopes| + 1
    ensures var attrs := LineAttrs(o, scopes, i);
            PROFILE in attrs && attrs[PROFILE] != "" && attrs[PROFILE] != scopes[n]
  {
    LineProfile(k, o, scopes, i);
    assert scopes[n] in scopes;
  }

  /** From n scopes on, the rest of the export completes the object exactly when
      every state on the way is accepted. */
  lemma {:induction false} Completes(k: Kind, kind: string, accept: Instances -> bool, st: Instances, name: string,
                                     o: Obj, scopes: seq<string>, raws: seq<seq<Pair>>, n: nat)
    requires WellFormed(k, o) && Exported(o, scopes, raws) && n <= |scopes|
    ensures Run(k, kind, accept, st[name := Rebuilt(o, scopes, n)], CommandsFrom(kind, name, raws, n + 1))
            == st[name := Normalized(o)]
       <==> AcceptedAfter(accept, st, name, o, scopes, n)
    decreases |scopes| - n
  {
    hide WellFormed, OtherScopes, Run, Execute, CommandsFrom, Mutated, CommandOf, Rebuilt, Normalized, PairMap;
    var x := Rebuilt(o, scopes, n);
    if n < |scopes| {
      RunNext(k, kind, accept, st[name := x], name, raws, n + 1);
      ExecuteLine(k, kind, accept, st, name, x, o, scopes, raws, n + 1);
      MutatedNext(k, o, scopes, n);
      if accept(st[name := Rebuilt(o, scopes, n + 1)]) {
        Completes(k, kind, accept, st, name, o, scopes, raws, n + 1);
      } else {
        NotYet(o, scopes, n);
        Lost(k, kind, accept, st, name, x, o, scopes, raws, n, n + 2);
      }
    } else {
      MutatedBack(k, o, scopes);
      if scopes == [] {
        RunNothing(k, kind, accept, st[name := x], name, raws);
      } else {
        RunNext(k, kind, accept, st[name := x], name, raws, n + 1);
        ExecuteLine(k, kind, accept, st, name, x, o, scopes, raws, n + 1);
        OnePairMap(PROFILE, o.layers.Scope());
        var next := if accept(st[name := Normalized(o)]) then st[name := Normalized(o)] else st[name := x];
        RunNothing(k, kind, accept, next, name, raws);
        NotBack(o, scopes);
        assert st[name := x][name] != st[name := Normalized(o)][name];
      }
    }
  }

  lemma NotYet(o: Obj, scopes: seq<string>, n: nat)
    requires OtherScopes(o, scopes) && n < |scopes|
    ensures scopes[n] !in Rebuilt(o, scopes, n).layers.overrides
  {
    assert scopes[n] in scopes;
  }

  lemma NotBack(o: Obj, scopes: seq<string>)
    requires OtherScopes(o, scopes) && scopes != []
    ensures Rebuilt(o, scopes, |scopes|) != Normalized(o)
  {
    assert scopes[|scopes| - 1] in scopes;
  }

  /** The commands of an export, from a store without the object, leave exactly
      the normalized object added — if and only if the creation is complete and
      every object on the way is one the manager accepts. */
  lemma ReplayRebuilds(k: Kind, kind: string, accept: Instances -> bool, st: Instances, name: string,
                       o: Obj, scopes: seq<string>, raws: seq<seq<Pair>>)
    requires WellFormed(k, o) && Exported(o, scopes, raws) && name !in st
    ensures Run(k, kind, accept, st, CommandsFrom(kind, name, raws, 0)) == st[name := Normalized(o)]
       <==> && Complete(k, o.fields)
            && accept(st[name := Rebuilt(o, scopes, 0)])
            && AcceptedAfter(accept, st, name, o, scopes, 0)
  {
    hide WellFormed, OtherScopes, Run, Execute, CommandsFrom, AcceptedAfter, Rebuilt, Normalized, PairMap, AddAttrs,
         Created;
    RunNext(k, kind, accept, st, name, raws, 0);
    CreatedFirst(k, o, scopes);
    ExecuteCreate(k, kind, accept, st, name, o, scopes, raws);
    if Complete(k, o.fields) && accept(st[name := Rebuilt(o, scopes, 0)]) {
      Completes(k, kind, accept, st, name, o, scopes, raws, 0);
    } else {
      NeverCreated(k, kind, accept, st, name, raws, 1);
    }
  }

  lemma ExecuteCreate(k: Kind, kind: string, accept: Instances -> bool, st: Instances, name: string,
                      o: Obj, scopes: seq<string>, raws: seq<seq<Pair>>)
    requires WellFormed(k, o) && Exported(o, scopes, raws) && name !in st
    ensures Execute(k, kind, accept, st, CommandOf(kind, name, raws, 0))
         == if Complete(k, o.fields) && accept(st[name := Rebuilt(o, scopes, 0)])
            then st[name := Rebuilt(o, scopes, 0)] else st
  {
    hide Created, PairMap, Rebuilt;
    CreatedFirst(k, o, scopes);
    CompleteFields(k, o);
  }

  lemma CompleteFields(k: Kind, o: Obj)
    requires WellFormed(k, o)
    ensures Complete(k, AddAttrs(o)) <==> Complete(k, o.fields)
  {
    var own := o.layers.At(o.layers.Scope());
    assert own.Keys !! k.fields + {PROFILE};
    forall a | a in k.required ensures a in AddAttrs(o) <==> a in o.fields
    ensures a in o.fields ==> AddAttrs(o)[a] == o.fields[a] {
      assert a in k.fields && a != PROFILE;
    }
  }

  lemma {:induction false} NeverCreated(k: Kind, kind: string, accept: Instances -> bool, st: Instances, name: string,
                                        raws: seq<seq<Pair>>, i: nat)
    requires name !in st && 1 <= i <= |raws|
    ensures Run(k, kind, accept, st, CommandsFrom(kind, name, raws, i)) == st
    decreases |raws| - i
  {
    hide Run, CommandsFrom, PairMap;
    if i == |raws| {
      RunNothing(k, kind, accept, st, name, raws);
    } else {
      RunNext(k, kind, accept, st, name, raws, i);
      NeverCreated(k, kind, accept, st, name, raws, i + 1);
    }
  }

  // ----- the same from text -----

  /** What the names must be for the text of an export to be read back: an
      attribute's is a plain key, the object's is none the grammar keeps for
      itself, no instance is named like the creation's verb, and the profile the
      last line switches back to is plain. */
  ghost predicate NamesFit(graphic: char -> bool, known: set<string>, kind: string, name: string, o: Obj,
                           raws: seq<seq<Pair>>)
    requires raws != []
  {
    && Plain(kind) && Spelled(name) && name != "?" && name != ".."
    && VerbOf(graphic, VERB_ADD, raws[0]) !in known
    && (forall a :: a in AddAttrs(o) ==> PlainKey(a))
    && (forall scope, a :: scope in o.layers.overrides && a in o.layers.overrides[scope] ==> PlainKey(a))
    && Plain(o.layers.Scope())
  }

  lemma {:induction false} KeysOfPairMap(pairs: seq<Pair>, i: nat)
    requires i < |pairs|
    ensures pairs[i].0 in PairMap(pairs)
    decreases |pairs|
  {
    var n := |pairs| - 1;
    if i < n {
      assert pairs[..n][i] == pairs[i];
      KeysOfPairMap(pairs[..n], i);
    }
  }

  lemma PlainRaw(graphic: char -> bool, known: set<string>, kind: string, name: string,
                 o: Obj, scopes: seq<string>, raws: seq<seq<Pair>>, i: nat)
    requires Exported(o, scopes, raws) && i <= |scopes| && NamesFit(graphic, known, kind, name, o, raws)
    ensures forall j :: 0 <= j < |raws[i]| ==> PlainKey(raws[i][j].0)
    ensures i > 0 ==> raws[i] != []
  {
    hide PlainKey, PairMap;
    PlainProfile();
    forall j | 0 <= j < |raws[i]| ensures PlainKey(raws[i][j].0) {
      KeysOfPairMap(raws[i], j);
      if i > 0 {
        assert PairMap(raws[(i - 1) + 1]) == ScopeAttrs(o, scopes[i - 1]);
        assert scopes[i - 1] in scopes;
      }
    }
    if i > 0 {
      assert PairMap(raws[(i - 1) + 1]) == ScopeAttrs(o, scopes[i - 1]);
      assert PROFILE in ScopeAttrs(o, scopes[i - 1]).Keys;
      NoPairMap();
    }
  }

  lemma PlainProfile()
    ensures PlainKey(PROFILE)
  {
  }

  lemma NoPairMap()
    ensures PairMap([]) == map[]
  {
  }

  /** The first line reads as the creation. */
  lemma ReadsCreation(graphic: char -> bool, known: set<string>, kind: string, name: string,
                      o: Obj, scopes: seq<string>, raws: seq<seq<Pair>>)
    requires Exported(o, scopes, raws) && NamesFit(graphic, known, kind, name, o, raws)
    ensures ReadCommand(known, LineOf(graphic, kind, name, raws, 0)) == Some(CommandOf(kind, name, raws, 0))
  {
    hide ReadCommand, ObjectText;
    PlainRaw(graphic, known, kind, name, o, scopes, raws, 0);
    CreationRoundTrip(graphic, known, kind, name, raws[0]);
  }

  /** Every other line reads as its mutation while the object is there. */
  lemma ReadsMutation(graphic: char -> bool, fit: set<string>, known: set<string>, kind: string, name: string,
                      o: Obj, scopes: seq<string>, raws: seq<seq<Pair>>, i: nat)
    requires Exported(o, scopes, raws) && NamesFit(graphic, fit, kind, name, o, raws) && 1 <= i < |raws|
             && name in known
    ensures ReadCommand(known, LineOf(graphic, kind, name, raws, i)) == Some(CommandOf(kind, name, raws, i))
  {
    hide ReadCommand, ObjectText, LineText, Plain, PlainKey, VerbOf;
    if i <= |scopes| {
      PlainRaw(graphic, fit, kind, name, o, scopes, raws, i);
      MutationRoundTrip(graphic, known, kind, name, raws[i]);
    } else {
      PlainProfile();
      SwitchRoundTrip(known, kind, name, PROFILE, o.layers.Scope());
    }
  }

  /** And while it is not there, as nothing that could make it. */
  lemma ReadsWithout(graphic: char -> bool, fit: set<string>, known: set<string>, kind: string, name: string,
                     o: Obj, scopes: seq<string>, raws: seq<seq<Pair>>, i: nat)
    requires Exported(o, scopes, raws) && NamesFit(graphic, fit, kind, name, o, raws) && 1 <= i < |raws|
             && name !in known
    ensures var c := ReadCommand(known, LineOf(graphic, kind, name, raws, i));
            c.Some? ==> c.value.Create? && c.value.name != name
  {
    hide ObjectText, LineText, Plain, PlainKey, VerbOf, Lex, DecodeWords, ReadPairs;
    var line := LineOf(graphic, kind, name, raws, i);
    var words := Texts(Lex(line));
    var v := SetLineHead(graphic, fit, kind, name, o, scopes, raws, i);
    assert words[1] == words[..3][1] && words[2] == words[..3][2];
  }

  lemma SetLineHead(graphic: char -> bool, fit: set<string>, kind: string, name: string,
                    o: Obj, scopes: seq<string>, raws: seq<seq<Pair>>, i: nat) returns (v: string)
    requires Exported(o, scopes, raws) && NamesFit(graphic, fit, kind, name, o, raws) && 1 <= i < |raws|
    ensures v in {VERB_SET, VERB_SET64}
    ensures var words := Texts(Lex(LineOf(graphic, kind, name, raws, i)));
            |words| >= 3 && words[..3] == ["/" + kind, name, v]
  {
    hide ObjectText, LineText, Plain, PlainKey, Lex, HeadText;
    if i <= |scopes| {
      PlainRaw(graphic, fit, kind, name, o, scopes, raws, i);
      ObjectWords(graphic, kind, VERB_SET, name, raws[i]);
      v := VerbOf(graphic, VERB_SET, raws[i]);
    } else {
      SwitchSplits(kind, name, PROFILE, o.layers.Scope());
      HeadRead(kind, VERB_SET, name, PROFILE + "=" + o.layers.Scope());
      v := VERB_SET;
    }
  }

  lemma ExecuteKeeps(k: Kind, kind: string, accept: Instances -> bool, st: Instances, name: string, c: Command)
    ensures name in st ==> name in Execute(k, kind, accept, st, c)
    ensures name !in st && (c.Mutate? || c.name != name) ==> name !in Execute(k, kind, accept, st, c)
  {
  }

  lemma {:induction false} PasteIsRun(graphic: char -> bool, k: Kind, kind: string, accept: Instances -> bool,
                                      fit: set<string>, st: Instances, name: string,
                                      o: Obj, scopes: seq<string>, raws: seq<seq<Pair>>, lines: seq<string>, i: nat)
    requires Exported(o, scopes, raws) && NamesFit(graphic, fit, kind, name, o, raws)
    requires TextOf(graphic, kind, name, raws, lines) && 1 <= i <= |raws| && name in st
    ensures Paste(k, kind, accept, st, lines[i..]) == Run(k, kind, accept, st, CommandsFrom(kind, name, raws, i))
    decreases |raws| - i
  {
    hide Exported, NamesFit, Execute, ReadCommand, CommandOf, LineOf, Run, CommandsFrom;
    if i == |raws| {
      RunNothing(k, kind, accept, st, name, raws);
    } else {
      ReadsMutation(graphic, fit, st.Keys, kind, name, o, scopes, raws, i);
      RunNext(k, kind, accept, st, name, raws, i);
      var c := CommandOf(kind, name, raws, i);
      ExecuteKeeps(k, kind, accept, st, name, c);
      assert lines[i..][1..] == lines[i + 1..];
      PasteIsRun(graphic, k, kind, accept, fit, Execute(k, kind, accept, st, c), name, o, scopes, raws, lines, i + 1);
    }
  }

  lemma SomeLine(o: Obj, scopes: seq<string>, raws: seq<seq<Pair>>)
    requires Exported(o, scopes, raws)
    ensures raws != []
  {
  }

  lemma {:induction false} PasteNever(graphic: char -> bool, k: Kind, kind: string, accept: Instances -> bool,
                                      fit: set<string>, st: Instances, name: string,
                                      o: Obj, scopes: seq<string>, raws: seq<seq<Pair>>, lines: seq<string>, i: nat)
    requires Exported(o, scopes, raws) && NamesFit(graphic, fit, kind, name, o, raws)
    requires TextOf(graphic, kind, name, raws, lines) && 1 <= i <= |raws| && name !in st
    ensures name !in Paste(k, kind, accept, st, lines[i..])
    decreases |raws| - i
  {
    hide Exported, NamesFit, Execute, ReadCommand, LineOf;
    if i < |raws| {
      ReadsWithout(graphic, fit, st.Keys, kind, name, o, scopes, raws, i);
      assert lines[i..][1..] == lines[i + 1..];
      match ReadCommand(st.Keys, lines[i])
      case None =>
        PasteNever(graphic, k, kind, accept, fit, st, name, o, scopes, raws, lines, i + 1);
      case Some(c) =>
        ExecuteKeeps(k, kind, accept, st, name, c);
        PasteNever(graphic, k, kind, accept, fit, Execute(k, kind, accept, st, c), name, o, scopes, raws, lines, i + 1);
    }
  }

  /** Pasted into a console that does not hold the object, the text of an export
      leaves exactly the normalized object added, exactly when the creation is
      complete and every object on the way is accepted. */
  lemma PasteRebuilds(graphic: char -> bool, k: Kind, kind: string, accept: Instances -> bool, st: Instances,
                      name: string, o: Obj, scopes: seq<string>, raws: seq<seq<Pair>>, lines: seq<string>)
    requires WellFormed(k, o) && Exported(o, scopes, raws) && name !in st
    requires NamesFit(graphic, st.Keys, kind, name, o, raws) && TextOf(graphic, kind, name, raws, lines)
    ensures Paste(k, kind, accept, st, lines) == st[name := Normalized(o)]
       <==> && Complete(k, o.fields)
            && accept(st[name := Rebuilt(o, scopes, 0)])
            && AcceptedAfter(accept, st, name, o, scopes, 0)
  {
    hide WellFormed, Exported, NamesFit, Execute, ReadCommand, LineOf, Run, CommandsFrom, Rebuilt, Normalized,
         AcceptedAfter, Complete;
    SomeLine(o, scopes, raws);
    ReadsCreation(graphic, st.Keys, kind, name, o, scopes, raws);
    ReplayRebuilds(k, kind, accept, st, name, o, scopes, raws);
    RunNext(k, kind, accept, st, name, raws, 0);
    var next := Execute(k, kind, accept, st, CommandOf(kind, name, raws, 0));
    if name in next {
      PasteIsRun(graphic, k, kind, accept, st.Keys, next, name, o, scopes, raws, lines, 1);
    } else {
      PasteNever(graphic, k, kind, accept, st.Keys, next, name, o, scopes, raws, lines, 1);
      ExecuteCreate(k, kind, accept, st, name, o, scopes, raws);
      RunNever(k, kind, accept, st, name, o, scopes, raws);
    }
  }

  lemma RunNever(k: Kind, kind: string, accept: Instances -> bool, st: Instances, name: string,
                 o: Obj, scopes: seq<string>, raws: seq<seq<Pair>>)
    requires Exported(o, scopes, raws) && name !in st
    ensures Run(k, kind, accept, st, CommandsFrom(kind, name, raws, 1)) == st
  {
    NeverCreated(k, kind, accept, st, name, raws, 1);
  }

  /** When what the manager demands is that the layers resolve, an object that
      resolves is accepted at every step: no switch on the way names a profile
      the object itself did not need. */
  lemma StepsResolve(o: Obj, scopes: seq<string>, n: nat, catalog: Catalog)
    requires OtherScopes(o, scopes) && n <= |scopes| && Resolvable(o.layers, catalog)
    ensures Resolvable(Rebuilt(o, scopes, n).layers, catalog) && Resolvable(Normalized(o).layers, catalog)
  {
    NormalizedResolves(o, catalog);
    if n > 0 {
      assert scopes[n - 1] in scopes;
    }
  }

  /** From end to end: what an export prints, pasted where the object is not,
      brings it back, as long as the manager asks no more of it than that its
      layers resolve, its names fit the grammar, and no instance is named like a
      creation's verb. */
  lemma ExportThenPaste(graphic: char -> bool, k: Kind, kind: string, accept: Instances -> bool, st: Instances,
                        name: string, o: Obj, lines: seq<string>, catalog: Catalog)
    requires WellFormed(k, o) && Complete(k, o.fields) && Resolvable(o.layers, catalog) && name !in st
    requires IsExport(graphic, kind, name, o, lines)
    requires forall x: Obj :: x.fields == o.fields && Resolvable(x.layers, catalog) ==> accept(st[name := x])
    requires Plain(kind) && Spelled(name) && name != "?" && name != ".." && VERB_ADD !in st && VERB_ADD64 !in st
    requires Plain(o.layers.Scope()) && forall a :: a in AddAttrs(o) ==> PlainKey(a)
    requires forall scope, a :: scope in o.layers.overrides && a in o.layers.overrides[scope] ==> PlainKey(a)
    ensures Paste(k, kind, accept, st, lines) == st[name := Normalized(o)]
  {
    hide WellFormed, Complete, Resolvable, Arranged, TextOf, Paste, Plain, PlainKey, AddAttrs;
    var scopes: seq<string>, raws: seq<seq<Pair>> :|
      Exported(o, scopes, raws) && Arranged(o, scopes, raws) && TextOf(graphic, kind, name, raws, lines);
    PasteRebuilds(graphic, k, kind, accept, st, name, o, scopes, raws, lines);
    StepsResolve(o, scopes, 0, catalog);
    forall m | 0 < m <= |scopes| ensures accept(st[name := Rebuilt(o, scopes, m)]) {
      StepsResolve(o, scopes, m, catalog);
    }
  }
}
