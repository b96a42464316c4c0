/** Layered configuration: a profile picks a preset, and overrides kept by profile
    name patch it (internal/config/layer.go, and the setters of
    cmd/lotor/manager.go). */
module Layers {
  import opened Common
  import opened Ordering

  const CUSTOM: string := "custom"
  const PROFILE: string := "profile"

  type Values = map<string, string>
  type Catalog = map<string, Values>

  /** The scope a profile's overrides live in; no profile is the empty base. */
  function ScopeOf(profile: string): string {
    if profile == "" then CUSTOM else profile
  }

  datatype Layered = Layered(profile: string, overrides: map<string, Values>)
  {
    function Scope(): string {
      ScopeOf(profile)
    }

    /** What one scope holds, nothing when it was never written. */
    function At(scope: string): Values {
      if scope in overrides then overrides[scope] else map[]
    }
  }

  datatype Source = Preset(profile: string) | Override(profile: string)

  datatype Trace = Trace(key: string, source: Source, value: string)

  datatype Resolution =
    | Effective(values: Values, traces: seq<Trace>)
    | CustomHijacked
    | UnknownProfile(name: string)
    | UnknownScope(name: string)

  predicate Known(catalog: Catalog, name: string) {
    name in catalog || name == CUSTOM
  }

  /** When a layering resolves at all. */
  ghost predicate Resolvable(l: Layered, catalog: Catalog) {
    && CUSTOM !in catalog
    && Known(catalog, l.Scope())
    && forall scope :: scope in l.overrides ==> Known(catalog, scope)
  }

  ghost function Base(l: Layered, catalog: Catalog): Values {
    if l.Scope() in catalog then catalog[l.Scope()] else map[]
  }

  /** And what it resolves to: the preset under its own scope's overrides. */
  ghost function EffectiveOf(l: Layered, catalog: Catalog): Values {
    Base(l, catalog) + l.At(l.Scope())
  }

  /** The trace of one key of `over` upon `base`. */
  predicate TraceFits(base: Values, over: Values, profile: string, t: Trace) {
    && t.key in base + over && t.value == (base + over)[t.key]
    && t.source == if t.key in over then Override(profile) else Preset(profile)
  }

  predicate HasTrace(traces: seq<Trace>, key: string) {
    exists i :: 0 <= i < |traces| && traces[i].key == key
  }

  /** One trace per effective key, each saying where its value came from. */
  ghost predicate Traced(base: Values, over: Values, profile: string, traces: seq<Trace>) {
    && (forall i, j :: 0 <= i < j < |traces| ==> traces[i].key != traces[j].key)
    && (forall i :: 0 <= i < |traces| ==> TraceFits(base, over, profile, traces[i]))
    && (forall k :: k in base.Keys + over.Keys ==> HasTrace(traces, k))
  }

  ghost predicate InKeyOrder(traces: seq<Trace>) {
    forall i, j :: 0 <= i < j < |traces| ==> Less(traces[i].key, traces[j].key)
  }

  method Resolve(l: Layered, catalog: Catalog) returns (r: Resolution)
    ensures r.Effective? <==> Resolvable(l, catalog)
    ensures r.CustomHijacked? <==> CUSTOM in catalog
    ensures r.UnknownProfile? <==> CUSTOM !in catalog && !Known(catalog, l.Scope())
    ensures r.UnknownProfile? ==> r.name == l.Scope()
    ensures r.UnknownScope? ==> r.name in l.overrides && !Known(catalog, r.name)
    ensures r.Effective? ==>
              r.values == EffectiveOf(l, catalog) && Traced(Base(l, catalog), l.At(l.Scope()), l.Scope(), r.traces)
    ensures r.Effective? ==> InKeyOrder(r.traces)
  {
    hide InKeyOrder;
    var profile := l.profile;
    if profile == "" {
      profile := CUSTOM;
    }
    if CUSTOM in catalog {
      return CustomHijacked;
    }
    if profile !in catalog && profile != CUSTOM {
      return UnknownProfile(profile);
    }
    var rest := l.overrides.Keys;
    while rest != {}
      invariant rest <= l.overrides.Keys
      invariant forall scope :: scope in l.overrides.Keys - rest ==> Known(catalog, scope)
    {
      var scope :| scope in rest;
      if scope !in catalog && scope != CUSTOM {
        return UnknownScope(scope);
      }
      rest := rest - {scope};
    }
    var base := if profile in catalog then catalog[profile] else map[];
    var over := if profile in l.overrides then l.overrides[profile] else map[];
    var effective, traces := CopyBase(base, profile);
    effective, traces := Patch(base, over, profile, traces);
    traces := SortTraces(base, over, profile, traces);
    return Effective(effective, traces);
  }

  method SortTraces(ghost base: Values, ghost over: Values, ghost profile: string, traces0: seq<Trace>)
      returns (traces: seq<Trace>)
    requires Traced(base, over, profile, traces0)
    ensures Traced(base, over, profile, traces) && InKeyOrder(traces)
  {
    hide Traced, InKeyOrder, Less;
    traces := [];
    NoTraces();
    for i := 0 to |traces0|
      invariant InKeyOrder(traces) && forall t :: t in traces <==> t in traces0[..i]
    {
      var t := traces0[i];
      NewKey(base, over, profile, traces0, i);
      var at := 0;
      while at < |traces| && Less(traces[at].key, t.key)
        invariant at <= |traces| && (at > 0 ==> Less(traces[at - 1].key, t.key))
      {
        at := at + 1;
      }
      InsertedTrace(traces, t, at);
      MembersOfInserted(traces, t, at);
      assert traces0[..i + 1] == traces0[..i] + [t];
      traces := traces[..at] + [t] + traces[at..];
    }
    assert traces0[..|traces0|] == traces0;
    SortedTraces(base, over, profile, traces0, traces);
  }

  lemma NoTraces()
    ensures InKeyOrder([])
  {
  }

  lemma NewKey(base: Values, over: Values, profile: string, traces0: seq<Trace>, i: nat)
    requires Traced(base, over, profile, traces0) && i < |traces0|
    ensures forall t :: t in traces0[..i] ==> t.key != traces0[i].key
  {
  }

  lemma InsertedTrace(traces: seq<Trace>, t: Trace, at: nat)
    requires InKeyOrder(traces) && at <= |traces| && forall u :: u in traces ==> u.key != t.key
    requires at > 0 ==> Less(traces[at - 1].key, t.key)
    requires at < |traces| ==> !Less(traces[at].key, t.key)
    ensures InKeyOrder(traces[..at] + [t] + traces[at..])
  {
    hide Less;
    var keys := seq(|traces|, i requires 0 <= i < |traces| => traces[i].key);
    Inserted(keys, t.key, at);
    var all, more := keys[..at] + [t.key] + keys[at..], traces[..at] + [t] + traces[at..];
    forall i, j | 0 <= i < j < |more| ensures Less(more[i].key, more[j].key) {
      assert more[i].key == all[i] && more[j].key == all[j];
    }
  }

  /** The same traces in another order, each once, are still one per key. */
  lemma SortedTraces(base: Values, over: Values, profile: string, traces0: seq<Trace>, traces: seq<Trace>)
    requires Traced(base, over, profile, traces0) && InKeyOrder(traces)
    requires forall t :: t in traces <==> t in traces0
    ensures Traced(base, over, profile, traces)
  {
    hide Less, TraceFits;
    forall i, j | 0 <= i < j < |traces| ensures traces[i].key != traces[j].key {
      LessTotal(traces[i].key, traces[j].key);
    }
    forall i | 0 <= i < |traces| ensures TraceFits(base, over, profile, traces[i]) {
      assert traces[i] in traces0;
    }
    forall k | k in base.Keys + over.Keys ensures HasTrace(traces, k) {
      assert HasTrace(traces0, k);
      var i :| 0 <= i < |traces0| && traces0[i].key == k;
      assert traces0[i] in traces;
    }
  }

  method CopyBase(base: Values, profile: string) returns (effective: Values, traces: seq<Trace>)
    ensures effective == base && Traced(base, map[], profile, traces)
  {
    effective, traces := map[], [];
    var rest := base.Keys;
    while rest != {}
      invariant rest <= base.Keys && effective == map k | k in base.Keys - rest :: base[k]
      invariant Traced(effective, map[], profile, traces)
    {
      var k :| k in rest;
      rest := rest - {k};
      AppendPreset(effective, profile, traces, k, base[k]);
      effective := effective[k := base[k]];
      traces := traces + [Trace(k, Preset(profile), base[k])];
    }
  }

  /** Overrides over the base: a shadowed key's trace is overwritten where it
      stands, a new key's is appended. */
  method Patch(base: Values, over: Values, profile: string, traces0: seq<Trace>)
      returns (effective: Values, traces: seq<Trace>)
    requires Traced(base, map[], profile, traces0)
    ensures effective == base + over && Traced(base, over, profile, traces)
  {
    hide Traced;
    effective, traces := base, traces0;
    var rest := over.Keys;
    ghost var done: Values := map[];
    while rest != {}
      invariant rest <= over.Keys && done == map k | k in over.Keys - rest :: over[k]
      invariant effective == base + done && Traced(base, done, profile, traces)
    {
      var k :| k in rest;
      rest := rest - {k};
      var t := Trace(k, Override(profile), over[k]);
      if k in effective {
        traces := ReplaceTrace(base, done, profile, traces, t);
      } else {
        AppendOverride(base, done, profile, traces, k, over[k]);
        traces := traces + [t];
      }
      effective := effective[k := over[k]];
      done := done[k := over[k]];
    }
    assert done == over;
  }

  lemma TraceKept(traces: seq<Trace>, t: Trace)
    ensures forall k :: HasTrace(traces + [t], k) <==> HasTrace(traces, k) || k == t.key
  {
    forall k ensures HasTrace(traces + [t], k) <==> HasTrace(traces, k) || k == t.key {
      if HasTrace(traces, k) {
        var i :| 0 <= i < |traces| && traces[i].key == k;
        assert (traces + [t])[i].key == k;
      }
      if k == t.key {
        assert (traces + [t])[|traces|].key == k;
      }
    }
  }

  lemma TraceMissing(base: Values, over: Values, profile: string, traces: seq<Trace>, k: string)
    requires Traced(base, over, profile, traces) && k !in base + over
    ensures forall i :: 0 <= i < |traces| ==> traces[i].key != k
  {
    forall i | 0 <= i < |traces| ensures traces[i].key != k {
      assert TraceFits(base, over, profile, traces[i]);
    }
  }

  lemma AppendPreset(base: Values, profile: string, traces: seq<Trace>, k: string, v: string)
    requires Traced(base, map[], profile, traces) && k !in base
    ensures Traced(base[k := v], map[], profile, traces + [Trace(k, Preset(profile), v)])
  {
    hide HasTrace;
    TraceKept(traces, Trace(k, Preset(profile), v));
    TraceMissing(base, map[], profile, traces, k);
  }

  lemma AppendOverride(base: Values, over: Values, profile: string, traces: seq<Trace>, k: string, v: string)
    requires Traced(base, over, profile, traces) && k !in base + over
    ensures Traced(base, over[k := v], profile, traces + [Trace(k, Override(profile), v)])
  {
    hide HasTrace;
    TraceKept(traces, Trace(k, Override(profile), v));
    TraceMissing(base, over, profile, traces, k);
  }

  lemma SameKeys(a: seq<Trace>, b: seq<Trace>)
    requires |a| == |b| && forall i :: 0 <= i < |a| ==> a[i].key == b[i].key
    ensures forall k :: HasTrace(a, k) ==> HasTrace(b, k)
  {
    forall k | HasTrace(a, k) ensures HasTrace(b, k) {
      var i :| 0 <= i < |a| && a[i].key == k;
      assert b[i].key == k;
    }
  }

  method ReplaceTrace(ghost base: Values, ghost over: Values, ghost profile: string, traces0: seq<Trace>, t: Trace)
      returns (traces: seq<Trace>)
    requires Traced(base, over, profile, traces0) && t.key in base + over && t.source == Override(profile)
    ensures Traced(base, over[t.key := t.value], profile, traces)
  {
    hide Traced;
    traces := traces0;
    for i := 0 to |traces0|
      invariant |traces| == |traces0|
      invariant forall j :: 0 <= j < |traces0| ==>
                  traces[j] == if j < i && traces0[j].key == t.key then t else traces0[j]
    {
      if traces[i].key == t.key {
        traces := traces[i := t];
      }
    }
    Replaced(base, over, profile, traces0, t, traces);
  }

  lemma Replaced(base: Values, over: Values, profile: string, traces0: seq<Trace>, t: Trace, traces: seq<Trace>)
    requires Traced(base, over, profile, traces0) && t.key in base + over && t.source == Override(profile)
    requires |traces| == |traces0|
    requires forall j :: 0 <= j < |traces0| ==> traces[j] == if traces0[j].key == t.key then t else traces0[j]
    ensures Traced(base, over[t.key := t.value], profile, traces)
  {
    hide HasTrace;
    SameKeys(traces0, traces);
    forall i | 0 <= i < |traces| ensures TraceFits(base, over[t.key := t.value], profile, traces[i]) {
      assert TraceFits(base, over, profile, traces0[i]);
    }
  }

  // ----- writing -----

  /** What a kind knows of its own attributes: the ones on fields of the object,
      the fields that say what it IS, those a new one must be given, and those
      that may be taken off again. */
  datatype Kind = Kind(fields: set<string>, fixed: set<string>, required: set<string>, optional: set<string>)
  {
    predicate Valid() {
      PROFILE !in fields && fixed <= fields && required <= fields && optional <= fields
    }
  }

  /** One object: its fields as text, and its layers. */
  datatype Obj = Obj(fields: Values, layers: Layered)

  /** The part of a line that lands on fields, and the part that lands in the
      live scope. */
  function FieldsOf(k: Kind, attrs: Values): Values {
    map a | a in attrs && a in k.fields :: attrs[a]
  }

  function Overriding(k: Kind, attrs: Values): Values {
    map a | a in attrs && a != PROFILE && a !in k.fields :: attrs[a]
  }

  function Written(l: Layered, attrs: Values): Layered {
    if attrs == map[] then l
    else l.(overrides := l.overrides[l.Scope() := l.At(l.Scope()) + attrs])
  }

  /** What a creation line makes. */
  function Created(k: Kind, attrs: Values): Obj {
    Obj(FieldsOf(k, attrs),
        Written(Layered(if PROFILE in attrs then attrs[PROFILE] else "", map[]), Overriding(k, attrs)))
  }

  function Switched(l: Layered, attrs: Values): Layered {
    if PROFILE in attrs then l.(profile := attrs[PROFILE]) else l
  }

  /** What a mutation line makes of an object: the profile first, because it
      decides the scope everything else on the line lands in. */
  function Mutated(k: Kind, o: Obj, attrs: Values): Obj {
    Obj(o.fields + FieldsOf(k, attrs), Written(Switched(o.layers, attrs), Overriding(k, attrs)))
  }

  /** Taking one attribute off: None when there is nothing to take. */
  function Unset(k: Kind, o: Obj, attr: string): Option<Obj> {
    var l := o.layers;
    if attr in k.optional then Some(o.(fields := o.fields - {attr}))
    else if attr == PROFILE || attr in k.fields || attr !in l.At(l.Scope()) then None
    else Some(o.(layers := l.(overrides := l.overrides[l.Scope() := l.At(l.Scope()) - {attr}])))
  }

  function UnsetAll(k: Kind, o: Obj, attrs: seq<string>): Option<Obj>
    decreases |attrs|
  {
    if attrs == [] then Some(o)
    else match Unset(k, o, attrs[0]) case None => None case Some(next) => UnsetAll(k, next, attrs[1..])
  }

  /** An object being composed, before it is validated and stored. */
  class Draft {
    const kind: Kind
    var fields: Values
    var profile: string
    var overrides: map<string, Values>

    function Current(): Obj
      reads this
    {
      Obj(fields, Layered(profile, overrides))
    }

    constructor (kind: Kind, o: Obj)
      ensures Current() == o && this.kind == kind
    {
      this.kind, fields, profile, overrides := kind, o.fields, o.layers.profile, o.layers.overrides;
    }

    method SetOverride(attr: string, v: string) returns (was: Option<string>)
      modifies this
      ensures Current() == old(Current()).(layers := Written(old(Current()).layers, map[attr := v]))
      ensures was == if attr in old(Current()).layers.At(old(Current()).layers.Scope())
                     then Some(old(Current()).layers.At(old(Current()).layers.Scope())[attr]) else None
    {
      var scope := profile;
      if scope == "" {
        scope := CUSTOM;
      }
      if scope !in overrides {
        overrides := overrides[scope := map[]];
      }
      was := if attr in overrides[scope] then Some(overrides[scope][attr]) else None;
      ghost var l := old(Current()).layers;
      assert overrides[scope][attr := v] == l.At(scope) + map[attr := v];
      overrides := overrides[scope := overrides[scope][attr := v]];
      assert overrides == l.overrides[scope := l.At(scope) + map[attr := v]];
    }

    /** Takes an override off; refused when the live scope does not hold it. */
    method UnsetOverride(attr: string) returns (was: Option<string>)
      modifies this
      ensures var l := old(Current()).layers;
              if attr in l.At(l.Scope()) then
                && was == Some(l.At(l.Scope())[attr])
                && Current() ==
                     old(Current()).(layers := l.(overrides := l.overrides[l.Scope() := l.At(l.Scope()) - {attr}]))
              else was == None && Current() == old(Current())
    {
      var scope := profile;
      if scope == "" {
        scope := CUSTOM;
      }
      if scope !in overrides || attr !in overrides[scope] {
        return None;
      }
      was := Some(overrides[scope][attr]);
      overrides := overrides[scope := overrides[scope] - {attr}];
    }

    /** The kind's own setter: refused only for what the object IS. */
    method SetAttr(attr: string, v: string) returns (ok: bool)
      requires kind.Valid()
      modifies this
      ensures ok <==> attr !in kind.fixed
      ensures Current() == if ok then Mutated(kind, old(Current()), map[attr := v]) else old(Current())
    {
      hide Written;
      if attr in kind.fixed {
        return false;
      }
      OneAttribute(kind, Current(), attr, v);
      if attr == PROFILE {
        profile := v;
      } else if attr in kind.fields {
        fields := fields[attr := v];
      } else {
        var was := this.SetOverride(attr, v);
      }
      return true;
    }

    /** And its unsetter. */
    method UnsetAttr(attr: string) returns (ok: bool)
      requires kind.Valid()
      modifies this
      ensures match Unset(kind, old(Current()), attr)
              case Some(o) => ok && Current() == o
              case None => !ok && Current() == old(Current())
    {
      if attr in kind.optional {
        fields := fields - {attr};
        return true;
      }
      if attr == PROFILE || attr in kind.fields {
        return false;
      }
      var was := this.UnsetOverride(attr);
      return was.Some?;
    }
  }

  /** The three ways one attribute lands. */
  lemma OneAttribute(k: Kind, o: Obj, attr: string, v: string)
    requires k.Valid()
    ensures Mutated(k, o, map[attr := v]) ==
              if attr == PROFILE then o.(layers := o.layers.(profile := v))
              else if attr in k.fields then o.(fields := o.fields[attr := v])
              else o.(layers := Written(o.layers, map[attr := v]))
  {
    var one := map[attr := v];
    if attr in k.fields {
      NoOverriding(k, one);
      assert FieldsOf(k, one) == one;
    } else {
      NoFields(k, one);
      if attr == PROFILE {
        NoOverriding(k, one);
      } else {
        assert Overriding(k, one) == one;
      }
    }
  }

  lemma NoFields(k: Kind, attrs: Values)
    requires attrs.Keys !! k.fields
    ensures FieldsOf(k, attrs) == map[]
    ensures forall o: Obj :: o.fields + FieldsOf(k, attrs) == o.fields
  {
    assert FieldsOf(k, attrs).Keys <= attrs.Keys * k.fields;
  }

  lemma NoOverriding(k: Kind, attrs: Values)
    requires attrs.Keys <= k.fields + {PROFILE}
    ensures Overriding(k, attrs) == map[]
  {
    assert Overriding(k, attrs).Keys <= attrs.Keys - k.fields - {PROFILE};
  }

  /** The keys of one line: the profile before all others, the rest sorted. */
  method OrderedAttrs(typed: Values) returns (keys: seq<string>)
    ensures forall k :: k in keys <==> k in typed
    ensures forall i, j :: 0 <= i < j < |keys| ==> keys[i] != keys[j]
    ensures PROFILE in typed ==> keys != [] && keys[0] == PROFILE
    ensures Ascending(if PROFILE in typed then keys[1..] else keys)
  {
    hide Less;
    keys := Sorted(typed.Keys - {PROFILE});
    EachOnce(keys);
    if PROFILE in typed {
      assert PROFILE !in keys;
      keys := [PROFILE] + keys;
    }
  }

  /** What the first keys of a line say. */
  ghost function Upto(typed: Values, keys: seq<string>, n: nat): Values
    requires n <= |keys| && forall k :: k in keys ==> k in typed
  {
    map a | a in keys[..n] :: typed[a]
  }

  lemma UptoNext(typed: Values, keys: seq<string>, n: nat)
    requires n < |keys| && forall k :: k in keys ==> k in typed
    requires forall i, j :: 0 <= i < j < |keys| ==> keys[i] != keys[j]
    ensures keys[n] !in Upto(typed, keys, n)
    ensures Upto(typed, keys, n + 1) == Upto(typed, keys, n)[keys[n] := typed[keys[n]]]
  {
    assert keys[..n + 1] == keys[..n] + [keys[n]];
  }

  lemma UptoAll(typed: Values, keys: seq<string>)
    requires forall k :: k in keys <==> k in typed
    ensures Upto(typed, keys, 0) == map[] && Upto(typed, keys, |keys|) == typed
  {
    assert keys[..|keys|] == keys;
  }

  /** The mutation half: every attribute of the line through the kind's setter,
      then the ones it takes off through its unsetter. */
  method ApplyInstanceChanges(k: Kind, o: Obj, typed: Values, unset: seq<string>) returns (next: Option<Obj>)
    requires k.Valid()
    ensures next == if typed.Keys !! k.fixed then UnsetAll(k, Mutated(k, o, typed), unset) else None
  {
    hide Mutated, UnsetAll;
    var draft := new Draft(k, o);
    var keys := OrderedAttrs(typed);
    NothingMutated(k, o);
    UptoAll(typed, keys);
    for i := 0 to |keys|
      invariant draft.kind == k && fresh(draft)
      invariant draft.Current() == Mutated(k, o, Upto(typed, keys, i))
      invariant Upto(typed, keys, i).Keys !! k.fixed
    {
      hide Upto;
      UptoNext(typed, keys, i);
      var attr := keys[i];
      var ok := draft.SetAttr(attr, typed[attr]);
      if !ok {
        assert attr in typed.Keys;
        return None;
      }
      ProfileFirst(typed, keys, i);
      MutatedOnce(k, o, Upto(typed, keys, i), attr, typed[attr]);
    }
    var ok := UnsetEach(draft, unset);
    return if ok then Some(draft.Current()) else None;
  }

  method UnsetEach(draft: Draft, unset: seq<string>) returns (ok: bool)
    requires draft.kind.Valid()
    modifies draft
    ensures ok <==> UnsetAll(draft.kind, old(draft.Current()), unset).Some?
    ensures ok ==> draft.Current() == UnsetAll(draft.kind, old(draft.Current()), unset).value
  {
    hide Unset;
    for i := 0 to |unset|
      invariant UnsetAll(draft.kind, draft.Current(), unset[i..]) == UnsetAll(draft.kind, old(draft.Current()), unset)
    {
      assert unset[i..][1..] == unset[i + 1..];
      ok := draft.UnsetAttr(unset[i]);
      if !ok {
        return;
      }
    }
    ok := true;
  }

  lemma ProfileFirst(typed: Values, keys: seq<string>, i: nat)
    requires i < |keys| && forall k :: k in keys <==> k in typed
    requires forall a, b :: 0 <= a < b < |keys| ==> keys[a] != keys[b]
    requires PROFILE in typed ==> keys != [] && keys[0] == PROFILE
    ensures keys[i] == PROFILE ==> Upto(typed, keys, i) == map[]
  {
    if keys[i] == PROFILE {
      assert i == 0;
    }
  }

  lemma NothingMutated(k: Kind, o: Obj)
    ensures Mutated(k, o, map[]) == o
  {
    NoOverriding(k, map[]);
    NoFields(k, map[]);
  }

  /** One attribute at a time is the whole line, as long as the profile, if it is
      on the line, was first. */
  lemma MutatedOnce(k: Kind, o: Obj, done: Values, attr: string, v: string)
    requires k.Valid() && attr !in done && (attr == PROFILE ==> done == map[])
    ensures Mutated(k, Mutated(k, o, done), map[attr := v]) == Mutated(k, o, done[attr := v])
  {
    if attr == PROFILE {
      NothingMutated(k, o);
      assert done[attr := v] == map[attr := v];
    } else {
      hide Written, Mutated;
      OneAttribute(k, Mutated(k, o, done), attr, v);
      LineGrows(k, o, done, attr, v);
      WrittenOnce(Switched(o.layers, done), Overriding(k, done), attr, v);
    }
  }

  /** What one more attribute adds to a line. */
  lemma LineGrows(k: Kind, o: Obj, done: Values, attr: string, v: string)
    requires attr !in done && attr != PROFILE
    ensures Mutated(k, o, done) ==
              Obj(o.fields + FieldsOf(k, done), Written(Switched(o.layers, done), Overriding(k, done)))
    ensures Mutated(k, o, done[attr := v]) ==
              if attr in k.fields
              then Mutated(k, o, done).(fields := Mutated(k, o, done).fields[attr := v])
              else Mutated(k, o, done).(layers := Written(Switched(o.layers, done), Overriding(k, done)[attr := v]))
  {
    hide Written;
    var both := done[attr := v];
    if attr in k.fields {
      assert Overriding(k, both) == Overriding(k, done);
      assert FieldsOf(k, both) == FieldsOf(k, done)[attr := v];
      assert o.fields + FieldsOf(k, both) == (o.fields + FieldsOf(k, done))[attr := v];
    } else {
      assert Overriding(k, both) == Overriding(k, done)[attr := v];
      assert FieldsOf(k, both) == FieldsOf(k, done);
    }
  }

  lemma WrittenOnce(l: Layered, done: Values, attr: string, v: string)
    ensures Written(Written(l, done), map[attr := v]) == Written(l, done[attr := v])
  {
    var scope := l.Scope();
    if done == map[] {
      assert done[attr := v] == map[attr := v];
    } else {
      var first := Written(l, done);
      assert attr in map[attr := v] && attr in done[attr := v];
      assert first.At(scope) == l.At(scope) + done;
      assert (l.At(scope) + done) + map[attr := v] == l.At(scope) + done[attr := v];
    }
  }

  /** An override taken off lets the preset's value show through again, and
      touches nothing else of what the object resolves to. */
  lemma UnsetShowsPreset(k: Kind, o: Obj, attr: string, catalog: Catalog)
    requires k.Valid() && attr !in k.fields && Unset(k, o, attr).Some?
    ensures var next := Unset(k, o, attr).value;
            && EffectiveOf(next.layers, catalog) - {attr} == EffectiveOf(o.layers, catalog) - {attr}
            && (attr in EffectiveOf(next.layers, catalog) <==> attr in Base(o.layers, catalog))
            && (attr in Base(o.layers, catalog) ==>
                EffectiveOf(next.layers, catalog)[attr] == Base(o.layers, catalog)[attr])
            && (Resolvable(next.layers, catalog) <==> Resolvable(o.layers, catalog))
  {
    var l, n := o.layers, Unset(k, o, attr).value.layers;
    assert n.At(n.Scope()) == l.At(l.Scope()) - {attr};
    assert n.overrides.Keys == l.overrides.Keys;
  }

  /** The creation half: the structural attributes straight onto the object, the
      rest through the setter in whatever order the map yields them. */
  method CreateHosted(k: Kind, attrs: Values) returns (o: Option<Obj>)
    requires k.Valid()
    ensures o == if forall a :: a in k.required ==> a in attrs && attrs[a] != "" then Some(Created(k, attrs)) else None
  {
    hide Written;
    var needed := k.required;
    while needed != {}
      invariant needed <= k.required
      invariant forall a :: a in k.required - needed ==> a in attrs && attrs[a] != ""
    {
      var a :| a in needed;
      if a !in attrs || attrs[a] == "" {
        return None;
      }
      needed := needed - {a};
    }
    var structural := FieldsOf(k, attrs);
    var profile := if PROFILE in attrs then attrs[PROFILE] else "";
    var draft := new Draft(k, Obj(structural, Layered(profile, map[])));
    var rest := set a | a in attrs && a != PROFILE && a !in k.fields;
    ghost var all, done: Values := rest, map[];
    NothingWritten(Layered(profile, map[]));
    while rest != {}
      invariant rest <= all && done == map a | a in all - rest :: attrs[a]
      invariant draft.Current() == Obj(structural, Written(Layered(profile, map[]), done))
    {
      var attr :| attr in rest;
      rest := rest - {attr};
      WrittenOnce(Layered(profile, map[]), done, attr, attrs[attr]);
      var was := draft.SetOverride(attr, attrs[attr]);
      done := done[attr := attrs[attr]];
    }
    assert done == Overriding(k, attrs);
    return Some(draft.Current());
  }

  lemma NothingWritten(l: Layered)
    ensures Written(l, map[]) == l
  {
  }

  // ----- entry by entry -----

  /** The scope a profile names: "custom" when there is none. */
  ghost predicate Lives(l: Layered, scope: string) {
    if l.profile == "" then scope == "custom" else scope == l.profile
  }

  ghost predicate Holds(l: Layered, scope: string, key: string, v: string) {
    scope in l.overrides && key in l.overrides[scope] && l.overrides[scope][key] == v
  }

  /** What an object resolves to, key by key: the live scope's override, or else
      the preset of the same name; and when it does at all. */
  lemma ResolvesExactly(l: Layered, catalog: Catalog, key: string, v: string)
    ensures var live := if l.profile == "" then "custom" else l.profile;
            && (Resolvable(l, catalog) <==>
                && "custom" !in catalog && (live == "custom" || live in catalog)
                && forall scope :: scope in l.overrides ==> scope == "custom" || scope in catalog)
            && (key in EffectiveOf(l, catalog) && EffectiveOf(l, catalog)[key] == v <==>
                || Holds(l, live, key, v)
                || (live in catalog && key in catalog[live] && catalog[live][key] == v
                    && (live !in l.overrides || key !in l.overrides[live])))
  {
    assert l.Scope() == if l.profile == "" then "custom" else l.profile;
  }

  /** And what its trace says of the key. */
  lemma TraceSays(l: Layered, catalog: Catalog, traces: seq<Trace>, i: nat)
    requires Traced(Base(l, catalog), l.At(l.Scope()), l.Scope(), traces) && i < |traces|
    ensures var live := if l.profile == "" then "custom" else l.profile;
            && (traces[i].source == Override(live) <==> Holds(l, live, traces[i].key, traces[i].value))
            && (traces[i].source == Preset(live) <==>
                && live in catalog && traces[i].key in catalog[live] && catalog[live][traces[i].key] == traces[i].value
                && (live !in l.overrides || traces[i].key !in l.overrides[live]))
  {
    assert TraceFits(Base(l, catalog), l.At(l.Scope()), l.Scope(), traces[i]);
    assert l.Scope() == if l.profile == "" then "custom" else l.profile;
  }

  /** Where each attribute of a mutation line lands, and that nothing else moves:
      the profile is the line's own, fields take theirs, and the rest goes to the
      scope the profile on the line names. */
  lemma LineLands(k: Kind, o: Obj, attrs: Values, a: string, scope: string, v: string)
    ensures var next := Mutated(k, o, attrs);
            && next.layers.profile == (if "profile" in attrs then attrs["profile"] else o.layers.profile)
            && (a in next.fields && next.fields[a] == v <==>
                if a in attrs && a in k.fields then attrs[a] == v else a in o.fields && o.fields[a] == v)
            && (Holds(next.layers, scope, a, v) <==>
                if a in attrs && a != "profile" && a !in k.fields && Lives(next.layers, scope) then attrs[a] == v
                else Holds(o.layers, scope, a, v))
  {
    var l := Switched(o.layers, attrs);
    assert Written(l, Overriding(k, attrs)).profile == l.profile;
    assert Lives(l, scope) <==> scope == l.Scope();
    if a in attrs && a != PROFILE && a !in k.fields {
      assert a in Overriding(k, attrs);
    }
    if a in attrs && a in k.fields {
      assert a in FieldsOf(k, attrs);
    }
  }

  /** Nothing but the live scope comes to be, and only by something to hold. */
  lemma ScopesAppear(k: Kind, o: Obj, attrs: Values, scope: string)
    ensures scope in Mutated(k, o, attrs).layers.overrides <==>
              || scope in o.layers.overrides
              || (Lives(Mutated(k, o, attrs).layers, scope)
                  && exists a :: a in attrs && a != "profile" && a !in k.fields)
  {
    if a :| a in attrs && a != "profile" && a !in k.fields {
      assert a in Overriding(k, attrs);
    } else {
      NoOverriding(k, attrs);
    }
  }

  /** A creation is the mutation of an object that holds nothing. */
  lemma CreatedFromNothing(k: Kind, attrs: Values)
    ensures Created(k, attrs) == Mutated(k, Obj(map[], Layered("", map[])), attrs)
  {
    assert map[] + FieldsOf(k, attrs) == FieldsOf(k, attrs);
  }

  /** What an attribute taken off leaves: an optional field goes and the layers
      stay; any other is an override of the live scope, which alone loses it; and
      there is nothing to take exactly when it is neither. */
  lemma TakenOff(k: Kind, o: Obj, attr: string)
    ensures var live := if o.layers.profile == "" then "custom" else o.layers.profile;
            var held := live in o.layers.overrides && attr in o.layers.overrides[live];
            match Unset(k, o, attr)
            case None => attr !in k.optional && (attr == "profile" || attr in k.fields || !held)
            case Some(next) =>
              if attr in k.optional then next.fields == o.fields - {attr} && next.layers == o.layers
              else
                && attr != "profile" && attr !in k.fields && held
                && next.fields == o.fields && next.layers.profile == o.layers.profile
                && next.layers.overrides.Keys == o.layers.overrides.Keys
                && forall scope :: scope in next.layers.overrides ==>
                     next.layers.overrides[scope] ==
                       if scope == live then o.layers.overrides[live] - {attr} else o.layers.overrides[scope]
  {
  }
}
