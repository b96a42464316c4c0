/** The migration that renames what an older import let through, and moves every
    reference with its target (cmd/lotor/migrations.go,
    internal/config/config.go). */
module NameHealing {
  import opened Common

  // ----- names -----

  /** Which characters a terminal can show: unicode.IsGraphic, of which the
      healing only needs to know its own spelling. */
  datatype Grammar = Grammar(graphic: char -> bool)
  {
    predicate Sane() {
      && graphic('-')
      && (forall c :: '0' <= c <= '9' ==> graphic(c))
      && (forall c :: c in UNNAMED ==> graphic(c))
    }

    predicate Fits(c: char) {
      !(c in FORBIDDEN) && graphic(c)
    }

    predicate ValidName(name: string) {
      name != "" && forall i :: 0 <= i < |name| ==> Fits(name[i])
    }

    /** strings.Map over the name: every refused rune becomes a dash. */
    function Dashed(name: string): (r: string)
      ensures |r| == |name|
      ensures forall i :: 0 <= i < |name| ==> r[i] == if Fits(name[i]) then name[i] else '-'
    {
      seq(|name|, i requires 0 <= i < |name| => if Fits(name[i]) then name[i] else '-')
    }

    function CanonicalName(name: string): string {
      if name == "" then UNNAMED
      else if ValidName(Dashed(name)) then Dashed(name)
      else UNNAMED
    }
  }

  const FORBIDDEN: string := " \t/\"="
  const UNNAMED: string := "unnamed"

  /** The last resort in CanonicalInstanceName is never needed: what it makes of
      any name is a name the grammar admits, and is the dashed form unless there
      was no name at all. */
  lemma CanonicalIsValid(g: Grammar, name: string)
    requires g.Sane()
    ensures g.ValidName(g.CanonicalName(name))
    ensures name != "" ==> g.CanonicalName(name) == g.Dashed(name)
  {
    assert g.Fits('-');
    forall i | 0 <= i < |UNNAMED| ensures g.Fits(UNNAMED[i]) {
      assert UNNAMED[i] in UNNAMED;
    }
  }

  /** What the grammar admits: characters a terminal can show, at least one, and
      none of the five that would end a name, a path or an attribute. */
  lemma ValidExactly(g: Grammar, name: string)
    ensures g.ValidName(name) <==>
              && name != "" && (forall i :: 0 <= i < |name| ==> g.graphic(name[i]))
              && ' ' !in name && '\t' !in name && '/' !in name && '"' !in name && '=' !in name
  {
    hide Grammar.Fits;
    forall i | 0 <= i < |name| ensures g.Fits(name[i]) <==> FitsAs(g, name[i]) {
      FitsExactly(g, name[i]);
    }
  }

  ghost predicate FitsAs(g: Grammar, c: char) {
    g.graphic(c) && c != ' ' && c != '\t' && c != '/' && c != '"' && c != '='
  }

  lemma FitsExactly(g: Grammar, c: char)
    ensures g.Fits(c) <==> FitsAs(g, c)
  {
    assert FORBIDDEN == [' ', '\t', '/', '"', '='];
  }

  /** The canonical form: the name with a dash for each character it may not hold,
      and "unnamed" when there is none. */
  lemma CanonicalExactly(g: Grammar, name: string, i: nat)
    requires g.Sane()
    ensures g.CanonicalName("") == "unnamed"
    ensures name != "" ==> |g.CanonicalName(name)| == |name|
    ensures i < |name| ==> g.CanonicalName(name)[i] == if FitsAs(g, name[i]) then name[i] else '-'
  {
    CanonicalIsValid(g, name);
    if i < |name| {
      FitsExactly(g, name[i]);
    }
  }

  function Digit(d: nat): char
    requires d < 10
  {
    ('0' as int + d) as char
  }

  function Decimal(n: nat): (s: string)
    ensures s != "" && forall i :: 0 <= i < |s| ==> '0' <= s[i] <= '9'
  {
    if n < 10 then [Digit(n)] else Decimal(n / 10) + [Digit(n % 10)]
  }

  lemma {:induction false} DecimalInjective(a: nat, b: nat)
    requires Decimal(a) == Decimal(b)
    ensures a == b
    decreases a
  {
    if a >= 10 && b >= 10 {
      var sa, sb := Decimal(a), Decimal(b);
      assert sa[..|sa| - 1] == Decimal(a / 10) && sb[..|sb| - 1] == Decimal(b / 10);
      assert sa[|sa| - 1] == Digit(a % 10) && sb[|sb| - 1] == Digit(b % 10);
      DecimalInjective(a / 10, b / 10);
    }
  }

  /** `base`, then `base-2`, `base-3`, … */
  function Candidate(base: string, n: nat): string {
    if n < 2 then base else base + "-" + Decimal(n)
  }

  /** The number a numeral writes. */
  ghost function Reads(s: string): int {
    if s == "" then 0 else Reads(s[..|s| - 1]) * 10 + (s[|s| - 1] as int - '0' as int)
  }

  lemma {:induction false} DecimalReads(n: nat)
    ensures Reads(Decimal(n)) == n && (n > 0 ==> Decimal(n)[0] != '0')
    decreases n
  {
    if n >= 10 {
      DecimalReads(n / 10);
      assert Decimal(n)[..|Decimal(n)| - 1] == Decimal(n / 10);
    } else {
      assert Decimal(n)[..0] == "" && Reads("") == 0;
    }
  }

  /** The first candidate is the name itself, the n-th it and a dash and n. */
  lemma CandidateIs(base: string, n: nat)
    ensures Candidate(base, 1) == base
    ensures n >= 2 ==>
              && base + "-" <= Candidate(base, n)
              && Reads(Candidate(base, n)[|base| + 1..]) == n && Candidate(base, n)[|base| + 1..][0] != '0'
  {
    DecimalReads(n);
    if n >= 2 {
      assert Candidate(base, n)[|base| + 1..] == Decimal(n);
    }
  }

  lemma CandidatesDiffer(base: string, a: nat, b: nat)
    requires 1 <= a < b
    ensures Candidate(base, a) != Candidate(base, b)
  {
    var sb := base + "-" + Decimal(b);
    if a < 2 {
      assert |sb| > |base|;
    } else if Candidate(base, a) == sb {
      var sa := base + "-" + Decimal(a);
      assert sa[|base| + 1..] == Decimal(a) && sb[|base| + 1..] == Decimal(b);
      DecimalInjective(a, b);
    }
  }

  lemma CandidateIsValid(g: Grammar, base: string, n: nat)
    requires g.Sane() && g.ValidName(base)
    ensures g.ValidName(Candidate(base, n))
  {
    assert g.Fits('-');
    if n >= 2 {
      var s := Candidate(base, n);
      forall i | 0 <= i < |s| ensures g.Fits(s[i]) {
        if i < |base| {
          assert s[i] == base[i];
        } else if i > |base| {
          assert s[i] == Decimal(n)[i - |base| - 1];
        }
      }
    }
  }

  // ----- the store -----

  datatype Kind = Radio | Relay | Sensor | Mqtt | Other(word: string)
  {
    /** Only collections have instance names. */
    predicate Collection() {
      !Other?
    }
  }

  type Key = (Kind, string)

  datatype Json = Text(s: string) | Object(fields: map<string, Json>) | Scalar

  type Attrs = map<string, Json>

  /** One object's attributes; None when the stored text does not parse. */
  type Obj = Option<Attrs>

  datatype Rename = Rename(kind: Kind, from: string, to: string)

  predicate Loose(g: Grammar, key: Key) {
    key.0.Collection() && !g.ValidName(key.1)
  }

  /** A healing of these objects: every loose name and no other is renamed, to a
      name the grammar admits, a recognisable one, that no object of its kind
      carries or is given. */
  ghost predicate IsPlan(g: Grammar, keys: set<Key>, plan: seq<Rename>) {
    && (forall i :: 0 <= i < |plan| ==>
          && (plan[i].kind, plan[i].from) in keys
          && Loose(g, (plan[i].kind, plan[i].from))
          && g.ValidName(plan[i].to)
          && (exists n: nat :: plan[i].to == Candidate(g.CanonicalName(plan[i].from), n))
          && (plan[i].kind, plan[i].to) !in keys)
    && (forall key :: key in keys && Loose(g, key) ==>
        exists i :: 0 <= i < |plan| && (plan[i].kind, plan[i].from) == key)
    && (forall i, j :: 0 <= i < j < |plan| && plan[i].kind == plan[j].kind ==>
          plan[i].from != plan[j].from && plan[i].to != plan[j].to)
  }

  /** The new name of every renamed object of one kind, by its old one. */
  function Moved(plan: seq<Rename>, kind: Kind): map<string, string> {
    if plan == [] then map[]
    else
      var r := plan[|plan| - 1];
      var rest := Moved(plan[..|plan| - 1], kind);
      if r.kind == kind then rest[r.from := r.to] else rest
  }

  function NewName(plan: seq<Rename>, kind: Kind, name: string): string {
    var moved := Moved(plan, kind);
    if name in moved then moved[name] else name
  }

  function NewKey(plan: seq<Rename>, key: Key): Key {
    (key.0, NewName(plan, key.0, key.1))
  }

  /** No two objects share a name after any prefix of a plan. */
  lemma NewKeyInjective(g: Grammar, keys: set<Key>, plan: seq<Rename>, n: nat, a: Key, b: Key)
    requires IsPlan(g, keys, plan) && n <= |plan| && a in keys && b in keys
    requires NewKey(plan[..n], a) == NewKey(plan[..n], b)
    ensures a == b
  {
    hide NewKey, IsPlan;
    var i := RenameOf(plan, n, a);
    var j := RenameOf(plan, n, b);
    if i >= 0 {
      GivenOnce(g, keys, plan, i, j);
    }
    if j >= 0 {
      GivenOnce(g, keys, plan, j, i);
    }
  }

  /** The name a rename gives is no object's, and no other rename's. */
  lemma GivenOnce(g: Grammar, keys: set<Key>, plan: seq<Rename>, i: nat, j: int)
    requires IsPlan(g, keys, plan) && i < |plan| && -1 <= j < |plan|
    ensures (plan[i].kind, plan[i].to) !in keys
    ensures j >= 0 && (plan[i].kind, plan[i].to) == (plan[j].kind, plan[j].to) ==> i == j
  {
  }

  /** The rename among the first n that gave a key its present name, or -1 when it
      has kept its own. */
  lemma {:induction false} RenameOf(plan: seq<Rename>, n: nat, key: Key) returns (i: int)
    requires n <= |plan|
    ensures -1 <= i < n
    ensures i == -1 ==> NewKey(plan[..n], key) == key && forall j :: 0 <= j < n ==> (plan[j].kind, plan[j].from) != key
    ensures i >= 0 ==> (plan[i].kind, plan[i].from) == key && NewKey(plan[..n], key) == (plan[i].kind, plan[i].to)
  {
    if n == 0 {
      i := -1;
    } else {
      assert plan[..n][..n - 1] == plan[..n - 1];
      if (plan[n - 1].kind, plan[n - 1].from) == key {
        i := n - 1;
      } else {
        i := RenameOf(plan, n - 1, key);
      }
    }
  }

  lemma NewKeyStep(g: Grammar, keys: set<Key>, plan: seq<Rename>, n: nat, key: Key)
    requires IsPlan(g, keys, plan) && n < |plan|
    ensures NewKey(plan[..n + 1], key)
         == if key == (plan[n].kind, plan[n].from) then (plan[n].kind, plan[n].to) else NewKey(plan[..n], key)
    ensures key == (plan[n].kind, plan[n].from) ==> NewKey(plan[..n], key) == key
  {
    assert plan[..n + 1][..n] == plan[..n];
    var i := RenameOf(plan, n, key);
  }

  // ----- references -----

  /** Where an attribute can stand: the object's own map, or one override scope. */
  datatype Place = Top | Scope(name: string)

  const OVERRIDES: string := "overrides"

  function ScopesOf(obj: Attrs): map<string, Json> {
    if OVERRIDES in obj && obj[OVERRIDES].Object? then obj[OVERRIDES].fields else map[]
  }

  function TextAt(kv: Attrs, attr: string): Option<string> {
    if attr in kv && kv[attr].Text? then Some(kv[attr].s) else None
  }

  /** What the attribute names at one place, if it names anything. */
  function RefAt(obj: Attrs, attr: string, place: Place): Option<string> {
    match place
    case Top => TextAt(obj, attr)
    case Scope(s) =>
      var scopes := ScopesOf(obj);
      if s in scopes && scopes[s].Object? then TextAt(scopes[s].fields, attr) else None
  }

  function Retargeted(kv: Attrs, attr: string, moved: map<string, string>): Attrs {
    var t := TextAt(kv, attr);
    if t.Some? && t.value in moved then kv[attr := Text(moved[t.value])] else kv
  }

  function RetargetedScope(scope: Json, attr: string, moved: map<string, string>): Json {
    if scope.Object? then Object(Retargeted(scope.fields, attr, moved)) else scope
  }

  function Repointed(obj: Attrs, attr: string, moved: map<string, string>): Attrs {
    var o := Retargeted(obj, attr, moved);
    if OVERRIDES in o && o[OVERRIDES].Object? then
      var scopes := o[OVERRIDES].fields;
      o[OVERRIDES := Object(map s | s in scopes :: RetargetedScope(scopes[s], attr, moved))]
    else o
  }

  function RepointedObj(obj: Obj, attr: string, moved: map<string, string>): Obj {
    if obj.None? then None else Some(Repointed(obj.value, attr, moved))
  }

  /** Repointing moves the attribute at every place it names something moved, and
      changes nothing else anywhere in the object. */
  lemma RepointedRefs(obj: Attrs, attr: string, moved: map<string, string>, place: Place)
    requires attr != OVERRIDES
    ensures var before := RefAt(obj, attr, place);
            RefAt(Repointed(obj, attr, moved), attr, place)
              == match before case None => None
                 case Some(t) => Some(if t in moved then moved[t] else t)
    ensures Repointed(obj, attr, moved).Keys == obj.Keys
    ensures forall other :: other in obj && other != attr && other != OVERRIDES ==>
              Repointed(obj, attr, moved)[other] == obj[other]
    ensures forall other :: other != attr && other != OVERRIDES ==>
              RefAt(Repointed(obj, attr, moved), other, place) == RefAt(obj, other, place)
  {
  }

  /** The attribute by which a kind refers, and the kind it refers to. */
  function RefAttr(kind: Kind): Option<(string, Kind)> {
    match kind
    case Relay => Some(("radio", Radio))
    case Mqtt => Some(("relay", Relay))
    case _ => None
  }

  /** One object as the healing leaves it. */
  function HealedObj(plan: seq<Rename>, kind: Kind, obj: Obj): Obj {
    match RefAttr(kind)
    case None => obj
    case Some((attr, target)) => RepointedObj(obj, attr, Moved(plan, target))
  }

  /** The whole store as the healing must leave it. */
  ghost predicate HealedStore(before: map<Key, Obj>, plan: seq<Rename>, after: map<Key, Obj>) {
    && after.Keys == (set key | key in before :: NewKey(plan, key))
    && forall key :: key in before ==>
         NewKey(plan, key) in after && after[NewKey(plan, key)] == HealedObj(plan, key.0, before[key])
  }

  /** The store after the first n renames, before any reference moved. */
  ghost predicate RenamedStore(before: map<Key, Obj>, plan: seq<Rename>, n: nat, after: map<Key, Obj>)
    requires n <= |plan|
  {
    && after.Keys == (set key | key in before :: NewKey(plan[..n], key))
    && forall key :: key in before ==>
         NewKey(plan[..n], key) in after && after[NewKey(plan[..n], key)] == before[key]
  }

  function Kept(keys: set<Key>, rows: Rows): Rows {
    map k | k in rows && (Relay, k.0) in keys :: rows[k]
  }

  function Without(owner: string, rows: Rows): Rows {
    map k | k in rows && k.0 != owner :: rows[k]
  }

  /** What a table loses with a relay, and what a drop of orphans leaves in it. */
  lemma RowsLeave(keys: set<Key>, owner: string, rows: Rows, k: RowKey)
    ensures k in Kept(keys, rows) <==> k in rows && (Relay, k.0) in keys
    ensures k in Without(owner, rows) <==> k in rows && k.0 != owner
    ensures k in Kept(keys, rows) ==> Kept(keys, rows)[k] == rows[k]
    ensures k in Without(owner, rows) ==> Without(owner, rows)[k] == rows[k]
  {
  }

  lemma NobodyMoves(u: Unique, rows: Rows, owner: string)
    ensures !Collides(u, rows, owner, owner) && OwnerMoved(u, rows, owner, owner) == rows
  {
    forall k | k in rows ensures OwnerOf(k, owner, owner) == k && k in OwnerMoved(u, rows, owner, owner) {
      assert k == (k.0, k.1);
      OwnerMovedAt(u, rows, owner, owner, k);
    }
  }

  /** One row under another key, if it was there. */
  function WithName(objects: map<Key, Obj>, from: Key, to: Key): map<Key, Obj> {
    if from in objects then (objects - {from})[to := objects[from]] else objects
  }

  // ----- what is kept under a relay's name -----

  /** One runtime table's rows, by the owner's name and their own key; a region's
      row carries its place in the order as well. */
  datatype Row = Row(order: int, text: string)

  type RowKey = (string, string)

  type Rows = map<RowKey, Row>

  /** What a table admits once for each owner: a session by its key, a region by
      its id and by its place in the order, one line of region settings. */
  datatype Unique = ById | ByIdAndOrder | ByOwner

  predicate Clash(u: Unique, rows: Rows, a: RowKey, b: RowKey)
    requires a in rows && b in rows
  {
    a.1 == b.1 || u.ByOwner? || (u.ByIdAndOrder? && rows[a].order == rows[b].order)
  }

  /** When giving one owner's rows to another would break the table's key. */
  ghost predicate Collides(u: Unique, rows: Rows, from: string, to: string) {
    from != to && exists a, b :: a in rows && b in rows && a.0 == from && b.0 == to && Clash(u, rows, a, b)
  }

  /** Which rows meet under one owner: in the access table two of one key, among
      the regions two of one id or of one place, of the settings any two. */
  lemma CollidesExactly(rows: Rows, from: string, to: string)
    ensures Collides(ById, rows, from, to) <==>
              from != to && exists a, b :: a in rows && b in rows && a.0 == from && b.0 == to && a.1 == b.1
    ensures Collides(ByIdAndOrder, rows, from, to) <==>
              && from != to
              && exists a, b :: && a in rows && b in rows && a.0 == from && b.0 == to
                                && (a.1 == b.1 || rows[a].order == rows[b].order)
    ensures Collides(ByOwner, rows, from, to) <==>
              from != to && exists a, b :: a in rows && b in rows && a.0 == from && b.0 == to
  {
    assert forall a, b :: a in rows && b in rows ==>
        && (Clash(ById, rows, a, b) <==> a.1 == b.1) && Clash(ByOwner, rows, a, b)
        && (Clash(ByIdAndOrder, rows, a, b) <==> a.1 == b.1 || rows[a].order == rows[b].order);
  }

  function OwnerOf(k: RowKey, from: string, to: string): RowKey {
    if k.0 == from then (to, k.1) else k
  }

  lemma OwnersApart(u: Unique, rows: Rows, from: string, to: string, a: RowKey, b: RowKey)
    requires !Collides(u, rows, from, to) && a in rows && b in rows && OwnerOf(a, from, to) == OwnerOf(b, from, to)
    ensures a == b
  {
    assert a == (a.0, a.1) && b == (b.0, b.1);
    if a.0 != b.0 {
      assert Clash(u, rows, a, b) && Clash(u, rows, b, a);
    }
  }

  ghost function OwnerMoved(u: Unique, rows: Rows, from: string, to: string): Rows
    requires !Collides(u, rows, from, to)
  {
    assert forall a, b :: a in rows && b in rows && OwnerOf(a, from, to) == OwnerOf(b, from, to) ==> a == b by {
      forall a, b | a in rows && b in rows && OwnerOf(a, from, to) == OwnerOf(b, from, to) ensures a == b {
        OwnersApart(u, rows, from, to, a, b);
      }
    }
    map k | k in rows :: OwnerOf(k, from, to) := rows[k]
  }

  lemma OwnerMovedAt(u: Unique, rows: Rows, from: string, to: string, k: RowKey)
    requires !Collides(u, rows, from, to) && k in rows
    ensures OwnerOf(k, from, to) in OwnerMoved(u, rows, from, to)
    ensures OwnerMoved(u, rows, from, to)[OwnerOf(k, from, to)] == rows[k]
  {
    hide OwnerOf, Collides;
    var at := OwnerOf(k, from, to);
    assert at in OwnerMoved(u, rows, from, to);
    var w :| w in rows && OwnerOf(w, from, to) == at && OwnerMoved(u, rows, from, to)[at] == rows[w];
    OwnersApart(u, rows, from, to, k, w);
  }

  lemma OwnerMovedFrom(u: Unique, rows: Rows, from: string, to: string, j: RowKey) returns (k: RowKey)
    requires !Collides(u, rows, from, to) && j in OwnerMoved(u, rows, from, to)
    ensures k in rows && OwnerOf(k, from, to) == j
  {
    hide OwnerOf, Collides;
    k :| k in rows && OwnerOf(k, from, to) == j;
  }

  /** No row is kept under a name the plan gives out. */
  ghost predicate Unclaimed(plan: seq<Rename>, rows: Rows) {
    forall k, i :: k in rows && 0 <= i < |plan| && plan[i].kind == Relay ==> k.0 != plan[i].to
  }

  /** Some relay's rows cannot be given its new name. */
  ghost predicate Blocked(u: Unique, plan: seq<Rename>, n: nat, rows: Rows)
    requires n <= |plan|
  {
    exists i :: 0 <= i < n && plan[i].kind == Relay && Collides(u, rows, plan[i].from, plan[i].to)
  }

  /** The rows after the first n renames: each under its owner's present name. */
  ghost predicate RenamedRows(before: Rows, plan: seq<Rename>, n: nat, after: Rows)
    requires n <= |plan|
  {
    && (forall k :: k in before ==> RowNow(plan, n, k) in after && after[RowNow(plan, n, k)] == before[k])
    && (forall j :: j in after ==> HasRow(before, plan, n, j))
  }

  ghost function RowNow(plan: seq<Rename>, n: nat, k: RowKey): RowKey
    requires n <= |plan|
  {
    (NewKey(plan[..n], (Relay, k.0)).1, k.1)
  }

  ghost predicate HasRow(before: Rows, plan: seq<Rename>, n: nat, j: RowKey)
    requires n <= |plan|
  {
    exists k :: k in before && RowNow(plan, n, k) == j
  }

  lemma RowOf(before: Rows, plan: seq<Rename>, n: nat, j: RowKey) returns (k: RowKey)
    requires n <= |plan| && HasRow(before, plan, n, j)
    ensures k in before && RowNow(plan, n, k) == j
  {
    k :| k in before && RowNow(plan, n, k) == j;
  }

  lemma RowIs(before: Rows, plan: seq<Rename>, n: nat, k: RowKey)
    requires n <= |plan| && k in before
    ensures HasRow(before, plan, n, RowNow(plan, n, k))
  {
  }

  lemma NoRowsMoved(rows: Rows, plan: seq<Rename>)
    ensures RenamedRows(rows, plan, 0, rows)
  {
    assert plan[..0] == [];
    forall k | k in rows ensures RowNow(plan, 0, k) == k {
      assert k == (k.0, k.1);
    }
    forall j | j in rows ensures HasRow(rows, plan, 0, j) {
      assert RowNow(plan, 0, j) == j;
    }
  }

  /** One rename more moves exactly the rows of its own relay, and until then
      nothing but those stand under its old name, and nothing but what always did
      under its new one. */
  lemma RowNext(g: Grammar, keys: set<Key>, plan: seq<Rename>, n: nat, k: RowKey)
    requires IsPlan(g, keys, plan) && n < |plan|
    ensures RowNow(plan, n + 1, k) ==
              if plan[n].kind == Relay then OwnerOf(RowNow(plan, n, k), plan[n].from, plan[n].to)
              else RowNow(plan, n, k)
    ensures plan[n].kind == Relay ==> (RowNow(plan, n, k).0 == plan[n].from <==> k.0 == plan[n].from)
    ensures plan[n].kind == Relay ==> (RowNow(plan, n, k).0 == plan[n].to <==> k.0 == plan[n].to)
    ensures plan[n].kind == Relay && (k.0 == plan[n].from || k.0 == plan[n].to) ==> RowNow(plan, n, k) == k
  {
    hide NewKey;
    NewKeyStep(g, keys, plan, n, (Relay, k.0));
    var i := RenameOf(plan, n, (Relay, k.0));
    assert k == (k.0, k.1);
  }

  /** So whether a rename's rows collide was settled before any rename. */
  lemma CollidesAsBefore(g: Grammar, keys: set<Key>, u: Unique, plan: seq<Rename>, n: nat, before: Rows, now: Rows)
    requires IsPlan(g, keys, plan) && n < |plan| && plan[n].kind == Relay && RenamedRows(before, plan, n, now)
    ensures Collides(u, now, plan[n].from, plan[n].to) <==> Collides(u, before, plan[n].from, plan[n].to)
  {
    hide NewKey, IsPlan, RowNow, HasRow;
    var from, to := plan[n].from, plan[n].to;
    if Collides(u, before, from, to) {
      var a, b :| a in before && b in before && a.0 == from && b.0 == to && Clash(u, before, a, b);
      RowNext(g, keys, plan, n, a);
      RowNext(g, keys, plan, n, b);
      assert a in now && b in now && Clash(u, now, a, b);
    }
    if Collides(u, now, from, to) {
      var a, b :| a in now && b in now && a.0 == from && b.0 == to && Clash(u, now, a, b);
      var c := RowOf(before, plan, n, a);
      var d := RowOf(before, plan, n, b);
      RowNext(g, keys, plan, n, c);
      RowNext(g, keys, plan, n, d);
      assert Clash(u, before, c, d);
    }
  }

  lemma RowsNext(g: Grammar, keys: set<Key>, u: Unique, plan: seq<Rename>, n: nat, before: Rows, now: Rows)
    requires IsPlan(g, keys, plan) && n < |plan| && RenamedRows(before, plan, n, now)
    ensures plan[n].kind == Relay && !Collides(u, now, plan[n].from, plan[n].to) ==>
              RenamedRows(before, plan, n + 1, OwnerMoved(u, now, plan[n].from, plan[n].to))
    ensures plan[n].kind != Relay ==> RenamedRows(before, plan, n + 1, now)
  {
    hide *;
    if plan[n].kind == Relay {
      if !Collides(u, now, plan[n].from, plan[n].to) {
        RelayRowsNext(g, keys, u, plan, n, before, now);
      }
    } else {
      OtherRowsNext(g, keys, plan, n, before, now);
    }
  }

  lemma OtherRowsNext(g: Grammar, keys: set<Key>, plan: seq<Rename>, n: nat, before: Rows, now: Rows)
    requires IsPlan(g, keys, plan) && n < |plan| && RenamedRows(before, plan, n, now)
    requires plan[n].kind != Relay
    ensures RenamedRows(before, plan, n + 1, now)
  {
    hide NewKey, IsPlan, RowNow, HasRow;
    forall k | k in before ensures RowNow(plan, n + 1, k) in now && now[RowNow(plan, n + 1, k)] == before[k] {
      RowNext(g, keys, plan, n, k);
    }
    forall j | j in now ensures HasRow(before, plan, n + 1, j) {
      var k := RowOf(before, plan, n, j);
      RowNext(g, keys, plan, n, k);
      RowIs(before, plan, n + 1, k);
    }
  }

  lemma RelayRowsNext(g: Grammar, keys: set<Key>, u: Unique, plan: seq<Rename>, n: nat, before: Rows, now: Rows)
    requires IsPlan(g, keys, plan) && n < |plan| && RenamedRows(before, plan, n, now)
    requires plan[n].kind == Relay && !Collides(u, now, plan[n].from, plan[n].to)
    ensures RenamedRows(before, plan, n + 1, OwnerMoved(u, now, plan[n].from, plan[n].to))
  {
    hide NewKey, IsPlan, RowNow, OwnerOf, OwnerMoved, Collides, HasRow;
    var from, to := plan[n].from, plan[n].to;
    var next := OwnerMoved(u, now, from, to);
    forall k | k in before ensures RowNow(plan, n + 1, k) in next && next[RowNow(plan, n + 1, k)] == before[k] {
      RowNext(g, keys, plan, n, k);
      OwnerMovedAt(u, now, from, to, RowNow(plan, n, k));
    }
    forall j | j in next ensures HasRow(before, plan, n + 1, j) {
      var was := OwnerMovedFrom(u, now, from, to, j);
      var k := RowOf(before, plan, n, was);
      RowNext(g, keys, plan, n, k);
      RowIs(before, plan, n + 1, k);
    }
  }

  // ----- whose rows a relay ends up with -----

  /** Every relay has exactly its own rows under its new name. */
  ghost predicate KeepsOwn(keys: set<Key>, plan: seq<Rename>, before: Rows, after: Rows) {
    forall relay, id :: (Relay, relay) in keys ==> OwnRow(plan, before, after, relay, id)
  }

  ghost predicate OwnRow(plan: seq<Rename>, before: Rows, after: Rows, relay: string, id: string) {
    var now := (NewName(plan, Relay, relay), id);
    && (now in after <==> (relay, id) in before)
    && ((relay, id) in before && now in after ==> after[now] == before[(relay, id)])
  }

  /** The relay comes up knowing who may talk to it, and nobody else: every relay
      keeps exactly its own rows if and only if none were kept under a name the
      plan gives out. */
  lemma RowsFollow(g: Grammar, keys: set<Key>, u: Unique, plan: seq<Rename>, before: Rows, after: Rows)
    requires IsPlan(g, keys, plan) && !Blocked(u, plan, |plan|, before) && RenamedRows(before, plan, |plan|, after)
    ensures KeepsOwn(keys, plan, before, after) <==> Unclaimed(plan, before)
  {
    hide OwnRow, Blocked, RenamedRows, IsPlan;
    if Unclaimed(plan, before) {
      forall relay, id | (Relay, relay) in keys ensures OwnRow(plan, before, after, relay, id) {
        OwnRowFollows(g, keys, plan, before, after, relay, id);
      }
    } else {
      var k, i :| k in before && 0 <= i < |plan| && plan[i].kind == Relay && k.0 == plan[i].to;
      StrayTaken(g, keys, u, plan, before, after, k, i);
    }
  }

  lemma OwnRowFollows(g: Grammar, keys: set<Key>, plan: seq<Rename>, before: Rows, after: Rows, relay: string,
                      id: string)
    requires IsPlan(g, keys, plan) && Unclaimed(plan, before) && RenamedRows(before, plan, |plan|, after)
    requires (Relay, relay) in keys
    ensures OwnRow(plan, before, after, relay, id)
  {
    hide Moved, NewName, HasRow;
    Whole(plan);
    var now := (NewName(plan, Relay, relay), id);
    assert RowNow(plan, |plan|, (relay, id)) == now;
    if now in after {
      var k := RowOf(before, plan, |plan|, now);
      SameOwner(g, keys, plan, before, k, relay);
      assert k == (k.0, k.1);
    }
  }

  /** With no stray rows, two owners never come to share a name. */
  lemma SameOwner(g: Grammar, keys: set<Key>, plan: seq<Rename>, before: Rows, k: RowKey, relay: string)
    requires IsPlan(g, keys, plan) && Unclaimed(plan, before) && k in before && (Relay, relay) in keys
    requires NewName(plan, Relay, k.0) == NewName(plan, Relay, relay)
    ensures k.0 == relay
  {
    hide NewKey, IsPlan;
    Whole(plan);
    PlanTargets(g, keys, plan);
    assert NewKey(plan, (Relay, k.0)) == NewKey(plan, (Relay, relay)) by {
      SameNewKey(plan, k.0, relay);
    }
    var i := RenameOf(plan, |plan|, (Relay, k.0));
    var j := RenameOf(plan, |plan|, (Relay, relay));
  }

  lemma SameNewKey(plan: seq<Rename>, a: string, b: string)
    requires NewName(plan, Relay, a) == NewName(plan, Relay, b)
    ensures NewKey(plan, (Relay, a)) == NewKey(plan, (Relay, b))
  {
  }

  lemma PlanTargets(g: Grammar, keys: set<Key>, plan: seq<Rename>)
    requires IsPlan(g, keys, plan)
    ensures forall i :: 0 <= i < |plan| ==> (plan[i].kind, plan[i].to) !in keys
    ensures forall i, j :: 0 <= i < j < |plan| && plan[i].kind == plan[j].kind ==>
              plan[i].from != plan[j].from && plan[i].to != plan[j].to
  {
  }

  /** A stray row becomes the renamed relay's, under a key that was not its own. */
  lemma StrayTaken(g: Grammar, keys: set<Key>, u: Unique, plan: seq<Rename>, before: Rows, after: Rows, k: RowKey,
                   i: nat)
    requires IsPlan(g, keys, plan) && !Blocked(u, plan, |plan|, before) && RenamedRows(before, plan, |plan|, after)
    requires k in before && i < |plan| && plan[i].kind == Relay && k.0 == plan[i].to
    ensures (Relay, plan[i].from) in keys && !OwnRow(plan, before, after, plan[i].from, k.1)
  {
    hide Moved, NewName, HasRow;
    Whole(plan);
    var from := plan[i].from;
    StillRenamed(g, keys, plan, i, (Relay, from));
    assert NewName(plan, Relay, from) == plan[i].to;
    var none := RenameOf(plan, |plan|, (Relay, k.0));
    assert RowNow(plan, |plan|, k) == k == (k.0, k.1);
    assert from != plan[i].to;
    NotBlockedAt(u, plan, before, i);
    NeverBoth(u, before, from, plan[i].to, k.1);
  }

  lemma NotBlockedAt(u: Unique, plan: seq<Rename>, rows: Rows, i: nat)
    requires i < |plan| && plan[i].kind == Relay && !Blocked(u, plan, |plan|, rows)
    ensures !Collides(u, rows, plan[i].from, plan[i].to)
  {
  }

  lemma NeverBoth(u: Unique, rows: Rows, from: string, to: string, id: string)
    requires from != to && !Collides(u, rows, from, to)
    ensures (to, id) in rows ==> (from, id) !in rows
  {
  }

  /** Every row's owner is a relay there is. */
  ghost predicate Owned(keys: set<Key>, rows: Rows) {
    forall k :: k in rows ==> (Relay, k.0) in keys
  }

  /** Then healing is neither refused nor mistaken: the names it gives out are no
      relay's. */
  lemma OwnedIsUnclaimed(g: Grammar, keys: set<Key>, u: Unique, plan: seq<Rename>, rows: Rows)
    requires IsPlan(g, keys, plan) && Owned(keys, rows)
    ensures Unclaimed(plan, rows) && !Blocked(u, plan, |plan|, rows)
  {
  }

  /** An input on which it is refused: a loose name whose canonical form still has
      a session of a relay long gone, with the same key. */
  lemma StrayRefuses(g: Grammar, from: string, to: string, id: string, mine: Row, stray: Row)
    requires IsPlan(g, {(Relay, from)}, [Rename(Relay, from, to)])
    ensures var rows: Rows := map[(from, id) := mine, (to, id) := stray];
            Blocked(ById, [Rename(Relay, from, to)], 1, rows) && !Owned({(Relay, from)}, rows)
  {
    var rows: Rows := map[(from, id) := mine, (to, id) := stray];
    var plan := [Rename(Relay, from, to)];
    assert (plan[0].kind, plan[0].to) !in {(Relay, from)};
    assert (from, id) in rows && (to, id) in rows && Clash(ById, rows, (from, id), (to, id));
    assert plan[0].kind == Relay && Collides(ById, rows, plan[0].from, plan[0].to);
  }

  class Store {
    var objects: map<Key, Obj>
    var acl: Rows
    var regions: Rows
    var regionsMeta: Rows

    constructor (objects: map<Key, Obj>, acl: Rows, regions: Rows, regionsMeta: Rows)
      ensures this.objects == objects && this.acl == acl && this.regions == regions && this.regionsMeta == regionsMeta
    {
      this.objects, this.acl, this.regions, this.regionsMeta := objects, acl, regions, regionsMeta;
    }

    /** Every runtime row is some relay's. */
    ghost predicate NoOrphans()
      reads this
    {
      Owned(objects.Keys, acl) && Owned(objects.Keys, regions) && Owned(objects.Keys, regionsMeta)
    }

    ghost predicate AnyBlocked(plan: seq<Rename>)
      reads this
    {
      || Blocked(ById, plan, |plan|, acl)
      || Blocked(ByIdAndOrder, plan, |plan|, regions)
      || Blocked(ByOwner, plan, |plan|, regionsMeta)
    }

    /** An earlier rung: rows whose relay no longer exists are dropped, and no
        others. */
    method DropOrphanRuntime()
      modifies this`acl, this`regions, this`regionsMeta
      ensures NoOrphans()
      ensures acl == Kept(objects.Keys, old(acl)) && regions == Kept(objects.Keys, old(regions))
      ensures regionsMeta == Kept(objects.Keys, old(regionsMeta))
    {
      acl, regions, regionsMeta :=
        Kept(objects.Keys, acl), Kept(objects.Keys, regions), Kept(objects.Keys, regionsMeta);
    }

    /** Removing an object; a relay takes its rows with it, so no orphan is ever
        left. */
    method Remove(key: Key)
      requires NoOrphans()
      modifies this
      ensures NoOrphans() && objects == old(objects) - {key}
      ensures key.0 != Relay ==> acl == old(acl) && regions == old(regions) && regionsMeta == old(regionsMeta)
      ensures key.0 == Relay ==>
                && acl == Without(key.1, old(acl)) && regions == Without(key.1, old(regions))
                && regionsMeta == Without(key.1, old(regionsMeta))
    {
      objects := objects - {key};
      if key.0 == Relay {
        acl, regions, regionsMeta := Without(key.1, acl), Without(key.1, regions), Without(key.1, regionsMeta);
      }
    }

    /** UPDATE … SET relay over one runtime table: all its rows of one owner, or
        none when the table's key would break. */
    static method UpdateOwner(u: Unique, rows: Rows, from: string, to: string) returns (ok: bool, next: Rows)
      ensures ok <==> !Collides(u, rows, from, to)
      ensures next == if ok then OwnerMoved(u, rows, from, to) else rows
    {
      ok, next := false, rows;
      if from == to {
        NobodyMoves(u, rows, from);
        return true, rows;
      }
      var mine := set k | k in rows && k.0 == from;
      var theirs := set k | k in rows && k.0 == to;
      var left := mine;
      while left != {}
        invariant left <= mine
        invariant forall a, b :: a in mine && a !in left && b in theirs ==> !Clash(u, rows, a, b)
      {
        var a :| a in left;
        var others := theirs;
        while others != {}
          invariant others <= theirs
          invariant forall b :: b in theirs && b !in others ==> !Clash(u, rows, a, b)
        {
          var b :| b in others;
          if Clash(u, rows, a, b) {
            return;
          }
          others := others - {b};
        }
        left := left - {a};
      }
      ok := true;
      next := Reowned(u, rows, from, to);
    }

    static function Reowned(u: Unique, rows: Rows, from: string, to: string): (next: Rows)
      requires from != to && forall a, b :: a in rows && b in rows && a.0 == from && b.0 == to ==> !Clash(u, rows, a, b)
      ensures !Collides(u, rows, from, to) && next == OwnerMoved(u, rows, from, to)
    {
      assert forall a, b :: a in rows && b in rows && OwnerOf(a, from, to) == OwnerOf(b, from, to) ==> a == b by {
        forall a, b | a in rows && b in rows && OwnerOf(a, from, to) == OwnerOf(b, from, to) ensures a == b {
          OwnersApart(u, rows, from, to, a, b);
        }
      }
      map k | k in rows :: OwnerOf(k, from, to) := rows[k]
    }

    /** UPDATE objects SET name: refused when the new name is already a row of
        that kind. */
    method UpdateName(kind: Kind, from: string, to: string) returns (ok: bool)
      modifies this`objects
      ensures ok <==> !((kind, from) in old(objects) && (kind, to) in old(objects) && from != to)
      ensures objects == if ok then WithName(old(objects), (kind, from), (kind, to)) else old(objects)
    {
      if (kind, from) !in objects {
        return true;
      }
      if (kind, to) in objects && from != to {
        return false;
      }
      var obj := objects[(kind, from)];
      objects := (objects - {(kind, from)})[(kind, to) := obj];
      return true;
    }

    /** Decides every rename before any is applied. `rows` is the store's own
        listing of the named collections, in whatever order. */
    method PlanNameRenames(g: Grammar, rows: seq<Key>) returns (plan: seq<Rename>)
      requires g.Sane() && Listing(objects.Keys, rows)
      ensures IsPlan(g, objects.Keys, plan) && FirstCome(g, rows, plan)
    {
      hide Grammar.ValidName, Grammar.CanonicalName, IsPlan, HasName, Candidate, LooseOf, EachFirst;
      var taken, loose := CollectNames(g, rows);
      ghost var valid, given: set<Key> := taken, {};
      plan := [];
      NamesAtFirst(g, rows, taken);
      for i := 0 to |loose|
        invariant |plan| == i && taken == valid + given
        invariant forall k :: 0 <= k < i ==> Chosen(g, valid, loose[k], plan[k]) && (plan[k].kind, plan[k].to) in given
        invariant forall a, b :: 0 <= a < b < i && plan[a].kind == plan[b].kind ==> plan[a].to != plan[b].to
        invariant forall kind, name :: (kind, name) in taken <==> HasName(g, rows, plan, kind, name)
        invariant EachFirst(g, rows, plan)
      {
        var (kind, from) := loose[i];
        CanonicalIsValid(g, from);
        var n, to := FreeName(taken, kind, g.CanonicalName(from));
        CandidateIsValid(g, g.CanonicalName(from), n);
        taken, given := taken + {(kind, to)}, given + {(kind, to)};
        var r := Rename(kind, from, to);
        assert IsFirst(g, rows, plan, r, n);
        NamesTaken(g, rows, plan, r);
        EachFirstNext(g, rows, plan, r);
        plan := plan + [r];
      }
      PlanFromLoose(g, objects.Keys, rows, valid, loose, plan);
    }

    /** Renames everything the plan says, the rows kept under a relay's name with
        it, then moves the references. No update of a name ever meets one in use;
        the transaction is refused exactly when some relay's rows cannot be given
        its new name, and never in a store without orphans, where every relay
        keeps exactly its own. */
    method MigrateInstanceNames(g: Grammar, rows: seq<Key>) returns (ok: bool, ghost plan: seq<Rename>)
      requires g.Sane() && Listing(objects.Keys, rows)
      modifies this
      ensures IsPlan(g, old(objects).Keys, plan) && FirstCome(g, rows, plan)
      ensures ok <==> !old(AnyBlocked(plan))
      ensures ok ==> HealedStore(old(objects), plan, objects)
      ensures ok ==> && RenamedRows(old(acl), plan, |plan|, acl) && RenamedRows(old(regions), plan, |plan|, regions)
                     && RenamedRows(old(regionsMeta), plan, |plan|, regionsMeta)
      ensures old(NoOrphans()) ==>
                && ok && KeepsOwn(old(objects).Keys, plan, old(acl), acl)
                && KeepsOwn(old(objects).Keys, plan, old(regions), regions)
                && KeepsOwn(old(objects).Keys, plan, old(regionsMeta), regionsMeta)
    {
      hide IsPlan, FirstCome, RenamedStore, HealedStore, Listing, Blocked, RenamedRows, KeepsOwn, Unclaimed, Owned;
      var renames := this.PlanNameRenames(g, rows);
      plan := renames;
      ghost var before, acl0, regions0, meta0 := objects, acl, regions, regionsMeta;
      if NoOrphans() {
        OwnedIsUnclaimed(g, before.Keys, ById, plan, acl0);
        OwnedIsUnclaimed(g, before.Keys, ByIdAndOrder, plan, regions0);
        OwnedIsUnclaimed(g, before.Keys, ByOwner, plan, meta0);
      }
      ok := this.ApplyRenames(g, renames);
      if ok {
        this.RetargetNameReferences(g, before, renames);
        RowsFollow(g, before.Keys, ById, plan, acl0, acl);
        RowsFollow(g, before.Keys, ByIdAndOrder, plan, regions0, regions);
        RowsFollow(g, before.Keys, ByOwner, plan, meta0, regionsMeta);
      }
    }

    method ApplyRenames(g: Grammar, renames: seq<Rename>) returns (ok: bool)
      requires IsPlan(g, objects.Keys, renames)
      modifies this
      ensures ok <==> !old(AnyBlocked(renames))
      ensures ok ==> RenamedStore(old(objects), renames, |renames|, objects)
      ensures ok ==> && RenamedRows(old(acl), renames, |renames|, acl)
                     && RenamedRows(old(regions), renames, |renames|, regions)
                     && RenamedRows(old(regionsMeta), renames, |renames|, regionsMeta)
    {
      hide IsPlan, RenamedStore, RenamedRows, Collides;
      ghost var before, acl0, regions0, meta0 := objects, acl, regions, regionsMeta;
      NoRenames(before, renames);
      NoRowsMoved(acl0, renames);
      NoRowsMoved(regions0, renames);
      NoRowsMoved(meta0, renames);
      for i := 0 to |renames|
        invariant RenamedStore(before, renames, i, objects)
        invariant RenamedRows(acl0, renames, i, acl) && !Blocked(ById, renames, i, acl0)
        invariant RenamedRows(regions0, renames, i, regions) && !Blocked(ByIdAndOrder, renames, i, regions0)
        invariant RenamedRows(meta0, renames, i, regionsMeta) && !Blocked(ByOwner, renames, i, meta0)
      {
        ok := this.ApplyRename(g, before, acl0, regions0, meta0, renames, i);
        if !ok {
          return;
        }
      }
      ok := true;
    }

    /** One object's name, and for a relay the rows kept under it, table by
        table. */
    method ApplyRename(g: Grammar, ghost before: map<Key, Obj>, ghost acl0: Rows, ghost regions0: Rows,
                       ghost meta0: Rows, renames: seq<Rename>, i: nat) returns (ok: bool)
      requires IsPlan(g, before.Keys, renames) && i < |renames| && RenamedStore(before, renames, i, objects)
      requires RenamedRows(acl0, renames, i, acl) && RenamedRows(regions0, renames, i, regions)
               && RenamedRows(meta0, renames, i, regionsMeta)
      modifies this
      ensures ok <==> renames[i].kind == Relay ==>
                && !Collides(ById, acl0, renames[i].from, renames[i].to)
                && !Collides(ByIdAndOrder, regions0, renames[i].from, renames[i].to)
                && !Collides(ByOwner, meta0, renames[i].from, renames[i].to)
      ensures ok ==> && RenamedStore(before, renames, i + 1, objects) && RenamedRows(acl0, renames, i + 1, acl)
                     && RenamedRows(regions0, renames, i + 1, regions)
                     && RenamedRows(meta0, renames, i + 1, regionsMeta)
    {
      hide *;
      RenameIsFree(g, before, renames, i, objects);
      RowsNext(g, before.Keys, ById, renames, i, acl0, acl);
      RowsNext(g, before.Keys, ByIdAndOrder, renames, i, regions0, regions);
      RowsNext(g, before.Keys, ByOwner, renames, i, meta0, regionsMeta);
      ghost var now := objects;
      ok := this.UpdateName(renames[i].kind, renames[i].from, renames[i].to);
      if !ok {
        assert false;
        return;
      }
      RenameStep(g, before, renames, i, now, objects);
      if renames[i].kind == Relay {
        CollidesAsBefore(g, before.Keys, ById, renames, i, acl0, acl);
        CollidesAsBefore(g, before.Keys, ByIdAndOrder, renames, i, regions0, regions);
        CollidesAsBefore(g, before.Keys, ByOwner, renames, i, meta0, regionsMeta);
        ok, acl := UpdateOwner(ById, acl, renames[i].from, renames[i].to);
        if !ok {
          return;
        }
        ok, regions := UpdateOwner(ByIdAndOrder, regions, renames[i].from, renames[i].to);
        if !ok {
          return;
        }
        ok, regionsMeta := UpdateOwner(ByOwner, regionsMeta, renames[i].from, renames[i].to);
      }
    }

    method RetargetNameReferences(g: Grammar, ghost before: map<Key, Obj>, renames: seq<Rename>)
      requires IsPlan(g, before.Keys, renames) && RenamedStore(before, renames, |renames|, objects)
      modifies this`objects
      ensures HealedStore(before, renames, objects)
    {
      assert renames[..|renames|] == renames;
      ghost var start := objects;
      this.RepointAttr(Relay, "radio", Moved(renames, Radio));
      this.RepointAttr(Mqtt, "relay", Moved(renames, Relay));
      forall key | key in before
        ensures NewKey(renames, key) in objects
                && objects[NewKey(renames, key)] == HealedObj(renames, key.0, before[key])
      {
        assert start[NewKey(renames, key)] == before[key];
      }
    }

    /** Rewrites one attribute of one kind wherever it names something moved. */
    method RepointAttr(kind: Kind, attr: string, moved: map<string, string>)
      requires attr != OVERRIDES
      modifies this`objects
      ensures objects.Keys == old(objects).Keys
      ensures forall key :: key in objects ==>
                objects[key] == if key.0 == kind then RepointedObj(old(objects)[key], attr, moved)
                                else old(objects)[key]
    {
      var rest := set key | key in objects && key.0 == kind;
      while rest != {}
        invariant objects.Keys == old(objects).Keys
        invariant forall key :: key in rest ==> key in objects && key.0 == kind
        invariant forall key :: key in objects ==>
                    objects[key] == if key.0 == kind && key !in rest then RepointedObj(old(objects)[key], attr, moved)
                                    else old(objects)[key]
      {
        var key :| key in rest;
        rest := rest - {key};
        if objects[key].Some? {
          var obj, touched := RepointIn(objects[key].value, attr, moved);
          if touched {
            objects := objects[key := Some(obj)];
          }
        }
      }
    }
  }

  /** One attribute in an object's own map and in each of its override scopes. */
  method RepointIn(obj: Attrs, attr: string, moved: map<string, string>) returns (next: Attrs, touched: bool)
    requires attr != OVERRIDES
    ensures next == Repointed(obj, attr, moved)
    ensures !touched ==> next == obj
  {
    next, touched := Retarget(obj, attr, moved);
    if OVERRIDES !in next || !next[OVERRIDES].Object? {
      return;
    }
    var scopes := next[OVERRIDES].fields;
    ghost var all := scopes;
    var rest := scopes.Keys;
    while rest != {}
      invariant scopes.Keys == all.Keys && rest <= all.Keys
      invariant forall s :: s in all ==> scopes[s] == if s in rest then all[s] else RetargetedScope(all[s], attr, moved)
      invariant !touched ==> scopes == all && Retargeted(obj, attr, moved) == obj
    {
      var s :| s in rest;
      rest := rest - {s};
      if scopes[s].Object? {
        var scope, moving := Retarget(scopes[s].fields, attr, moved);
        if moving {
          scopes := scopes[s := Object(scope)];
          touched := true;
        }
      }
    }
    assert scopes == map s | s in all :: RetargetedScope(all[s], attr, moved);
    next := next[OVERRIDES := Object(scopes)];
    if !touched {
      assert next == obj;
    }
  }

  method Retarget(kv: Attrs, attr: string, moved: map<string, string>) returns (next: Attrs, moving: bool)
    ensures next == Retargeted(kv, attr, moved)
    ensures !moving ==> next == kv
  {
    if attr !in kv || !kv[attr].Text? {
      return kv, false;
    }
    if kv[attr].s !in moved {
      return kv, false;
    }
    return kv[attr := Text(moved[kv[attr].s])], true;
  }

  /** The rows the query answers: each named collection's object once. */
  ghost predicate Listing(keys: set<Key>, rows: seq<Key>) {
    && (forall i :: 0 <= i < |rows| ==> rows[i] in keys && rows[i].0.Collection())
    && (forall key :: key in keys && key.0.Collection() ==> key in rows)
    && (forall i, j :: 0 <= i < j < |rows| ==> rows[i] != rows[j])
  }

  /** The first candidate nobody has. Each one taken is one fewer left to meet,
      so the search ends. */
  method FreeName(taken: set<Key>, kind: Kind, base: string) returns (n: nat, to: string)
    ensures n >= 1 && to == Candidate(base, n) && (kind, to) !in taken
    ensures forall k :: 1 <= k < n ==> (kind, Candidate(base, k)) in taken
  {
    n, to := 1, base;
    ghost var unmet := taken;
    while (kind, to) in taken
      invariant 1 <= n && to == Candidate(base, n)
      invariant forall k :: 1 <= k < n ==> (kind, Candidate(base, k)) in taken
      invariant unmet <= taken
      invariant forall k :: n <= k && (kind, Candidate(base, k)) in taken ==> (kind, Candidate(base, k)) in unmet
      decreases unmet
    {
      forall k | n < k ensures Candidate(base, k) != to {
        CandidatesDiffer(base, n, k);
      }
      unmet := unmet - {(kind, to)};
      n := n + 1;
      to := base + "-" + Decimal(n);
    }
  }

  /** The loose names of a listing, in its order. */
  function LooseOf(g: Grammar, rows: seq<Key>): seq<Key> {
    if rows == [] then []
    else LooseOf(g, rows[..|rows| - 1]) + if g.ValidName(rows[|rows| - 1].1) then [] else [rows[|rows| - 1]]
  }

  /** What a listing decides, name by name in its order: the first candidate that
      neither a name that stands nor an earlier rename has. */
  ghost predicate FirstCome(g: Grammar, rows: seq<Key>, plan: seq<Rename>) {
    && |plan| == |LooseOf(g, rows)| && EachFirst(g, rows, plan)
    && forall i :: 0 <= i < |plan| ==> (plan[i].kind, plan[i].from) == LooseOf(g, rows)[i]
  }

  ghost predicate EachFirst(g: Grammar, rows: seq<Key>, plan: seq<Rename>) {
    forall i :: 0 <= i < |plan| ==> TakesFirst(g, rows, plan[..i], plan[i])
  }

  ghost predicate TakesFirst(g: Grammar, rows: seq<Key>, earlier: seq<Rename>, r: Rename) {
    exists n: nat :: n >= 1 && IsFirst(g, rows, earlier, r, n)
  }

  ghost predicate IsFirst(g: Grammar, rows: seq<Key>, earlier: seq<Rename>, r: Rename, n: nat) {
    && r.to == Candidate(g.CanonicalName(r.from), n)
    && !HasName(g, rows, earlier, r.kind, r.to)
    && forall k :: 1 <= k < n ==> HasName(g, rows, earlier, r.kind, Candidate(g.CanonicalName(r.from), k))
  }

  ghost predicate HasName(g: Grammar, rows: seq<Key>, earlier: seq<Rename>, kind: Kind, name: string) {
    || ((kind, name) in rows && g.ValidName(name))
    || exists j :: 0 <= j < |earlier| && earlier[j].kind == kind && earlier[j].to == name
  }

  /** What was decided for one loose name. */
  ghost predicate Chosen(g: Grammar, valid: set<Key>, key: Key, r: Rename) {
    && (r.kind, r.from) == key
    && g.ValidName(r.to)
    && (exists n: nat :: r.to == Candidate(g.CanonicalName(r.from), n))
    && (r.kind, r.to) !in valid
  }

  /** The first reading of the rows: names that stand, and names to heal. */
  method CollectNames(g: Grammar, rows: seq<Key>) returns (taken: set<Key>, loose: seq<Key>)
    requires forall i, j :: 0 <= i < j < |rows| ==> rows[i] != rows[j]
    ensures forall key :: key in taken <==> key in rows && g.ValidName(key.1)
    ensures forall key :: key in loose <==> key in rows && !g.ValidName(key.1)
    ensures forall a, b :: 0 <= a < b < |loose| ==> loose[a] != loose[b]
    ensures loose == LooseOf(g, rows)
  {
    taken, loose := {}, [];
    for i := 0 to |rows|
      invariant forall key :: key in taken <==> key in rows[..i] && g.ValidName(key.1)
      invariant forall key :: key in loose <==> key in rows[..i] && !g.ValidName(key.1)
      invariant forall a, b :: 0 <= a < b < |loose| ==> loose[a] != loose[b]
      invariant loose == LooseOf(g, rows[..i])
    {
      assert rows[i] !in rows[..i];
      assert rows[..i + 1][..i] == rows[..i];
      assert rows[..i + 1] == rows[..i] + [rows[i]];
      if g.ValidName(rows[i].1) {
        taken := taken + {rows[i]};
      } else {
        loose := loose + [rows[i]];
      }
    }
    assert rows[..|rows|] == rows;
  }

  lemma NamesTaken(g: Grammar, rows: seq<Key>, plan: seq<Rename>, r: Rename)
    ensures forall kind, name :: HasName(g, rows, plan + [r], kind, name) <==>
              HasName(g, rows, plan, kind, name) || (kind, name) == (r.kind, r.to)
  {
    hide Grammar.ValidName;
    var more := plan + [r];
    assert more[|plan|] == r;
    forall kind, name
      ensures HasName(g, rows, more, kind, name) <==>
                HasName(g, rows, plan, kind, name) || (kind, name) == (r.kind, r.to)
    {
      if j :| 0 <= j < |plan| && plan[j].kind == kind && plan[j].to == name {
        assert more[j] == plan[j];
      }
    }
  }

  lemma NamesAtFirst(g: Grammar, rows: seq<Key>, taken: set<Key>)
    requires forall key :: key in taken <==> key in rows && g.ValidName(key.1)
    ensures forall kind, name :: (kind, name) in taken <==> HasName(g, rows, [], kind, name)
    ensures EachFirst(g, rows, [])
  {
    hide Grammar.ValidName;
  }

  lemma EachFirstNext(g: Grammar, rows: seq<Key>, plan: seq<Rename>, r: Rename)
    requires EachFirst(g, rows, plan) && TakesFirst(g, rows, plan, r)
    ensures EachFirst(g, rows, plan + [r])
  {
    hide TakesFirst;
    var more := plan + [r];
    assert more[..|plan|] == plan;
    forall k | 0 <= k < |plan| ensures more[..k] == plan[..k] && more[k] == plan[k] {
    }
  }

  lemma PlanFromLoose(g: Grammar, keys: set<Key>, rows: seq<Key>, valid: set<Key>, loose: seq<Key>, plan: seq<Rename>)
    requires Listing(keys, rows) && |plan| == |loose|
    requires forall key :: key in valid <==> key in rows && g.ValidName(key.1)
    requires forall key :: key in loose <==> key in rows && !g.ValidName(key.1)
    requires forall a, b :: 0 <= a < b < |loose| ==> loose[a] != loose[b]
    requires forall k :: 0 <= k < |plan| ==> Chosen(g, valid, loose[k], plan[k])
    requires forall a, b :: 0 <= a < b < |plan| && plan[a].kind == plan[b].kind ==> plan[a].to != plan[b].to
    ensures IsPlan(g, keys, plan)
  {
    assert forall key :: key in keys && key.0.Collection() && g.ValidName(key.1) ==> key in valid;
    forall i | 0 <= i < |plan|
      ensures (plan[i].kind, plan[i].from) in keys && Loose(g, (plan[i].kind, plan[i].from))
      ensures (plan[i].kind, plan[i].to) !in keys
    {
      assert loose[i] in loose;
    }
    forall key | key in keys && Loose(g, key)
      ensures exists i :: 0 <= i < |plan| && (plan[i].kind, plan[i].from) == key
    {
      assert key in loose;
      var i :| 0 <= i < |loose| && loose[i] == key;
      assert (plan[i].kind, plan[i].from) == key;
    }
    forall i, j | 0 <= i < j < |plan| && plan[i].kind == plan[j].kind
      ensures plan[i].from != plan[j].from
    {
      assert loose[i] != loose[j];
    }
  }

  lemma NoRenames(before: map<Key, Obj>, plan: seq<Rename>)
    ensures RenamedStore(before, plan, 0, before)
  {
    assert plan[..0] == [];
    forall key | key in before ensures NewKey(plan[..0], key) == key {
    }
    assert before.Keys == set key | key in before :: NewKey(plan[..0], key);
  }

  /** At every intermediate store the next rename finds its object under the old
      name and the new name free. */
  lemma RenameIsFree(g: Grammar, before: map<Key, Obj>, plan: seq<Rename>, n: nat, now: map<Key, Obj>)
    requires IsPlan(g, before.Keys, plan) && n < |plan| && RenamedStore(before, plan, n, now)
    ensures (plan[n].kind, plan[n].from) in now && (plan[n].kind, plan[n].to) !in now
    ensures plan[n].from != plan[n].to
  {
    hide NewKey;
    var from, to := (plan[n].kind, plan[n].from), (plan[n].kind, plan[n].to);
    NewKeyStep(g, before.Keys, plan, n, from);
    if to in now {
      var key :| key in before && NewKey(plan[..n], key) == to;
      var i := RenameOf(plan, n, key);
      assert false;
    }
  }

  lemma RenameStep(g: Grammar, before: map<Key, Obj>, plan: seq<Rename>, n: nat, now: map<Key, Obj>,
                   next: map<Key, Obj>)
    requires IsPlan(g, before.Keys, plan) && n < |plan| && RenamedStore(before, plan, n, now)
    requires (plan[n].kind, plan[n].from) in now
    requires next == WithName(now, (plan[n].kind, plan[n].from), (plan[n].kind, plan[n].to))
    ensures RenamedStore(before, plan, n + 1, next)
  {
    hide NewKey, IsPlan;
    var from, to := (plan[n].kind, plan[n].from), (plan[n].kind, plan[n].to);
    forall key | key in before
      ensures NewKey(plan[..n + 1], key) == if key == from then to else NewKey(plan[..n], key)
      ensures key != from ==> NewKey(plan[..n], key) != from
      ensures key == from ==> NewKey(plan[..n], key) == from
    {
      NewKeyStep(g, before.Keys, plan, n, key);
      OldNameStands(g, before.Keys, plan, n, key);
    }
    RenameIsFree(g, before, plan, n, now);
    assert from in before by {
      PlanNames(g, before.Keys, plan, n);
    }
    forall k ensures k in next <==> k in (set key | key in before :: NewKey(plan[..n + 1], key)) {
      if k in next && k != to {
        var key :| key in before && NewKey(plan[..n], key) == k;
        assert NewKey(plan[..n + 1], key) == k;
      } else if k == to {
        assert NewKey(plan[..n + 1], from) == to;
      }
    }
  }

  lemma PlanNames(g: Grammar, keys: set<Key>, plan: seq<Rename>, n: nat)
    requires IsPlan(g, keys, plan) && n < |plan|
    ensures (plan[n].kind, plan[n].from) in keys
  {
  }

  /** Until its turn comes, an object keeps its name, and nobody else has it. */
  lemma OldNameStands(g: Grammar, keys: set<Key>, plan: seq<Rename>, n: nat, key: Key)
    requires IsPlan(g, keys, plan) && n < |plan| && key in keys
    ensures var from := (plan[n].kind, plan[n].from); key != from ==> NewKey(plan[..n], key) != from
  {
    var from := (plan[n].kind, plan[n].from);
    NewKeyStep(g, keys, plan, n, from);
    if NewKey(plan[..n], key) == from {
      NewKeyInjective(g, keys, plan, n, key, from);
    }
  }

  // ----- what the healed store promises -----

  lemma Whole(plan: seq<Rename>)
    ensures plan[..|plan|] == plan
  {
  }

  /** Every object is still there, under one name each, and every collection's
      name is one the grammar admits. */
  lemma NamesHealed(g: Grammar, before: map<Key, Obj>, plan: seq<Rename>, after: map<Key, Obj>)
    requires IsPlan(g, before.Keys, plan) && HealedStore(before, plan, after)
    ensures forall a, b :: a in before && b in before && NewKey(plan, a) == NewKey(plan, b) ==> a == b
    ensures forall key :: key in after && key.0.Collection() ==> g.ValidName(key.1)
    ensures forall key :: key in before && !Loose(g, key) ==> NewKey(plan, key) == key
  {
    hide NewKey;
    Whole(plan);
    forall a, b | a in before && b in before && NewKey(plan, a) == NewKey(plan, b) ensures a == b {
      NewKeyInjective(g, before.Keys, plan, |plan|, a, b);
    }
    forall key | key in before
      ensures NewKey(plan, key).0 == key.0
      ensures key.0.Collection() ==> g.ValidName(NewKey(plan, key).1)
      ensures !Loose(g, key) ==> NewKey(plan, key) == key
    {
      if Loose(g, key) {
        var j :| 0 <= j < |plan| && (plan[j].kind, plan[j].from) == key;
        StillRenamed(g, before.Keys, plan, j, key);
      } else {
        var i := RenameOf(plan, |plan|, key);
      }
    }
  }

  /** A loose name does not survive the plan. */
  lemma StillRenamed(g: Grammar, keys: set<Key>, plan: seq<Rename>, j: nat, key: Key)
    requires IsPlan(g, keys, plan) && j < |plan| && key in keys && (plan[j].kind, plan[j].from) == key
    ensures NewKey(plan, key) == (plan[j].kind, plan[j].to)
  {
    var i := RenameOf(plan, |plan|, key);
    assert plan[..|plan|] == plan;
  }

  /** The healed relay or observer names, at its own level and in every override
      scope, the very object it named before. */
  lemma ReferencesFollow(g: Grammar, before: map<Key, Obj>, plan: seq<Rename>, after: map<Key, Obj>, key: Key,
                         place: Place)
    requires IsPlan(g, before.Keys, plan) && HealedStore(before, plan, after)
    requires key in before && before[key].Some? && RefAttr(key.0).Some?
    ensures var (attr, target) := RefAttr(key.0).value;
            var was := RefAt(before[key].value, attr, place);
            var holder := NewKey(plan, key);
            && holder in after && after[holder].Some?
            && RefAt(after[holder].value, attr, place)
               == (match was case None => None case Some(t) => Some(NewName(plan, target, t)))
            && (was.Some? && (target, was.value) in before ==>
                  var now := (target, NewName(plan, target, was.value));
                  now in after && after[now] == HealedObj(plan, target, before[(target, was.value)]))
  {
    var (attr, target) := RefAttr(key.0).value;
    RepointedRefs(before[key].value, attr, Moved(plan, target), place);
    var was := RefAt(before[key].value, attr, place);
    if was.Some? && (target, was.value) in before {
      assert NewKey(plan, (target, was.value)) == (target, NewName(plan, target, was.value));
    }
  }

  // ----- the same, on the attributes themselves -----

  /** One map in which the attribute follows its target, and nothing else moves. */
  ghost predicate FollowsIn(plan: seq<Rename>, target: Kind, attr: string, was: Attrs, now: Attrs) {
    && now.Keys == was.Keys
    && (forall a :: a in was && a != attr && a != "overrides" ==> now[a] == was[a])
    && (attr in was ==> now[attr] == if was[attr].Text? then Text(NewKey(plan, (target, was[attr].s)).1) else was[attr])
  }

  /** And an object: its own map, and every override scope it keeps. */
  ghost predicate Follows(plan: seq<Rename>, target: Kind, attr: string, was: Attrs, now: Attrs) {
    && FollowsIn(plan, target, attr, was, now)
    && ("overrides" in was ==>
          if was["overrides"].Object? then
            var (scopes, then') := (was["overrides"].fields, now["overrides"]);
            && then'.Object? && then'.fields.Keys == scopes.Keys
            && forall s :: s in scopes ==>
                 if scopes[s].Object? then
                   && then'.fields[s].Object?
                   && FollowsScope(plan, target, attr, scopes[s].fields, then'.fields[s].fields)
                 else then'.fields[s] == scopes[s]
          else now["overrides"] == was["overrides"])
  }

  /** A scope has no scopes of its own: there everything but the attribute stays. */
  ghost predicate FollowsScope(plan: seq<Rename>, target: Kind, attr: string, was: Attrs, now: Attrs) {
    FollowsIn(plan, target, attr, was, now) && ("overrides" in was ==> now["overrides"] == was["overrides"])
  }

  lemma RetargetedFollows(plan: seq<Rename>, target: Kind, attr: string, was: Attrs)
    requires attr != "overrides"
    ensures FollowsScope(plan, target, attr, was, Retargeted(was, attr, Moved(plan, target)))
  {
    hide Moved;
  }

  lemma RepointedScopes(was: Attrs, attr: string, moved: map<string, string>)
    requires attr != "overrides" && "overrides" in was
    ensures var now := Repointed(was, attr, moved);
            && "overrides" in now
            && now["overrides"] == if was["overrides"].Object? then
                                     var scopes := was["overrides"].fields;
                                     Object(map s | s in scopes :: RetargetedScope(scopes[s], attr, moved))
                                   else was["overrides"]
  {
  }

  lemma RepointedFollows(plan: seq<Rename>, target: Kind, attr: string, was: Attrs)
    requires attr != "overrides"
    ensures Follows(plan, target, attr, was, Repointed(was, attr, Moved(plan, target)))
  {
    hide Retargeted, Repointed, FollowsIn, NewKey, Moved;
    var moved := Moved(plan, target);
    RepointedOwn(plan, target, attr, was);
    if "overrides" in was {
      RepointedScopes(was, attr, moved);
      if was["overrides"].Object? {
        var scopes := was["overrides"].fields;
        forall s | s in scopes && scopes[s].Object?
          ensures FollowsScope(plan, target, attr, scopes[s].fields, Retargeted(scopes[s].fields, attr, moved))
        {
          RetargetedFollows(plan, target, attr, scopes[s].fields);
        }
      }
    }
  }

  lemma RepointedOwn(plan: seq<Rename>, target: Kind, attr: string, was: Attrs)
    requires attr != "overrides"
    ensures FollowsIn(plan, target, attr, was, Repointed(was, attr, Moved(plan, target)))
  {
    hide Moved;
  }

  /** After the healing every relay's "radio" and every observer's "relay" names,
      at its own level and in every override scope, the object it named before,
      under that object's name now; nothing else of them has changed, and no
      other object has changed at all. Objects whose text does not parse are left
      alone. */
  lemma HealedExactly(g: Grammar, before: map<Key, Obj>, plan: seq<Rename>, after: map<Key, Obj>, key: Key)
    requires IsPlan(g, before.Keys, plan) && HealedStore(before, plan, after) && key in before
    ensures NewKey(plan, key) in after
    ensures var (was, now) := (before[key], after[NewKey(plan, key)]);
            match key.0
            case Relay => (was.None? && now.None?)
                          || (was.Some? && now.Some? && Follows(plan, Radio, "radio", was.value, now.value))
            case Mqtt => (was.None? && now.None?)
                         || (was.Some? && now.Some? && Follows(plan, Relay, "relay", was.value, now.value))
            case _ => now == was
  {
    hide Repointed, Follows, NewKey;
    if before[key].Some? {
      RepointedFollows(plan, Radio, "radio", before[key].value);
      RepointedFollows(plan, Relay, "relay", before[key].value);
    }
  }

  /** A name that named nobody is left as it was, and it still names nobody
      exactly when the plan gives it to no object of that kind. */
  lemma DanglingReference(g: Grammar, before: map<Key, Obj>, plan: seq<Rename>, after: map<Key, Obj>, target: Kind,
                          t: string)
    requires IsPlan(g, before.Keys, plan) && HealedStore(before, plan, after)
    requires (target, t) !in before
    ensures NewName(plan, target, t) == t
    ensures (target, t) in after <==> exists i :: 0 <= i < |plan| && plan[i].kind == target && plan[i].to == t
  {
    hide Moved, NewName;
    Whole(plan);
    var none := RenameOf(plan, |plan|, (target, t));
    if (target, t) in after {
      var key :| key in before && NewKey(plan, key) == (target, t);
      var i := RenameOf(plan, |plan|, key);
      assert i >= 0;
    }
    if i :| 0 <= i < |plan| && plan[i].kind == target && plan[i].to == t {
      var key := (plan[i].kind, plan[i].from);
      assert key in before.Keys;
      StillRenamed(g, before.Keys, plan, i, key);
    }
  }
}
