/** The client table itself, the objects in it, and the store behind it
    (internal/meshcorehost/table.go and login.go, internal/confdb/acl.go). */
module AccessTables {
  import opened Common
  import opened RateLimit
  import opened AccessList
  import opened Ordering

  class Client {
    const pubKey: Key
    var secret: seq<Byte>
    var perms: bv8
    var out: Option<Route>
    var lastTimestamp: nat
    var lastActive: int
    var asks: Budget
    var active: bool
    var closed: bool
    var granted: bool

    function Value(): Session
      reads this
    {
      Session(pubKey, secret, perms, out, lastTimestamp, lastActive, asks, active, closed, granted)
    }

    lemma ValueKey()
      ensures Value().pubKey == pubKey
    {
    }

    /** A copy is an object of its own. */
    constructor (s: Session)
      ensures Value() == s
    {
      pubKey, secret, perms, out := s.pubKey, s.secret, s.perms, s.out;
      lastTimestamp, lastActive, asks := s.lastTimestamp, s.lastActive, s.asks;
      active, closed, granted := s.active, s.closed, s.granted;
    }
  }

  /** The durable rows of one node. Any call may refuse, and a refusal leaves the
      rows as they were; `states` are all the rows the disk has ever held, and
      `refusals` counts the calls that were refused. */
  class Store {
    var rows: Rows
    ghost var states: seq<Rows>
    ghost var refusals: nat

    ghost predicate Valid()
      reads this
    {
      forall k :: k in rows ==> rows[k].pubKey == k
    }

    method SaveSession(row: Row) returns (ok: bool)
      requires Valid()
      modifies this
      ensures Valid()
      ensures ok ==> rows == old(rows)[row.pubKey := row] && states == old(states) + [rows]
      ensures !ok ==> rows == old(rows) && states == old(states)
      ensures refusals == old(refusals) + if ok then 0 else 1
    {
      ok := *;
      if ok {
        rows := rows[row.pubKey := row];
        states := states + [rows];
      } else {
        refusals := refusals + 1;
      }
    }

    method ForgetSession(k: Key) returns (ok: bool)
      requires Valid()
      modifies this
      ensures Valid()
      ensures ok ==> rows == old(rows) - {k} && states == old(states) + [rows]
      ensures !ok ==> rows == old(rows) && states == old(states)
      ensures refusals == old(refusals) + if ok then 0 else 1
    {
      ok := *;
      if ok {
        rows := rows - {k};
        states := states + [rows];
      } else {
        refusals := refusals + 1;
      }
    }

    /** Victim out and newcomer in, in one transaction: what the disk holds
        changes at the commit or not at all. */
    method ReplaceSession(victim: Key, newcomer: Option<Row>) returns (ok: bool)
      requires Valid()
      modifies this
      ensures Valid()
      ensures ok ==> rows == (if newcomer.Some? then (old(rows) - {victim})[newcomer.value.pubKey := newcomer.value]
                              else old(rows) - {victim})
                     && states == old(states) + [rows]
      ensures !ok ==> rows == old(rows) && states == old(states)
      ensures refusals == old(refusals) + if ok then 0 else 1
    {
      ok := *;
      if !ok {
        refusals := refusals + 1;
        return;
      }
      var pending := rows - {victim};
      if newcomer.Some? {
        ok := *;
        if !ok {
          refusals := refusals + 1;
          return;
        }
        pending := pending[newcomer.value.pubKey := newcomer.value];
      }
      ok := *;
      if !ok {
        refusals := refusals + 1;
        return;
      }
      rows := pending;
      states := states + [rows];
    }

    /** Every row once, the newest text first and then by key; None when the store
        cannot be read. */
    method LoadSessions() returns (order: Option<seq<Row>>)
      requires Valid()
      modifies this`refusals
      ensures refusals == old(refusals) + if order.Some? then 0 else 1
      ensures order.Some? ==> Enumerates(order.value, rows) && Listed(order.value)
    {
      hide SortsBefore, Listed;
      var readable: bool := *;
      if !readable {
        refusals := refusals + 1;
        return None;
      }
      var out: seq<Row> := [];
      NothingListed();
      var rest := rows.Keys;
      while rest != {}
        invariant refusals == old(refusals) && rest <= rows.Keys && Listed(out)
        invariant forall row :: row in out <==> row.pubKey in rows && row.pubKey !in rest && rows[row.pubKey] == row
        invariant forall i, j :: 0 <= i < j < |out| ==> out[i].pubKey != out[j].pubKey
      {
        var k :| k in rest;
        var at := 0;
        while at < |out| && SortsBefore(out[at], rows[k])
          invariant at <= |out| && (at > 0 ==> SortsBefore(out[at - 1], rows[k]))
        {
          at := at + 1;
        }
        forall i | 0 <= i < |out| ensures out[i].pubKey != k {
          assert out[i] in out;
        }
        RowListed(out, rows[k], at);
        MembersOfInserted(out, rows[k], at);
        DistinctInserted(out, rows[k], at);
        out, rest := out[..at] + [rows[k]] + out[at..], rest - {k};
      }
      forall k | k in rows ensures IsIn(out, k) {
        assert rows[k] in out;
      }
      forall i | 0 <= i < |out| ensures out[i].pubKey in rows && rows[out[i].pubKey] == out[i] {
        assert out[i] in out;
      }
      return Some(out);
    }
  }

  lemma NothingListed()
    ensures Listed([])
  {
  }

  lemma DistinctInserted(order: seq<Row>, row: Row, at: nat)
    requires at <= |order| && forall i :: 0 <= i < |order| ==> order[i].pubKey != row.pubKey
    requires forall i, j :: 0 <= i < j < |order| ==> order[i].pubKey != order[j].pubKey
    ensures var more := order[..at] + [row] + order[at..];
            forall i, j :: 0 <= i < j < |more| ==> more[i].pubKey != more[j].pubKey
  {
    var more := order[..at] + [row] + order[at..];
    forall i, j | 0 <= i < j < |more| ensures more[i].pubKey != more[j].pubKey {
      assert more[i] == if i < at then order[i] else if i == at then row else order[i - 1];
      assert more[j] == if j < at then order[j] else if j == at then row else order[j - 1];
    }
  }

  /** A frame of k at ts is no replay to a session that is seated and open. */
  ghost predicate Answers(live: Live, k: Key, ts: nat) {
    k in live && !live[k].closed && ts >= live[k].lastTimestamp
  }

  ghost predicate Affords(s: Session, now: int) {
    Consume(s.asks, now).1
  }

  datatype PutResult = Seated(victim: Option<Key>) | SessionsFull | StoreRefused

  datatype GrantResult =
    | GrantedTo(client: Session)
    | RemovedEntry(k: Key)
    | NoSuchEntry
    | NotPersisted
    | NoSecret
    | Full

  /** The policy's `durable` says whether there is a store behind the table; when
      there is none, `store` is never touched. */
  class Table {
    const policy: Policy
    const store: Store
    var seated: map<Key, Client>

    /** Each entry is an object of its own, under its own key. */
    ghost predicate Valid()
      reads this, seated.Values, store
    {
      && store.Valid()
      && (forall k :: k in seated ==> seated[k].pubKey == k)
    }

    ghost function Sessions(): Live
      reads this, seated.Values
    {
      map k | k in seated :: seated[k].Value()
    }

    ghost function Stored(): Rows
      reads store
    {
      store.rows
    }

    ghost function States(): seq<Rows>
      reads store
    {
      store.states
    }

    ghost function Refusals(): nat
      reads store
    {
      store.refusals
    }

    ghost function State(): World
      reads this, seated.Values, store
    {
      World(policy, Sessions(), Stored())
    }

    constructor (policy: Policy, store: Store)
      requires store.Valid()
      ensures Valid() && seated == map[] && this.policy == policy && this.store == store
    {
      this.policy, this.store, seated := policy, store, map[];
    }

    /** Mirrors one access entry; guests stop here. */
    method Save(c: Client) returns (ok: bool)
      requires Valid()
      modifies store
      ensures Valid()
      ensures Stored() == if ok then SavedRows(policy, old(Stored()), c.Value()) else old(Stored())
      ensures States() == old(States()) || (ok && States() == old(States()) + [Stored()])
      ensures !c.Value().HasAccess() || !policy.durable ==> ok && States() == old(States())
      ensures Refusals() == old(Refusals()) + if ok then 0 else 1
    {
      if !policy.durable || !c.Value().HasAccess() {
        return true;
      }
      ok := store.SaveSession(c.Value().Persisted());
    }

    method Forget(k: Key) returns (ok: bool)
      requires Valid()
      modifies store
      ensures Valid()
      ensures Stored() == if ok && policy.durable then old(Stored()) - {k} else old(Stored())
      ensures States() == old(States()) || (ok && States() == old(States()) + [Stored()])
      ensures Refusals() == old(Refusals()) + if ok then 0 else 1
    {
      if !policy.durable {
        return true;
      }
      ok := store.ForgetSession(k);
    }

    /** What the table holds after one seated client changed. */
    twostate lemma OnlyChanged(c: Client)
      requires seated == old(seated) && c.pubKey in seated && seated[c.pubKey] == c
      requires forall k :: k in seated && k != c.pubKey ==> seated[k].Value() == old(seated[k].Value())
      ensures Sessions() == old(Sessions())[c.pubKey := c.Value()]
      ensures c.Value() == old(c.Value()) ==> Sessions() == old(Sessions())
    {
    }

    /** Moves a seated client's replay guard: on disk first, or not at all. */
    method Advance(c: Client, ts: nat, now: int) returns (ok: bool)
      requires Valid() && c.pubKey in seated && seated[c.pubKey] == c
      modifies c, store
      ensures Valid() && seated == old(seated)
      ensures ok ==> State() == Kept(old(State()), old(c.Value()).(lastTimestamp := ts, lastActive := now))
      ensures ok ==> c.Value() == old(c.Value()).(lastTimestamp := ts, lastActive := now)
      ensures ok ==> Stored() == SavedRows(policy, old(Stored()), c.Value())
      ensures !ok ==> State() == old(State()) && c.Value() == old(c.Value())
      ensures States() == old(States()) || (ok && States() == old(States()) + [Stored()])
      ensures Refusals() == old(Refusals()) + if ok then 0 else 1
    {
      hide Kept, SavedRows, Session.HasAccess, Session.Persisted, Store.Valid;
      ghost var before := State();
      var wasTS, wasActive := c.lastTimestamp, c.lastActive;
      c.lastTimestamp, c.lastActive := ts, now;
      ok := this.Save(c);
      if !ok {
        c.lastTimestamp, c.lastActive := wasTS, wasActive;
        OnlyChanged(c);
        return;
      }
      OnlyChanged(c);
      KeptIs(before, c.Value(), State());
    }

    lemma SessionsSize()
      ensures Sessions().Keys == seated.Keys && |Sessions()| == |seated|
    {
      assert Sessions().Keys == seated.Keys;
      assert |Sessions().Keys| == |Sessions()| && |seated.Keys| == |seated|;
    }

    // ----- making room -----

    /** The session that would make room for a newcomer. */
    method Evictable(newcomer: Client) returns (victim: Option<Key>, room: bool)
      requires Valid()
      ensures newcomer.pubKey !in seated && room ==> MakesRoom(policy, Sessions(), newcomer.Value(), victim)
      ensures newcomer.pubKey !in seated ==> (!room <==> NoRoom(policy, Sessions(), newcomer.Value()))
      ensures victim.Some? ==> room && victim.value in seated
    {
      SessionsSize();
      if |seated| < policy.capacity {
        return None, true;
      }
      victim := None;
      var when := ZERO_TIME;
      var rest := seated.Keys;
      while rest != {}
        invariant rest <= seated.Keys
        invariant victim.Some? ==> victim.value in seated && !policy.Spared(newcomer.Value(), Sessions()[victim.value])
        invariant victim.Some? ==> when == Sessions()[victim.value].lastActive
        invariant forall u :: u in seated.Keys - rest && !policy.Spared(newcomer.Value(), Sessions()[u]) ==>
                    victim.Some? && when <= Sessions()[u].lastActive
      {
        var k :| k in rest;
        rest := rest - {k};
        if !policy.Spared(newcomer.Value(), seated[k].Value()) {
          if victim.None? || seated[k].lastActive < when {
            victim, when := Some(k), seated[k].lastActive;
          }
        }
      }
      room := victim.Some?;
    }

    /** The live half of seating a client. */
    method Install(c: Client, victim: Option<Key>)
      requires forall k :: k in seated ==> seated[k].pubKey == k
      modifies this`seated
      ensures Sessions() == SeatedLive(old(Sessions()), c.Value(), victim)
      ensures c.pubKey in seated && seated[c.pubKey] == c
      ensures forall k :: k in seated ==> seated[k].pubKey == k
    {
      if victim.Some? {
        seated := seated - {victim.value};
      }
      seated := seated[c.pubKey := c];
    }

    /** Seats a client, naming whom it unseated. The store moves first, in one
        transaction; a refusal leaves table and store as they were. The newcomer
        is an object of its own, never the one already seated. */
    method PutEvicting(c: Client) returns (r: PutResult)
      requires Valid() && c !in seated.Values
      modifies this`seated, store
      ensures Valid()
      ensures r.Seated? ==> SeatsOver(old(State()), c.Value(), r.victim, State())
      ensures r.Seated? ==> c.pubKey in seated && seated[c.pubKey] == c
      ensures !r.Seated? ==> State() == old(State()) && seated == old(seated)
      ensures r.SessionsFull? <==> NoRoom(policy, old(Sessions()), c.Value())
      ensures States() == old(States()) || (r.Seated? && States() == old(States()) + [Stored()])
      ensures Refusals() == old(Refusals()) + if r.StoreRefused? then 1 else 0
    {
      hide SeatedRows, SeatedLive, SeatsOver, NoRoom, MakesRoom, Session.HasAccess, Session.Persisted, Store.Valid,
           Client.Value;
      var victim: Option<Key> := None;
      var room := true;
      if c.pubKey !in seated {
        victim, room := this.Evictable(c);
      } else {
        c.ValueKey();
        KnownNeedsNoRoom(policy, Sessions(), c.Value());
      }
      if !room {
        r := SessionsFull;
      } else {
        var stored := this.Seat(c, victim);
        r := if stored then Seated(victim) else StoreRefused;
        if stored {
          SeatedOver(old(State()), c.Value(), victim, State());
        }
      }
    }

    /** Store first, then table. */
    method Seat(c: Client, victim: Option<Key>) returns (ok: bool)
      requires Valid() && c !in seated.Values && (victim.Some? ==> victim.value in seated)
      modifies this`seated, store
      ensures Valid()
      ensures ok ==> c.pubKey in seated && seated[c.pubKey] == c
      ensures ok ==> Sessions() == SeatedLive(old(Sessions()), c.Value(), victim)
      ensures ok ==> Stored() == SeatedRows(policy, old(Sessions()), old(Stored()), c.Value(), victim)
      ensures !ok ==> State() == old(State()) && seated == old(seated)
      ensures States() == old(States()) || (ok && States() == old(States()) + [Stored()])
      ensures Refusals() == old(Refusals()) + if ok then 0 else 1
    {
      hide SeatedRows, SeatedLive, Session.HasAccess, Session.Persisted;
      ok := this.Exchange(c, victim);
      if ok {
        this.Install(c, victim);
      } else {
        assert Sessions() == old(Sessions());
      }
    }

    /** The store's half of seating a client. */
    method Exchange(c: Client, victim: Option<Key>) returns (ok: bool)
      requires Valid() && (victim.Some? ==> victim.value in seated)
      modifies store
      ensures Valid()
      ensures Stored() == if ok then SeatedRows(policy, Sessions(), old(Stored()), c.Value(), victim) else old(Stored())
      ensures States() == old(States()) || (ok && States() == old(States()) + [Stored()])
      ensures Refusals() == old(Refusals()) + if ok then 0 else 1
    {
      hide Session.Persisted;
      if victim.Some? && policy.durable && (seated[victim.value].Value().HasAccess() || policy.forgetGuestState) {
        var newcomer := if c.Value().HasAccess() then Some(c.Value().Persisted()) else None;
        SamePubKey(c.Value());
        ok := store.ReplaceSession(victim.value, newcomer);
      } else if c.Value().HasAccess() {
        ok := this.Save(c);
      } else if c.pubKey in seated && seated[c.pubKey].Value().HasAccess() {
        ok := this.Forget(c.pubKey);
      } else {
        ok := true;
      }
    }

    static lemma SamePubKey(s: Session)
      ensures s.Persisted().pubKey == s.pubKey
    {
    }

    /** The lowest key a prefix names. */
    method MatchPrefix(prefix: seq<Byte>) returns (found: Option<Key>)
      ensures found.None? <==> forall k :: k in seated ==> !(prefix <= k)
      ensures found.Some? ==> found.value in seated && prefix <= found.value
      ensures found.Some? ==> forall k :: k in seated && prefix <= k ==> k == found.value || Before(found.value, k)
    {
      found := None;
      var rest := seated.Keys;
      while rest != {}
        invariant rest <= seated.Keys
        invariant found.None? ==> forall k :: k in seated && k !in rest ==> !(prefix <= k)
        invariant found.Some? ==> found.value in seated && prefix <= found.value
        invariant found.Some? ==> forall k :: k in seated && k !in rest && prefix <= k ==>
                  k == found.value || Before(found.value, k)
      {
        var k :| k in rest;
        rest := rest - {k};
        if prefix <= k {
          if found.None? || Before(k, found.value) {
            if found.Some? {
              forall u | u in seated && Before(found.value, u) ensures Before(k, u) {
                BeforeTransitive(k, found.value, u);
              }
            }
            found := Some(k);
          } else {
            BeforeTotal(k, found.value);
          }
        }
      }
    }

    /** Drops one entry; a store that refuses keeps it. */
    method Remove(k: Key) returns (ok: bool)
      requires Valid()
      modifies this`seated, store
      ensures Valid()
      ensures State() == if ok then Dropped(old(State()), k) else old(State())
      ensures States() == old(States()) || (ok && States() == old(States()) + [Stored()])
      ensures Refusals() == old(Refusals()) + if ok then 0 else 1
    {
      ok := this.Forget(k);
      if !ok {
        return;
      }
      seated := seated - {k};
      assert Sessions() == old(Sessions()) - {k};
    }

    /** Ends the conversation under a key: a guest goes, an access entry stays,
        closed and without its route. */
    method CloseSession(k: Key) returns (ok: bool)
      requires Valid()
      modifies this`seated, store
      ensures Valid()
      ensures if ok then Step(old(State()), Closed(k), State()) else State() == old(State())
      ensures k !in old(Sessions()) || !old(Sessions())[k].active ==> !ok
      ensures States() == old(States()) || (ok && States() == old(States()) + [Stored()])
      ensures ok <==> k in old(Sessions()) && old(Sessions())[k].active && Refusals() == old(Refusals())
    {
      hide Step, Kept, SavedRows, Closing, Session.HasAccess, Session.Persisted, Store.Valid;
      if k !in seated || !seated[k].active {
        return false;
      }
      ghost var before := State();
      var c := seated[k];
      if !c.Value().HasAccess() {
        seated := seated - {k};
        assert Sessions() == before.live - {k};
        CloseStep(before, k, State());
        return true;
      }
      ok := this.CloseAccess(k);
      if ok {
        CloseStep(before, k, State());
      }
    }

    method CloseAccess(k: Key) returns (ok: bool)
      requires Valid() && k in seated && seated[k].Value().HasAccess()
      modifies this`seated, store
      ensures Valid()
      ensures State() == if ok then Kept(old(State()), Closing(old(Sessions())[k])) else old(State())
      ensures States() == old(States()) || (ok && States() == old(States()) + [Stored()])
      ensures Refusals() == old(Refusals()) + if ok then 0 else 1
    {
      hide Kept, SavedRows, Session.HasAccess, Session.Persisted, Store.Valid;
      ghost var before := State();
      var candidate := new Client(Closing(seated[k].Value()));
      ok := this.Save(candidate);
      if !ok {
        assert Sessions() == old(Sessions());
        return;
      }
      this.Install(candidate, None);
      KeptIs(before, candidate.Value(), State());
    }

    // ----- time -----

    /** How long until the first session falls due: exactly the first instant at
        which expiring would change anything. */
    method NextExpiry(now: int, idle: int) returns (wait: Option<nat>)
      ensures forall t :: t >= now ==> (AnyDue(Sessions(), t, idle) <==> wait.Some? && now + wait.value <= t)
    {
      wait := None;
      var rest := seated.Keys;
      ghost var first: Option<Key> := None;
      while rest != {}
        invariant rest <= seated.Keys
        invariant first.Some? <==> wait.Some?
        invariant first.Some? ==> first.value in seated && seated[first.value].active
        invariant first.Some? ==> wait.value == Max(0, seated[first.value].lastActive + idle - now)
        invariant forall k :: k in seated && k !in rest && seated[k].active ==>
                    wait.Some? && wait.value <= Max(0, seated[k].lastActive + idle - now)
      {
        var k :| k in rest;
        rest := rest - {k};
        if seated[k].active {
          var candidate := Max(0, seated[k].lastActive + idle - now);
          if wait.None? || candidate < wait.value {
            wait, first := Some(candidate), Some(k);
          }
        }
      }
      forall t | t >= now ensures AnyDue(Sessions(), t, idle) <==> wait.Some? && now + wait.value <= t {
        if wait.Some? && now + wait.value <= t {
          assert Due(Sessions()[first.value], t, idle);
        }
      }
    }

    /** Applies the idle deadline in place. */
    method Expire(now: int, idle: int) returns (changed: bool)
      requires Valid()
      modifies this`seated, seated.Values
      ensures Valid()
      ensures Step(old(State()), Expired(now, idle), State())
      ensures changed <==> AnyDue(old(Sessions()), now, idle)
      ensures !changed ==> State() == old(State())
    {
      hide Step, AnyDue, DueAmong, ExpiredAmong, ExpiredKey, Due, Session.HasAccess, Store.Valid, Client.Value;
      changed := false;
      var rest := seated.Keys;
      ghost var was, before := seated, Sessions();
      ExpiredNone(before, now, idle);
      assert was.Keys - rest == {};
      while rest != {}
        invariant rest <= was.Keys && seated.Values <= was.Values && Valid()
        invariant Sessions() == ExpiredAmong(before, was.Keys - rest, now, idle)
        invariant changed <==> DueAmong(before, was.Keys - rest, now, idle)
        invariant Stored() == old(Stored())
      {
        var k :| k in rest;
        ExpiredNext(before, was.Keys - rest, k, now, idle);
        assert k in Sessions();
        var due := this.ExpireOne(k, now, idle);
        assert was.Keys - (rest - {k}) == was.Keys - rest + {k};
        rest := rest - {k};
        changed := changed || due;
      }
      assert was.Keys - {} == before.Keys;
      ExpiredAll(before, now, idle);
      ExpireStep(old(State()), now, idle);
    }

    static lemma ExpireStep(w: World, now: int, idle: int)
      ensures Step(w, Expired(now, idle), w.(live := ExpiredLive(w.live, now, idle)))
    {
    }

    method ExpireOne(k: Key, now: int, idle: int) returns (due: bool)
      requires Valid() && k in seated
      modifies this`seated, seated[k]
      ensures Valid() && seated.Keys + {k} == old(seated).Keys && seated.Values <= old(seated).Values
      ensures due <==> Due(old(Sessions())[k], now, idle)
      ensures Sessions() == ExpiredKey(old(Sessions()), k, now, idle)
    {
      hide Session.HasAccess, Store.Valid;
      var c := seated[k];
      if !c.active || now < c.lastActive + idle {
        return false;
      }
      if c.Value().HasAccess() {
        SameAccess(c.Value());
        c.active := false;
        OnlyChanged(c);
      } else {
        seated := seated - {k};
        assert Sessions() == old(Sessions()) - {k};
      }
      return true;
    }

    static lemma SameAccess(s: Session)
      ensures s.(active := false).HasAccess() == s.HasAccess()
    {
    }

    // ----- logging in, asking, teaching -----

    /** The judgement of a password attempt, composed on a copy: whatever comes of
        it, the live session is as it was. */
    static method Admit(live: Client?, sender: Key, secret: seq<Byte>, password: string, ts: nat, now: int,
                        doors: string -> Option<bv8>) returns (c: Client?, verdict: Admission)
      ensures verdict ==
              AdmitOf(if live == null then None else Some(live.Value()), sender, secret, password, ts, now, doors)
      ensures c != null <==> verdict.Admitted?
      ensures c != null ==> fresh(c) && c.Value() == verdict.session
    {
      hide Skewed, WithWord;
      if Skewed(ts, now) {
        return null, RefusedSkew;
      }
      c := new Client(if live == null then Stranger(sender, NO_BUDGET) else live.Value());
      if password != "" || live == null {
        var role := doors(password);
        if role.None? {
          return null, RefusedWord;
        }
        TakeWord(c, role.value, secret);
      }
      if ts <= c.lastTimestamp {
        return null, RefusedReplay;
      }
      c.closed := false;
      return c, Admitted(c.Value());
    }

    /** The role a word earned, on a candidate. */
    static method TakeWord(c: Client, role: bv8, secret: seq<Byte>)
      modifies c
      ensures c.Value() == WithWord(old(c.Value()), role, secret)
    {
      hide WithRole;
      c.perms := WithRole(c.perms, role);
      if role == GUEST {
        c.granted := false;
      }
      c.secret := secret;
    }

    /** The login path of an owner: admit, stamp, seat. */
    method Login(k: Key, secret: seq<Byte>, password: string, ts: nat, now: int, flooded: bool) returns (done: bool)
      requires Valid() && policy.secret(k) == Some(secret)
      modifies this`seated, store
      ensures Valid()
      ensures Step(old(State()), if done then LoggedIn(k, password, ts, now, flooded) else Refused, State())
      ensures States() == old(States()) || (done && States() == old(States()) + [Stored()])
      ensures var verdict := AdmitOf(Get(old(Sessions()), k), k, secret, password, ts, now, policy.doors);
              done <==>
                && verdict.Admitted? && Refusals() == old(Refusals())
                && !NoRoom(policy, old(Sessions()), Stamped(verdict.session, ts, now, policy.asks, flooded))
    {
      hide AdmitOf, SeatsOver, Store.Valid, Stamped;
      ghost var before := State();
      var c, verdict := this.Candidate(k, secret, password, ts, now, flooded);
      if c == null {
        return false;
      }
      assert State() == before;
      var r := this.PutEvicting(c);
      done := r.Seated?;
      if done {
        assert SeatsOver(before, Stamped(verdict.session, ts, now, policy.asks, flooded), r.victim, State());
      }
    }

    /** The admitted candidate as its owner stamps it. */
    method Candidate(k: Key, secret: seq<Byte>, password: string, ts: nat, now: int, flooded: bool)
        returns (c: Client?, verdict: Admission)
      requires Valid()
      ensures verdict == AdmitOf(Get(Sessions(), k), k, secret, password, ts, now, policy.doors)
      ensures c != null <==> verdict.Admitted?
      ensures c != null ==> fresh(c) && c.Value() == Stamped(verdict.session, ts, now, policy.asks, flooded)
    {
      hide AdmitOf, Store.Valid;
      var live: Client? := if k in seated then seated[k] else null;
      c, verdict := Admit(live, k, secret, password, ts, now, policy.doors);
      assert Get(Sessions(), k) == if live == null then None else Some(live.Value());
      if c != null {
        c.lastTimestamp, c.lastActive, c.active, c.asks := ts, now, true, policy.asks;
        if flooded {
          c.out := None;
        }
      }
    }

    /** One authenticated request at a relay: past the guard, within the budget
        when its answer would flood, and only once the guard has moved. */
    method Request(k: Key, ts: nat, now: int) returns (served: bool, ghost e: Event)
      requires Valid()
      modifies seated.Values, store
      ensures Valid()
      ensures Step(old(State()), e, State())
      ensures served <==> e == Asked(k, RelayRequest, ts, now)
      ensures !served ==> e == Refused || e == Charged(k, now)
      ensures States() == old(States()) || (served && States() == old(States()) + [Stored()])
      ensures served <==>
                && Answers(old(Sessions()), k, ts) && ts > old(Sessions())[k].lastTimestamp
                && (old(Sessions())[k].out == None ==> Affords(old(Sessions())[k], now))
                && Refusals() == old(Refusals())
    {
      if k !in seated || seated[k].closed || ts <= seated[k].lastTimestamp {
        return false, Refused;
      }
      served, e := this.ChargeAndAdvance(k, RelayRequest, ts, now);
    }

    /** One administration line at a relay. The guard's own timestamp is the client
        asking again: it is acknowledged, and not run. */
    method Command(k: Key, ts: nat, now: int) returns (taken: bool, ran: bool, ghost e: Event)
      requires Valid()
      modifies seated.Values, store
      ensures Valid()
      ensures Step(old(State()), e, State())
      ensures taken <==> e == Asked(k, RelayCommand, ts, now)
      ensures !taken ==> e == Refused || e == Charged(k, now)
      ensures ran <==> Acts(old(State()), e, k, ts)
      ensures States() == old(States()) || (taken && States() == old(States()) + [Stored()])
      ensures taken <==>
                && Answers(old(Sessions()), k, ts) && old(Sessions())[k].IsAdmin()
                && (old(Sessions())[k].out == None ==> Affords(old(Sessions())[k], now))
                && Refusals() == old(Refusals())
      ensures ran <==> taken && ts > old(Sessions())[k].lastTimestamp
    {
      hide Step;
      if k !in seated || seated[k].closed || !seated[k].Value().IsAdmin() || ts < seated[k].lastTimestamp {
        NothingSteps();
        return false, false, Refused;
      }
      var retry := ts == seated[k].lastTimestamp;
      taken, e := this.ChargeAndAdvance(k, RelayCommand, ts, now);
      ran := taken && !retry;
    }

    lemma NothingSteps()
      ensures Step(State(), Refused, State())
    {
    }

    /** The budget, then the guard, then activity: what is common to a relay's
        doors. */
    method ChargeAndAdvance(k: Key, door: Door, ts: nat, now: int) returns (ok: bool, ghost e: Event)
      requires Valid() && k in seated && (door.RelayRequest? || door.RelayCommand?) && door.Takes(seated[k].Value(), ts)
      modifies seated.Values, store
      ensures Valid()
      ensures Step(old(State()), e, State())
      ensures ok <==> e == Asked(k, door, ts, now)
      ensures !ok ==> e == Refused || e == Charged(k, now)
      ensures States() == old(States()) || (ok && States() == old(States()) + [Stored()])
      ensures ok <==>
                && (old(Sessions())[k].out == None ==> Affords(old(Sessions())[k], now))
                && Refusals() == old(Refusals())
    {
      hide Step, Kept, Role, Session.HasAccess, Session.Persisted, Consume, Store.Valid;
      ghost var before := State();
      var c := seated[k];
      NothingSteps();
      e := Refused;
      if c.out.None? {
        var allowed := this.Charge(c, now);
        ChargeStep(before, k, now);
        e := Charged(k, now);
        if !allowed {
          return false, e;
        }
      }
      var charged := c.asks;
      ok := this.AdvanceClient(c, ts, now);
      if ok {
        e := Asked(k, door, ts, now);
        AskStep(before, k, door, ts, now);
        KeptOver(before, before.live[k].(asks := charged), AskedSession(before.live[k], door, ts, now));
      }
    }

    /** One authenticated request at a room: the guard's own timestamp is served
        again, and every request is charged, before the store is touched. */
    method RoomAsk(k: Key, ts: nat, now: int) returns (served: bool, ghost e: Event)
      requires Valid()
      modifies seated.Values, store
      ensures Valid()
      ensures Step(old(State()), e, State())
      ensures served <==> e == Asked(k, RoomRequest, ts, now)
      ensures !served ==> e == Refused || e == Charged(k, now)
      ensures States() == old(States()) || (served && States() == old(States()) + [Stored()])
      ensures served <==>
                Answers(old(Sessions()), k, ts) && Affords(old(Sessions())[k], now) && Refusals() == old(Refusals())
    {
      hide Step, Kept, Role, Session.HasAccess, Session.Persisted, Consume, Store.Valid;
      NothingSteps();
      if k !in seated || seated[k].closed || ts < seated[k].lastTimestamp {
        return false, Refused;
      }
      ghost var before := State();
      var c := seated[k];
      var allowed := this.Charge(c, now);
      ChargeStep(before, k, now);
      e := Charged(k, now);
      if !allowed {
        return false, e;
      }
      var charged := c.asks;
      served := this.RoomAdvance(c, ts, now);
      if served {
        e := Asked(k, RoomRequest, ts, now);
        AskStep(before, k, RoomRequest, ts, now);
        KeptOver(before, before.live[k].(asks := charged), AskedSession(before.live[k], RoomRequest, ts, now));
      }
    }

    /** One text at a room. The guard moves for whoever sent it; a member's post is
        kept unless it is the newest one asked again, or too long, or the history
        refuses it. */
    method Post(persists: bool, kept: map<Key, nat>, k: Key, ts: nat, now: int, plain: bool, tooLong: bool,
                taken: bool)
        returns (posted: bool, kept': map<Key, nat>, ghost e: Event)
      requires Valid()
      modifies seated.Values, store
      ensures Valid()
      ensures RoomStep(persists, old(State()), kept, e, posted, State(), kept')
      ensures e == Refused || e == Asked(k, RoomPost, ts, now)
      ensures posted ==> plain && !tooLong
      ensures States() == old(States()) || (e != Refused && States() == old(States()) + [Stored()])
      ensures e == Asked(k, RoomPost, ts, now) <==> Answers(old(Sessions()), k, ts) && Refusals() == old(Refusals())
      ensures posted <==>
                && e != Refused && plain && !tooLong && taken && old(Sessions())[k].HasAccess()
                && !(ts == old(Sessions())[k].lastTimestamp && KeptAt(kept, k) == ts)
    {
      hide Step, Kept, Role, Session.Persisted, Session.HasAccess, Consume, Store.Valid;
      posted, kept', e := false, kept, Refused;
      NothingSteps();
      if k !in seated || seated[k].closed || ts < seated[k].lastTimestamp {
        return;
      }
      ghost var before := State();
      var c := seated[k];
      var retry := ts == c.lastTimestamp && KeptAt(kept, k) == ts;
      var access := c.Value().HasAccess();
      var moved := this.RoomAdvance(c, ts, now);
      if !moved {
        return;
      }
      e := Asked(k, RoomPost, ts, now);
      AskStep(before, k, RoomPost, ts, now);
      if !plain || !access || retry || tooLong {
        return;
      }
      posted := taken;
      if posted {
        kept' := kept[k := ts];
      }
    }

    static lemma ChargeStep(w: World, k: Key, now: int)
      requires k in w.live
      ensures Step(w, Charged(k, now), w.(live := w.live[k := w.live[k].(asks := Consume(w.live[k].asks, now).0)]))
    {
    }

    static lemma AskStep(w: World, k: Key, door: Door, ts: nat, now: int)
      requires k in w.live && door.Takes(w.live[k], ts) && (door.Charges(w.live[k]) ==> Consume(w.live[k].asks, now).1)
      ensures Step(w, Asked(k, door, ts, now), Kept(w, AskedSession(w.live[k], door, ts, now)))
    {
    }

    /** A room marks activity once the guard has moved. */
    method RoomAdvance(c: Client, ts: nat, now: int) returns (ok: bool)
      requires Valid() && c.pubKey in seated && seated[c.pubKey] == c
      modifies c, store
      ensures Valid()
      ensures ok ==>
                State() == Kept(old(State()), old(c.Value()).(lastTimestamp := ts, lastActive := now, active := true))
      ensures !ok ==> State() == old(State())
      ensures States() == old(States()) || (ok && States() == old(States()) + [Stored()])
      ensures Refusals() == old(Refusals()) + if ok then 0 else 1
    {
      hide Kept, SavedRows, Session.HasAccess, Session.Persisted, Store.Valid;
      ghost var before := State();
      ok := this.Advance(c, ts, now);
      if !ok {
        return;
      }
      ghost var moved := c.Value();
      c.active := true;
      OnlyChanged(c);
      SamePersisted(policy, before.rows, moved, c.Value());
      KeptIs(before, c.Value(), State());
    }

    static lemma SamePersisted(p: Policy, rows: Rows, s: Session, t: Session)
      requires t == s.(active := t.active)
      ensures SavedRows(p, rows, s) == SavedRows(p, rows, t)
    {
    }

    method Charge(c: Client, now: int) returns (allowed: bool)
      requires Valid() && c.pubKey in seated && seated[c.pubKey] == c
      modifies c
      ensures Valid() && Sessions() == old(Sessions())[c.pubKey := old(c.Value()).(asks := Consume(old(c.asks), now).0)]
      ensures allowed == Consume(old(c.asks), now).1
    {
      hide Consume, Store.Valid;
      var (asks, ok) := Consume(c.asks, now);
      c.asks := asks;
      OnlyChanged(c);
      allowed := ok;
    }

    /** Activity follows the guard, and only if the store took it. */
    method AdvanceClient(c: Client, ts: nat, now: int) returns (ok: bool)
      requires Valid() && c.pubKey in seated && seated[c.pubKey] == c
      modifies c, store
      ensures Valid()
      ensures ok ==>
                State() == Kept(old(State()), old(c.Value()).(lastTimestamp := ts, lastActive := now, active := true))
      ensures !ok ==> State() == old(State())
      ensures States() == old(States()) || (ok && States() == old(States()) + [Stored()])
      ensures Refusals() == old(Refusals()) + if ok then 0 else 1
    {
      hide Kept, SavedRows, Session.HasAccess, Session.Persisted, Store.Valid;
      ghost var before := State();
      var wasActive := c.active;
      c.active := true;
      ok := this.Advance(c, ts, now);
      if !ok {
        c.active := wasActive;
      }
      OnlyChanged(c);
      if ok {
        KeptIs(before, c.Value(), State());
      }
    }

    /** A route taught: best effort, the one write whose refusal changes nothing
        but the disk. */
    method Learn(k: Key, route: Route, now: int) returns (learned: bool, saved: bool)
      requires Valid()
      modifies seated.Values, store
      ensures Valid()
      ensures learned <==> k in old(Sessions()) && !old(Sessions())[k].closed
      ensures Step(old(State()), if learned then Learned(k, route, now, saved) else Refused, State())
      ensures States() == old(States()) || (learned && saved && States() == old(States()) + [Stored()])
      ensures saved || !learned || Refusals() > old(Refusals())
    {
      hide Kept, SavedRows, Session.HasAccess, Session.Persisted, Store.Valid;
      if k !in seated || seated[k].closed {
        return false, false;
      }
      ghost var before := State();
      var c := seated[k];
      c.out, c.lastActive, c.active := Some(route), now, true;
      saved := this.Save(c);
      OnlyChanged(c);
      if saved {
        KeptIs(before, c.Value(), State());
      }
      learned := true;
    }

    // ----- granting -----

    /** One permission change: a guest's role removes what the prefix names, any
        other is composed on a copy and installed once it is durable. */
    method Grant(key: Key, prefixLen: nat, perms: bv8, now: int) returns (r: GrantResult)
      requires Valid() && prefixLen <= |key|
      modifies this`seated, store
      ensures Valid()
      ensures r.GrantedTo? ==>
                && Step(old(State()), Granted(key, perms, now), State())
                && key in Sessions() && r.client == Sessions()[key]
      ensures r.RemovedEntry? ==> Role(perms) == GUEST && IsLowest(old(Sessions()), key[..prefixLen], r.k)
                                  && Step(old(State()), Removed(r.k), State())
      ensures !r.GrantedTo? && !r.RemovedEntry? ==> State() == old(State())
      ensures r.NoSecret? <==> Role(perms) != GUEST && policy.secret(key).None?
      ensures r.NoSuchEntry? <==> Role(perms) == GUEST && forall k :: k in old(Sessions()) ==> !(key[..prefixLen] <= k)
      ensures States() == old(States()) || ((r.GrantedTo? || r.RemovedEntry?) && States() == old(States()) + [Stored()])
      ensures r.NotPersisted? <==> Refusals() > old(Refusals())
      ensures r.Full? <==>
                && Role(perms) != GUEST && policy.secret(key).Some?
                && NoRoom(policy, old(Sessions()),
                          Promoted(policy, old(Sessions()), key, perms, now, policy.secret(key).value))
    {
      hide Step, Role, Dropped, Promoted, SeatsOver, NoRoom, Session.HasAccess, Store.Valid;
      if Role(perms) == GUEST {
        var k := this.MatchPrefix(key[..prefixLen]);
        if k.None? {
          return NoSuchEntry;
        }
        var ok := this.Remove(k.value);
        DropStep(old(State()), k.value);
        assert k.value in old(Sessions()) && key[..prefixLen] <= k.value;
        return if ok then RemovedEntry(k.value) else NotPersisted;
      }
      var secret := policy.secret(key);
      if secret.None? {
        return NoSecret;
      }
      r := this.Promote(key, secret.value, perms, now);
    }

    static lemma DropStep(w: World, k: Key)
      ensures Step(w, Removed(k), Dropped(w, k))
    {
    }

    method Promote(key: Key, secret: seq<Byte>, perms: bv8, now: int) returns (r: GrantResult)
      requires Valid() && Role(perms) != GUEST && policy.secret(key) == Some(secret)
      modifies this`seated, store
      ensures Valid()
      ensures r.GrantedTo? || r.Full? || r.NotPersisted?
      ensures r.GrantedTo? ==>
                && Step(old(State()), Granted(key, perms, now), State())
                && key in Sessions() && r.client == Sessions()[key]
      ensures !r.GrantedTo? ==> State() == old(State())
      ensures States() == old(States()) || (r.GrantedTo? && States() == old(States()) + [Stored()])
      ensures r.NotPersisted? <==> Refusals() > old(Refusals())
      ensures r.Full? <==> NoRoom(policy, old(Sessions()), Promoted(policy, old(Sessions()), key, perms, now, secret))
    {
      hide Promoted, SeatsOver, NoRoom, Role, Store.Valid, Client.Value;
      ghost var before := State();
      var s := if key in seated then seated[key].Value() else Stranger(key, policy.asks);
      var candidate := new Client(s.(secret := secret, perms := perms, granted := true,
                                     lastActive := if s.lastActive == ZERO_TIME then now else s.lastActive));
      PromotedIs(policy, before.live, key, perms, now, secret);
      candidate.ValueKey();
      if key in seated {
        seated[key].ValueKey();
      }
      assert State() == before;
      var put := this.PutEvicting(candidate);
      match put
      case Seated(victim) =>
        assert SeatsOver(before, candidate.Value(), victim, State());
        r := GrantedTo(candidate.Value());
      case SessionsFull => r := Full;
      case StoreRefused => r := NotPersisted;
    }

    // ----- coming up -----

    /** Rebuilds the access list from the store, over whatever the table holds. A
        legacy guest row is deleted, never restored; a store that cannot be read,
        or that holds more required rows than the table has places, is an error. */
    method Load() returns (ok: bool)
      requires Valid()
      modifies this`seated, store
      ensures Valid()
      ensures ok && policy.durable ==> LoadedOnto(policy, old(Stored()), old(Sessions()), Sessions())
      ensures ok && !policy.durable ==> State() == old(State())
      ensures ok && old(seated) == map[] ==> Step(old(State()), Restarted(policy), State())
      ensures AccessRows(Stored()) == AccessRows(old(Stored()))
      ensures old(States()) <= States()
      ensures forall i :: |old(States())| <= i < |States()| ==> AccessRows(States()[i]) == AccessRows(old(Stored()))
      ensures ok <==> !policy.durable || (Refusals() == old(Refusals()) && FitsRequired(policy, old(Stored())))
    {
      hide Role, LoadRows, LoadOnto, AccessRows, Enumerates, RequiredFirst, KeepsOrder, Listed, FitsRequired;
      if !policy.durable {
        assert seated == map[] ==> Sessions() == map[];
        return true;
      }
      var read := store.LoadSessions();
      if read.None? {
        return false;
      }
      var order := this.KeepFirst(read.value);
      if order.None? {
        return false;
      }
      ghost var base := Sessions();
      ok := this.SeatEach(order.value);
      if ok {
        CleanedAll(old(Stored()), order.value);
        assert LoadsOnto(policy, old(Stored()), base, order.value, Sessions());
        if old(seated) == map[] {
          assert base == map[];
          LoadedFromNothing(old(State()), order.value, State());
        }
      }
    }

    /** The rows a load must keep before all others, each half in its own order;
        None exactly when they are too many. */
    method KeepFirst(order: seq<Row>) returns (sorted: Option<seq<Row>>)
      requires Enumerates(order, store.rows) && Listed(order)
      ensures sorted.Some? <==> FitsRequired(policy, store.rows)
      ensures sorted.Some? ==>
                sorted.value == RequiredThenOthers(policy, order) && InLoadOrder(policy, store.rows, sorted.value)
    {
      hide Enumerates, Listed, InLoadOrder;
      SortedForLoad(policy, store.rows, order);
      if policy.required.None? {
        NothingIsRequired(policy, order, |order|);
        assert [] + order == order;
        return Some(order);
      }
      var first, others: seq<Row> := [], [];
      for i := 0 to |order|
        invariant first == Chosen(policy, order, i, true) && others == Chosen(policy, order, i, false)
      {
        if policy.Required(order[i]) {
          first := first + [order[i]];
        } else {
          others := others + [order[i]];
        }
      }
      if |first| > policy.capacity {
        return None;
      }
      return Some(first + others);
    }

    method SeatEach(order: seq<Row>) returns (ok: bool)
      requires Valid() && policy.durable && Enumerates(order, store.rows)
      modifies this`seated, store
      ensures Valid()
      ensures AccessRows(Stored()) == AccessRows(old(Stored()))
      ensures old(States()) <= States()
      ensures forall i :: |old(States())| <= i < |States()| ==> AccessRows(States()[i]) == AccessRows(old(Stored()))
      ensures ok ==> Sessions() == LoadOnto(policy, old(Sessions()), order, |order|)
      ensures ok ==> Stored() == Cleaned(old(Stored()), order, |order|)
      ensures Refusals() == old(Refusals()) + if ok then 0 else 1
    {
      hide Role, AccessRows, Enumerates, Steady, LoadedSoFar, CanSeat, Restored, Store.Valid;
      ghost var rows, base := Stored(), Sessions();
      ok := true;
      SteadyFrom(States(), rows);
      NoRowYet(policy, rows, base, order);
      for i := 0 to |order|
        invariant Valid() && LoadedSoFar(policy, rows, base, order, i, Sessions(), Stored())
        invariant Steady(old(States()), States(), rows) && Refusals() == old(Refusals())
      {
        NextRow(policy, rows, base, order, i, Sessions(), Stored());
        ghost var before := States();
        var seatedOne := this.SeatOne(order[i]);
        if !seatedOne {
          SteadyMeans(old(States()), before, rows);
          return false;
        }
        StaysSteady(old(States()), before, Stored(), rows);
      }
      SteadyMeans(old(States()), States(), rows);
      EveryRow(policy, rows, base, order, Sessions(), Stored());
    }

    /** One row: a guest's is deleted, any other is seated if it can be. */
    method SeatOne(row: Row) returns (ok: bool)
      requires Valid() && policy.durable
      modifies this`seated, store
      ensures Valid()
      ensures Sessions() == if CanSeat(policy, old(Sessions()), row)
                            then old(Sessions())[row.pubKey := Restored(policy, row)]
                            else old(Sessions())
      ensures Stored() == if ok && Role(row.perms) == GUEST then old(Stored()) - {row.pubKey} else old(Stored())
      ensures States() == old(States()) || (ok && States() == old(States()) + [Stored()])
      ensures Refusals() == old(Refusals()) + if ok then 0 else 1
    {
      hide Role, Restored, Store.Valid, Client.Value, SeatedLive;
      SessionsSize();
      ok := true;
      if Role(row.perms) == GUEST {
        ok := this.Forget(row.pubKey);
        assert Sessions() == old(Sessions());
      } else if |seated| < policy.capacity && policy.secret(row.pubKey).Some? {
        RestoredKey(policy, row);
        var c := new Client(Restored(policy, row));
        assert Sessions() == old(Sessions());
        this.Install(c, None);
        SeatedFree(old(Sessions()), c.Value());
      }
    }
  }

  /** A load onto nothing is a restart. */
  lemma LoadedFromNothing(w: World, order: seq<Row>, next: World)
    requires w.live == map[] && w.policy.durable && InLoadOrder(w.policy, w.rows, order)
    requires next == w.(live := LoadOnto(w.policy, map[], order, |order|), rows := AccessRows(w.rows))
    ensures Step(w, Restarted(w.policy), next)
  {
    hide Role, AccessRows, LoadRows, LoadOnto, Enumerates, RequiredFirst, KeepsOrder, Listed, FitsRequired;
    LoadOntoNothing(w.policy, order, |order|);
    var n: nat :| RequiredFirst(w.policy, order, n);
    assert LoadsInOrder(w.policy, w.rows, order, n, next.live);
  }

  lemma SeatedFree(live: Live, c: Session)
    ensures SeatedLive(live, c, None) == live[c.pubKey := c]
  {
  }

  lemma RestoredKey(p: Policy, row: Row)
    requires p.secret(row.pubKey).Some?
    ensures Restored(p, row).pubKey == row.pubKey
  {
  }

  /** What a load has done after n rows. */
  ghost predicate LoadedSoFar(p: Policy, rows: Rows, base: Live, order: seq<Row>, n: nat, live: Live, stored: Rows) {
    && n <= |order| && Enumerates(order, rows)
    && live == LoadOnto(p, base, order, n) && stored == Cleaned(rows, order, n)
  }

  lemma NoRowYet(p: Policy, rows: Rows, base: Live, order: seq<Row>)
    requires Enumerates(order, rows)
    ensures LoadedSoFar(p, rows, base, order, 0, base, rows)
  {
  }

  /** One more row of a load. */
  lemma NextRow(p: Policy, rows: Rows, base: Live, order: seq<Row>, i: nat, live: Live, stored: Rows)
    requires LoadedSoFar(p, rows, base, order, i, live, stored) && i < |order|
    ensures var row := order[i];
            var stored' := if Role(row.perms) == GUEST then stored - {row.pubKey} else stored;
            && LoadedSoFar(p, rows, base, order, i + 1,
                           if CanSeat(p, live, row) then live[row.pubKey := Restored(p, row)] else live, stored')
            && AccessRows(stored) == AccessRows(stored') == AccessRows(rows)
  {
    hide Role, AccessRows, Enumerates, CanSeat, Restored;
    CleanedKeeps(rows, order, i);
    CleanedKeeps(rows, order, i + 1);
  }

  lemma EveryRow(p: Policy, rows: Rows, base: Live, order: seq<Row>, live: Live, stored: Rows)
    requires LoadedSoFar(p, rows, base, order, |order|, live, stored)
    ensures live == LoadOnto(p, base, order, |order|) && stored == Cleaned(rows, order, |order|)
    ensures AccessRows(stored) == AccessRows(rows)
  {
    CleanedKeeps(rows, order, |order|);
  }

  /** No state of the disk since has lost an access row or gained one. */
  ghost predicate Steady(before: seq<Rows>, after: seq<Rows>, rows: Rows) {
    before <= after && forall i :: |before| <= i < |after| ==> AccessRows(after[i]) == AccessRows(rows)
  }

  lemma SteadyFrom(states: seq<Rows>, rows: Rows)
    ensures Steady(states, states, rows)
  {
  }

  lemma StaysSteady(before: seq<Rows>, after: seq<Rows>, next: Rows, rows: Rows)
    requires Steady(before, after, rows) && AccessRows(next) == AccessRows(rows)
    ensures Steady(before, after + [next], rows)
  {
    hide AccessRows;
  }

  lemma SteadyMeans(before: seq<Rows>, after: seq<Rows>, rows: Rows)
    requires Steady(before, after, rows)
    ensures before <= after && forall i :: |before| <= i < |after| ==> AccessRows(after[i]) == AccessRows(rows)
  {
  }

  ghost predicate LoadsOnto(p: Policy, rows: Rows, base: Live, order: seq<Row>, live: Live) {
    InLoadOrder(p, rows, order) && live == LoadOnto(p, base, order, |order|)
  }

  ghost predicate LoadedOnto(p: Policy, rows: Rows, base: Live, live: Live) {
    exists order :: LoadsOnto(p, rows, base, order, live)
  }

  lemma {:induction false} NothingIsRequired(p: Policy, order: seq<Row>, n: nat)
    requires p.required.None? && n <= |order|
    ensures Chosen(p, order, n, true) == [] && Chosen(p, order, n, false) == order[..n]
    ensures n == |order| ==> order[..n] == order
    decreases n
  {
    if n > 0 {
      NothingIsRequired(p, order, n - 1);
    }
  }

  lemma PromotedIs(p: Policy, live: Live, k: Key, perms: bv8, now: int, secret: seq<Byte>)
    ensures var s := if k in live then live[k] else Stranger(k, p.asks);
            Promoted(p, live, k, perms, now, secret) ==
              s.(secret := secret, perms := perms, granted := true,
                 lastActive := if s.lastActive == ZERO_TIME then now else s.lastActive)
  {
  }

  /** The first of the keys a prefix names. */
  ghost predicate IsLowest(live: Live, prefix: seq<Byte>, k: Key) {
    k in live && prefix <= k && forall j :: j in live && prefix <= j ==> j == k || Before(k, j)
  }
}
