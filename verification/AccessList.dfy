/** Who may ask what of a node, in memory and on disk, as values: one step per
    thing that can happen, and what whole runs of them keep
    (internal/meshcorehost/table.go and login.go). */
module AccessList {
  import opened Common
  import opened RateLimit
  import opened Ordering

  type Key = seq<Byte>

  // ----- what a session is -----

  const ROLE_MASK: bv8 := 3
  const GUEST: bv8 := 0
  const ADMIN: bv8 := 3

  function Role(perms: bv8): bv8 {
    perms & ROLE_MASK
  }

  /** A route home a client taught; a zero-hop route is still one. */
  datatype Route = Route(pathLen: Byte, path: seq<Byte>, learned: int)

  /** What the store keeps of an access entry. */
  datatype Row = Row(pubKey: Key, perms: bv8, granted: bool, lastTimestamp: nat, out: Option<Route>, lastActive: int)

  datatype Session = Session(pubKey: Key, secret: seq<Byte>, perms: bv8, out: Option<Route>, lastTimestamp: nat,
                             lastActive: int, asks: Budget, active: bool, closed: bool, granted: bool)
  {
    predicate HasAccess() {
      Role(perms) != GUEST
    }

    predicate IsAdmin() {
      Role(perms) == ADMIN
    }

    function Persisted(): Row {
      Row(pubKey, perms, granted, lastTimestamp, out, lastActive)
    }
  }

  type Live = map<Key, Session>
  type Rows = map<Key, Row>

  // ----- logging in -----

  /** Times count nanoseconds from the zero time; this is the Unix epoch. */
  const UNIX_EPOCH: int := 62_135_596_800_000_000_000
  const SECOND: int := 1_000_000_000
  const LOGIN_MAX_SKEW: int := 24 * 60 * 60 * SECOND
  const ZERO_TIME: int := 0

  function Skew(ts: nat, now: int): int {
    now - (UNIX_EPOCH + ts * SECOND)
  }

  predicate Skewed(ts: nat, now: int) {
    Skew(ts, now) > LOGIN_MAX_SKEW || Skew(ts, now) < -LOGIN_MAX_SKEW
  }

  datatype Admission = Admitted(session: Session) | RefusedSkew | RefusedWord | RefusedReplay

  /** An unknown key's blank session. */
  function Stranger(key: Key, asks: Budget): Session {
    Session(key, [], 0, None, 0, ZERO_TIME, asks, false, false, false)
  }

  const NO_BUDGET := Budget(0, 0, 0, 0)

  function Candidate(live: Option<Session>, key: Key): Session {
    match live case Some(s) => s case None => Stranger(key, NO_BUDGET)
  }

  function WithRole(perms: bv8, role: bv8): bv8 {
    (perms & !ROLE_MASK) | role
  }

  function WithWord(c: Session, role: bv8, secret: seq<Byte>): Session {
    c.(perms := WithRole(c.perms, role), granted := c.granted && role != GUEST, secret := secret)
  }

  /** What a password attempt earns. */
  function AdmitOf(live: Option<Session>, key: Key, secret: seq<Byte>, password: string, ts: nat, now: int,
                   doors: string -> Option<bv8>): Admission
  {
    if Skewed(ts, now) then RefusedSkew
    else if (password != "" || live.None?) && doors(password).None? then RefusedWord
    else
      var c := if password != "" || live.None? then WithWord(Candidate(live, key), doors(password).value, secret)
               else Candidate(live, key);
      if ts <= c.lastTimestamp then RefusedReplay else Admitted(c.(closed := false))
  }

  // ----- the world -----

  /** What the owner of a table fixes: its places, whether a store stands behind
      it, whom a newcomer may not unseat, which rows a load must keep, the key
      agreement, the doors, and the budget a session starts with. */
  datatype Policy = Policy(capacity: int, durable: bool, spare: Option<(Session, Session) -> bool>,
                           forgetGuestState: bool, required: Option<Row -> bool>,
                           secret: Key -> Option<seq<Byte>>, doors: string -> Option<bv8>, asks: Budget)
  {
    predicate Spared(newcomer: Session, seated: Session) {
      if spare.Some? then spare.value(newcomer, seated) else seated.HasAccess()
    }

    predicate Required(row: Row) {
      required.Some? && required.value(row)
    }
  }

  datatype World = World(policy: Policy, live: Live, rows: Rows)

  function Get(live: Live, k: Key): Option<Session> {
    if k in live then Some(live[k]) else None
  }

  /** The rows once an accepted save of one session has reached them. */
  function SavedRows(p: Policy, rows: Rows, s: Session): Rows {
    if p.durable && s.HasAccess() then rows[s.pubKey := s.Persisted()] else rows
  }

  function Kept(w: World, s: Session): World {
    w.(live := w.live[s.pubKey := s], rows := SavedRows(w.policy, w.rows, s))
  }

  /** The last word on a session is the one that is kept. */
  lemma KeptOver(w: World, s: Session, t: Session)
    requires s.pubKey == t.pubKey
    ensures Kept(w.(live := w.live[s.pubKey := s]), t) == Kept(w, t)
  {
    hide SavedRows;
    assert w.live[s.pubKey := s][t.pubKey := t] == w.live[t.pubKey := t];
  }

  // ----- seating -----

  /** The least recently active of those the policy does not spare. */
  predicate IsVictim(p: Policy, live: Live, newcomer: Session, v: Key) {
    && v in live && !p.Spared(newcomer, live[v])
    && forall u :: u in live && !p.Spared(newcomer, live[u]) ==> live[v].lastActive <= live[u].lastActive
  }

  /** Whom a newcomer's place is taken from, if from anyone. */
  predicate MakesRoom(p: Policy, live: Live, newcomer: Session, victim: Option<Key>) {
    if newcomer.pubKey in live || |live| < p.capacity then victim.None?
    else victim.Some? && IsVictim(p, live, newcomer, victim.value)
  }

  /** When there is none to take. */
  predicate NoRoom(p: Policy, live: Live, newcomer: Session) {
    && newcomer.pubKey !in live && |live| >= p.capacity
    && forall k :: k in live ==> p.Spared(newcomer, live[k])
  }

  lemma KnownNeedsNoRoom(p: Policy, live: Live, c: Session)
    requires c.pubKey in live
    ensures MakesRoom(p, live, c, None) && !NoRoom(p, live, c)
  {
  }

  function SeatedLive(live: Live, c: Session, victim: Option<Key>): Live {
    (if victim.Some? then live - {victim.value} else live)[c.pubKey := c]
  }

  /** The store's side of it: one transaction at most. */
  function SeatedRows(p: Policy, live: Live, rows: Rows, c: Session, victim: Option<Key>): Rows
    requires victim.Some? ==> victim.value in live
  {
    if !p.durable then rows
    else if victim.Some? && (live[victim.value].HasAccess() || p.forgetGuestState) then
      SavedRows(p, rows - {victim.value}, c)
    else if c.HasAccess() then SavedRows(p, rows, c)
    else if c.pubKey in live && live[c.pubKey].HasAccess() then rows - {c.pubKey}
    else rows
  }

  ghost predicate SeatsOver(w: World, c: Session, victim: Option<Key>, next: World) {
    && MakesRoom(w.policy, w.live, c, victim)
    && next == w.(live := SeatedLive(w.live, c, victim), rows := SeatedRows(w.policy, w.live, w.rows, c, victim))
  }

  lemma SeatedOver(w: World, c: Session, victim: Option<Key>, next: World)
    requires MakesRoom(w.policy, w.live, c, victim) && next.policy == w.policy
             && (victim.Some? ==> victim.value in w.live)
    requires next.live == SeatedLive(w.live, c, victim)
    requires next.rows == SeatedRows(w.policy, w.live, w.rows, c, victim)
    ensures SeatsOver(w, c, victim, next)
  {
    hide MakesRoom, SeatedLive, SeatedRows;
  }

  lemma KeptIs(w: World, s: Session, next: World)
    requires next.policy == w.policy && next.live == w.live[s.pubKey := s]
             && next.rows == SavedRows(w.policy, w.rows, s)
    ensures next == Kept(w, s)
  {
    hide SavedRows;
  }

  ghost predicate Seats(w: World, c: Session, next: World) {
    exists victim :: SeatsOver(w, c, victim, next)
  }

  // ----- loading -----

  function Restored(p: Policy, row: Row): Session
    requires p.secret(row.pubKey).Some?
  {
    Session(row.pubKey, p.secret(row.pubKey).value, row.perms, row.out, row.lastTimestamp, row.lastActive, p.asks,
            false, false, row.granted)
  }

  /** The table after the first n rows: guests are not restored, and a full
      table or an underivable secret skips the row. */
  function LoadRows(p: Policy, order: seq<Row>, n: nat): Live
    requires n <= |order|
  {
    if n == 0 then map[]
    else
      var live, row := LoadRows(p, order, n - 1), order[n - 1];
      if Role(row.perms) == GUEST || |live| >= p.capacity || p.secret(row.pubKey).None? then live
      else live[row.pubKey := Restored(p, row)]
  }

  /** Every row once, each under its own key. */
  ghost predicate Enumerates(order: seq<Row>, rows: Rows) {
    && (forall i, j :: 0 <= i < j < |order| ==> order[i].pubKey != order[j].pubKey)
    && (forall i :: 0 <= i < |order| ==> order[i].pubKey in rows && rows[order[i].pubKey] == order[i])
    && (forall k :: k in rows ==> IsIn(order, k))
  }

  ghost predicate IsIn(order: seq<Row>, k: Key) {
    exists i :: 0 <= i < |order| && order[i].pubKey == k
  }

  /** The first n rows are the required ones, and the table has places for them. */
  ghost predicate RequiredFirst(p: Policy, order: seq<Row>, n: nat) {
    && n <= |order| && (p.required.Some? ==> n <= Max(p.capacity, 0))
    && (forall i :: 0 <= i < n ==> p.Required(order[i]))
    && (forall i :: n <= i < |order| ==> !p.Required(order[i]))
  }

  /** The instant a row was last active, as the text it is stored as compares
      (RFC 3339): its whole second, then the digits of the fraction with their
      trailing zeros dropped, then the zone. */
  function Stamp(t: int): seq<int> {
    [t / SECOND] + (if t % SECOND == 0 then [] else [POINT]) + Fraction(t) + [ZULU]
  }

  function Fraction(t: int): seq<int> {
    Digits(t % SECOND, SECOND / 10)
  }

  const POINT: int := 0x2E
  const ZULU: int := 0x5A

  function Digits(n: nat, unit: nat): seq<int>
    decreases unit
  {
    if n == 0 || unit == 0 then [] else [0x30 + n / unit] + Digits(n % unit, unit / 10)
  }

  /** The order rows are listed in: the newest text first, then by key. */
  predicate SortsBefore(x: Row, y: Row) {
    || Before(Stamp(y.lastActive), Stamp(x.lastActive))
    || (Stamp(x.lastActive) == Stamp(y.lastActive) && Before(x.pubKey, y.pubKey))
  }

  ghost predicate Listed(order: seq<Row>) {
    forall i, j :: 0 <= i < j < |order| ==> SortsBefore(order[i], order[j])
  }

  /** Within the required rows, and within the others, the listing's order. */
  ghost predicate KeepsOrder(p: Policy, order: seq<Row>) {
    forall i, j :: 0 <= i < j < |order| && p.Required(order[i]) == p.Required(order[j]) ==>
      SortsBefore(order[i], order[j])
  }

  function RequiredKeys(p: Policy, rows: Rows): set<Key> {
    set k | k in rows && p.Required(rows[k])
  }

  /** When a load is not refused for its required rows. */
  predicate FitsRequired(p: Policy, rows: Rows) {
    p.required.Some? ==> |RequiredKeys(p, rows)| <= p.capacity
  }

  /** The rows as a load takes them. */
  ghost predicate InLoadOrder(p: Policy, rows: Rows, order: seq<Row>) {
    Enumerates(order, rows) && KeepsOrder(p, order) && exists n :: RequiredFirst(p, order, n)
  }

  ghost predicate LoadsInOrder(p: Policy, rows: Rows, order: seq<Row>, n: nat, live: Live) {
    Enumerates(order, rows) && KeepsOrder(p, order) && RequiredFirst(p, order, n) && live == LoadRows(p, order, |order|)
  }

  /** The same onto a table that already holds sessions. */
  function LoadOnto(p: Policy, base: Live, order: seq<Row>, n: nat): Live
    requires n <= |order|
  {
    if n == 0 then base
    else
      var live, row := LoadOnto(p, base, order, n - 1), order[n - 1];
      if CanSeat(p, live, row) then live[row.pubKey := Restored(p, row)] else live
  }

  predicate CanSeat(p: Policy, live: Live, row: Row) {
    Role(row.perms) != GUEST && |live| < p.capacity && p.secret(row.pubKey).Some?
  }

  lemma {:induction false} LoadOntoNothing(p: Policy, order: seq<Row>, n: nat)
    requires n <= |order|
    ensures LoadOnto(p, map[], order, n) == LoadRows(p, order, n)
    decreases n
  {
    hide Role, Restored;
    if n > 0 {
      LoadOntoNothing(p, order, n - 1);
    }
  }

  ghost predicate LoadedFrom(p: Policy, rows: Rows, live: Live) {
    if !p.durable then live == map[]
    else exists order, n: nat :: LoadsInOrder(p, rows, order, n, live)
  }

  function AccessRows(rows: Rows): Rows {
    map k | k in rows && Role(rows[k].perms) != GUEST :: rows[k]
  }

  // ----- closing and expiring -----

  function Closing(s: Session): Session {
    s.(active := false, closed := true, out := None)
  }

  predicate Due(s: Session, now: int, idle: int) {
    s.active && s.lastActive + idle <= now
  }

  /** Guests whose deadline passed are gone; access entries only stop being live
      sessions. */
  function ExpiredLive(live: Live, now: int, idle: int): Live {
    map k | k in live && (live[k].HasAccess() || !Due(live[k], now, idle)) ::
      if Due(live[k], now, idle) then live[k].(active := false) else live[k]
  }

  /** One key's share of it, and that of some of the keys. */
  function ExpiredKey(live: Live, k: Key, now: int, idle: int): Live
    requires k in live
  {
    if !Due(live[k], now, idle) then live
    else if live[k].HasAccess() then live[k := live[k].(active := false)]
    else live - {k}
  }

  function ExpiredAmong(live: Live, keys: set<Key>, now: int, idle: int): Live {
    map k | k in live && (k !in keys || live[k].HasAccess() || !Due(live[k], now, idle)) ::
      if k in keys && Due(live[k], now, idle) then live[k].(active := false) else live[k]
  }

  lemma ExpiredNone(live: Live, now: int, idle: int)
    ensures ExpiredAmong(live, {}, now, idle) == live && !DueAmong(live, {}, now, idle)
  {
    hide Due, Session.HasAccess;
  }

  lemma ExpiredAll(live: Live, now: int, idle: int)
    ensures ExpiredAmong(live, live.Keys, now, idle) == ExpiredLive(live, now, idle)
    ensures DueAmong(live, live.Keys, now, idle) <==> AnyDue(live, now, idle)
    ensures !AnyDue(live, now, idle) ==> ExpiredLive(live, now, idle) == live
  {
    hide Due, Session.HasAccess;
  }

  lemma ExpiredNext(live: Live, keys: set<Key>, k: Key, now: int, idle: int)
    requires k in live && k !in keys
    ensures k in ExpiredAmong(live, keys, now, idle) && ExpiredAmong(live, keys, now, idle)[k] == live[k]
    ensures ExpiredKey(ExpiredAmong(live, keys, now, idle), k, now, idle) == ExpiredAmong(live, keys + {k}, now, idle)
    ensures DueAmong(live, keys + {k}, now, idle) <==> DueAmong(live, keys, now, idle) || Due(live[k], now, idle)
  {
    hide Due, Session.HasAccess;
  }

  ghost predicate DueAmong(live: Live, keys: set<Key>, now: int, idle: int) {
    exists k :: k in keys && k in live && Due(live[k], now, idle)
  }

  ghost predicate AnyDue(live: Live, now: int, idle: int) {
    exists k :: k in live && Due(live[k], now, idle)
  }

  // ----- what can happen -----

  /** The ways an authenticated frame moves a seated key's guard: a request or a
      command line at a relay, a request or a post at a room. */
  datatype Door = RelayRequest | RelayCommand | RoomRequest | RoomPost
  {
    /** Only a relay's request must be newer than the guard; the others take the
        guard's own timestamp again. */
    predicate Takes(s: Session, ts: nat) {
      && !s.closed
      && (if RelayRequest? then ts > s.lastTimestamp else ts >= s.lastTimestamp)
      && (RelayCommand? ==> s.IsAdmin())
    }

    predicate Charges(s: Session) {
      RoomRequest? || (!RoomPost? && s.out.None?)
    }
  }

  /** `Refused` is any attempt the table, a password or the store turned down. */
  datatype Event =
    | Refused
    | LoggedIn(k: Key, password: string, ts: nat, now: int, flooded: bool)
    | Charged(k: Key, now: int)
    | Asked(k: Key, door: Door, ts: nat, now: int)
    | Learned(k: Key, route: Route, now: int, saved: bool)
    | Granted(k: Key, perms: bv8, now: int)
    | Closed(k: Key)
    | Removed(k: Key)
    | Expired(now: int, idle: int)
    | Restarted(policy: Policy)

  /** The owner's stamp on an admitted candidate; a room forgets the route of a
      login that flooded. */
  function Stamped(c: Session, ts: nat, now: int, asks: Budget, flooded: bool): Session {
    c.(lastTimestamp := ts, lastActive := now, asks := asks, active := true, out := if flooded then None else c.out)
  }

  function Promoted(p: Policy, live: Live, k: Key, perms: bv8, now: int, secret: seq<Byte>): Session {
    var c := if k in live then live[k] else Stranger(k, p.asks);
    c.(secret := secret, perms := perms, granted := true,
       lastActive := if c.lastActive == ZERO_TIME then now else c.lastActive)
  }

  function AskedSession(s: Session, door: Door, ts: nat, now: int): Session {
    s.(lastTimestamp := ts, lastActive := now, active := true,
       asks := if door.Charges(s) then Consume(s.asks, now).0 else s.asks)
  }

  ghost predicate Step(w: World, e: Event, next: World) {
    match e
    case Refused => next == w
    case LoggedIn(k, password, ts, now, flooded) => LoginStep(w, k, password, ts, now, flooded, next)
    case Charged(k, now) =>
      k in w.live && next == w.(live := w.live[k := w.live[k].(asks := Consume(w.live[k].asks, now).0)])
    case Asked(k, door, ts, now) =>
      && k in w.live && door.Takes(w.live[k], ts)
      && (door.Charges(w.live[k]) ==> Consume(w.live[k].asks, now).1)
      && next == Kept(w, AskedSession(w.live[k], door, ts, now))
    case Learned(k, route, now, saved) =>
      && k in w.live && !w.live[k].closed
      && var s := w.live[k].(out := Some(route), lastActive := now, active := true);
         next == if saved then Kept(w, s) else w.(live := w.live[k := s])
    case Granted(k, perms, now) =>
      && Role(perms) != GUEST && w.policy.secret(k).Some?
      && Seats(w, Promoted(w.policy, w.live, k, perms, now, w.policy.secret(k).value), next)
    case Closed(k) =>
      && k in w.live && w.live[k].active
      && next == if w.live[k].HasAccess() then Kept(w, Closing(w.live[k])) else w.(live := w.live - {k})
    case Removed(k) => next == Dropped(w, k)
    case Expired(now, idle) => next == w.(live := ExpiredLive(w.live, now, idle))
    case Restarted(p) =>
      && p.durable == w.policy.durable && LoadedFrom(p, w.rows, next.live)
      && next == World(p, next.live, if p.durable then AccessRows(w.rows) else w.rows)
  }

  lemma CloseStep(w: World, k: Key, next: World)
    requires k in w.live && w.live[k].active
    requires next == if w.live[k].HasAccess() then Kept(w, Closing(w.live[k])) else w.(live := w.live - {k})
    ensures Step(w, Closed(k), next)
  {
    hide Kept, Closing, Session.HasAccess;
  }

  ghost predicate LoginStep(w: World, k: Key, password: string, ts: nat, now: int, flooded: bool, next: World) {
    && w.policy.secret(k).Some?
    && var a := AdmitOf(Get(w.live, k), k, w.policy.secret(k).value, password, ts, now, w.policy.doors);
       a.Admitted? && Seats(w, Stamped(a.session, ts, now, w.policy.asks, flooded), next)
  }

  // ----- the invariant -----

  predicate SameStanding(row: Row, s: Session) {
    row.perms == s.perms && row.granted == s.granted && row.lastTimestamp == s.lastTimestamp
  }

  /** Each live access entry has its row, with its role, its grant and its guard.
      This much holds whatever the disk refuses. */
  ghost predicate Mirrored(w: World) {
    w.policy.durable ==> forall k :: k in w.live && w.live[k].HasAccess() ==>
      k in w.rows && SameStanding(w.rows[k], w.live[k])
  }

  /** And the row is the entry's whole persisted form, except for the keys whose
      last learned route was lost to the disk. */
  ghost predicate Fresh(w: World, stale: set<Key>) {
    w.policy.durable ==>
      forall k :: k in w.live && w.live[k].HasAccess() && k !in stale ==>
        k in w.rows && w.rows[k] == w.live[k].Persisted()
  }

  ghost predicate Keyed(w: World) {
    && (forall k :: k in w.live ==> w.live[k].pubKey == k)
    && (w.policy.durable ==> forall k :: k in w.rows ==> w.rows[k].pubKey == k && Role(w.rows[k].perms) != GUEST)
  }

  ghost predicate Bounded(w: World) {
    |w.live| <= Max(w.policy.capacity, 0)
  }

  /** The stored rows are exactly the live access entries. */
  ghost predicate Exact(w: World) {
    w.policy.durable ==> forall k :: k in w.rows ==> k in w.live && w.live[k].HasAccess()
  }

  /** What every step keeps. */
  ghost predicate Sound(w: World) {
    Mirrored(w) && Keyed(w) && Bounded(w)
  }

  lemma Sizes(live: Live, k: Key, s: Session)
    ensures |live[k := s]| == |live| + if k in live then 0 else 1
    ensures |live - {k}| == |live| - if k in live then 1 else 0
  {
    assert live[k := s].Keys == live.Keys + {k};
    assert (live - {k}).Keys == live.Keys - {k};
    assert |live.Keys| == |live| && |live[k := s].Keys| == |live[k := s]| && |(live - {k}).Keys| == |live - {k}|;
  }

  lemma PersistedAgrees(s: Session)
    ensures SameStanding(s.Persisted(), s)
    ensures s.Persisted().pubKey == s.pubKey && (Role(s.Persisted().perms) != GUEST <==> s.HasAccess())
  {
  }

  lemma SeatedBounded(w: World, c: Session, victim: Option<Key>, next: World)
    requires SeatsOver(w, c, victim, next) && Bounded(w)
    ensures Bounded(next)
  {
    hide IsVictim, SeatedRows;
    if victim.Some? {
      VictimSeated(w.policy, w.live, c, victim.value);
      Sizes(w.live, victim.value, c);
      Sizes(w.live - {victim.value}, c.pubKey, c);
    } else {
      Sizes(w.live, c.pubKey, c);
    }
  }

  lemma VictimSeated(p: Policy, live: Live, c: Session, v: Key)
    requires IsVictim(p, live, c, v)
    ensures v in live
  {
  }

  lemma SeatedMirrored(w: World, c: Session, victim: Option<Key>, next: World)
    requires SeatsOver(w, c, victim, next) && Mirrored(w)
    ensures Mirrored(next)
  {
    hide IsVictim, Role, SameStanding, Session.Persisted, Session.HasAccess;
    PersistedAgrees(c);
    if victim.Some? {
      VictimSeated(w.policy, w.live, c, victim.value);
    }
  }

  lemma SeatedKeyed(w: World, c: Session, victim: Option<Key>, next: World)
    requires SeatsOver(w, c, victim, next) && Keyed(w)
    ensures Keyed(next)
  {
    hide IsVictim, Role, Session.Persisted, Session.HasAccess;
    PersistedAgrees(c);
    if victim.Some? {
      VictimSeated(w.policy, w.live, c, victim.value);
    }
  }

  lemma SeatedExact(w: World, c: Session, victim: Option<Key>, next: World)
    requires SeatsOver(w, c, victim, next) && Exact(w)
    ensures Exact(next)
  {
    hide IsVictim, Role;
    if victim.Some? {
      VictimSeated(w.policy, w.live, c, victim.value);
    }
  }

  /** A change to one seated session that leaves its access alone. */
  lemma KeptSound(w: World, s: Session)
    requires Sound(w) && s.pubKey in w.live && s.HasAccess() == w.live[s.pubKey].HasAccess()
    ensures Sound(Kept(w, s)) && (Exact(w) ==> Exact(Kept(w, s)))
  {
    hide Mirrored, Keyed, Exact;
    Sizes(w.live, s.pubKey, s);
    KeptMirrored(w, s);
    KeptKeyed(w, s);
    if Exact(w) {
      KeptExact(w, s);
    }
  }

  lemma KeptMirrored(w: World, s: Session)
    requires Mirrored(w)
    ensures Mirrored(Kept(w, s))
  {
    hide Role, SameStanding, Session.Persisted, Session.HasAccess;
    PersistedAgrees(s);
  }

  lemma KeptKeyed(w: World, s: Session)
    requires Keyed(w)
    ensures Keyed(Kept(w, s))
  {
    hide Role, Session.Persisted, Session.HasAccess;
    PersistedAgrees(s);
  }

  lemma KeptExact(w: World, s: Session)
    requires Exact(w) && s.pubKey in w.live && s.HasAccess() == w.live[s.pubKey].HasAccess()
    ensures Exact(Kept(w, s))
  {
    hide Role, Session.Persisted, Session.HasAccess;
  }

  predicate SameStandingAs(s: Session, t: Session) {
    s.perms == t.perms && s.granted == t.granted && s.lastTimestamp == t.lastTimestamp
  }

  /** A change to memory alone, that leaves the standing alone. */
  lemma TouchedSound(w: World, s: Session)
    requires Sound(w) && s.pubKey in w.live && s.HasAccess() == w.live[s.pubKey].HasAccess()
    requires SameStandingAs(w.live[s.pubKey], s)
    ensures Sound(w.(live := w.live[s.pubKey := s]))
    ensures Exact(w) ==> Exact(w.(live := w.live[s.pubKey := s]))
  {
    hide Role, SameStanding, Session.HasAccess, Mirrored, Exact;
    Sizes(w.live, s.pubKey, s);
    TouchedMirrored(w, s);
    if Exact(w) {
      TouchedExact(w, s);
    }
  }

  lemma TouchedMirrored(w: World, s: Session)
    requires Mirrored(w) && s.pubKey in w.live && s.HasAccess() == w.live[s.pubKey].HasAccess()
    requires SameStandingAs(w.live[s.pubKey], s)
    ensures Mirrored(w.(live := w.live[s.pubKey := s]))
  {
    hide Role, Session.HasAccess;
  }

  lemma TouchedExact(w: World, s: Session)
    requires Exact(w) && s.pubKey in w.live && s.HasAccess() == w.live[s.pubKey].HasAccess()
    ensures Exact(w.(live := w.live[s.pubKey := s]))
  {
    hide Role, Session.HasAccess;
  }

  /** An entry dropped in memory, with its row if it has one. */
  lemma DroppedSound(w: World, k: Key)
    requires Sound(w)
    ensures Sound(Dropped(w, k)) && (Exact(w) ==> Exact(Dropped(w, k)))
  {
    hide Mirrored, Exact, Role;
    Sizes(w.live, k, Stranger(k, NO_BUDGET));
    DroppedMirrored(w, k);
    if Exact(w) {
      DroppedExact(w, k);
    }
  }

  function Dropped(w: World, k: Key): World {
    w.(live := w.live - {k}, rows := if w.policy.durable then w.rows - {k} else w.rows)
  }

  lemma DroppedMirrored(w: World, k: Key)
    requires Mirrored(w)
    ensures Mirrored(Dropped(w, k))
  {
    hide Role, SameStanding, Session.HasAccess;
  }

  lemma DroppedExact(w: World, k: Key)
    requires Exact(w)
    ensures Exact(Dropped(w, k))
  {
    hide Role, Session.HasAccess;
  }

  lemma GuestDroppedSound(w: World, k: Key)
    requires Sound(w) && k in w.live && !w.live[k].HasAccess()
    ensures Sound(w.(live := w.live - {k})) && (Exact(w) ==> Exact(w.(live := w.live - {k})))
  {
    hide Role, SameStanding, Session.Persisted, Session.HasAccess;
    Sizes(w.live, k, Stranger(k, NO_BUDGET));
  }

  lemma ExpiredSound(w: World, now: int, idle: int)
    requires Sound(w)
    ensures Sound(w.(live := ExpiredLive(w.live, now, idle)))
    ensures Exact(w) ==> Exact(w.(live := ExpiredLive(w.live, now, idle)))
  {
    hide Role, Due;
    var next := ExpiredLive(w.live, now, idle);
    assert next.Keys <= w.live.Keys;
    SubsetSmaller(next.Keys, w.live.Keys);
    assert |next.Keys| == |next| && |w.live.Keys| == |w.live|;
  }

  lemma {:induction false} SubsetSmaller<T>(a: set<T>, b: set<T>)
    requires a <= b
    ensures |a| <= |b|
    decreases a
  {
    if a != {} {
      var x :| x in a;
      SubsetSmaller(a - {x}, b - {x});
    }
  }

  // ----- loading -----

  /** The rows on disk once the guests among the first n are forgotten. */
  function Cleaned(rows: Rows, order: seq<Row>, n: nat): Rows
    requires n <= |order|
  {
    if n == 0 then rows
    else if Role(order[n - 1].perms) == GUEST then Cleaned(rows, order, n - 1) - {order[n - 1].pubKey}
    else Cleaned(rows, order, n - 1)
  }

  /** No access entry is ever among them. */
  lemma {:induction false} CleanedKeeps(rows: Rows, order: seq<Row>, n: nat)
    requires n <= |order| && Enumerates(order, rows)
    ensures AccessRows(Cleaned(rows, order, n)) == AccessRows(rows)
    ensures forall k :: k in Cleaned(rows, order, n) ==> k in rows && Cleaned(rows, order, n)[k] == rows[k]
    ensures forall i :: 0 <= i < n && Role(order[i].perms) == GUEST ==> order[i].pubKey !in Cleaned(rows, order, n)
    decreases n
  {
    hide Role;
    if n > 0 {
      CleanedKeeps(rows, order, n - 1);
    }
  }

  lemma CleanedAll(rows: Rows, order: seq<Row>)
    requires Enumerates(order, rows)
    ensures Cleaned(rows, order, |order|) == AccessRows(rows)
  {
    hide Role, Cleaned;
    CleanedKeeps(rows, order, |order|);
    var all := Cleaned(rows, order, |order|);
    forall k | k in all ensures k in AccessRows(rows) {
      assert IsIn(order, k);
    }
    forall k | k in AccessRows(rows) ensures k in all && all[k] == rows[k] {
      assert k in AccessRows(all);
    }
  }

  /** What a load has seated after n rows. */
  ghost predicate Seated(p: Policy, order: seq<Row>, n: nat, live: Live)
    requires n <= |order|
  {
    && |live| <= n && |live| <= Max(p.capacity, 0)
    && forall k :: k in live ==> SeatedBy(p, order, n, live[k], k)
  }

  ghost predicate SeatedBy(p: Policy, order: seq<Row>, n: nat, s: Session, k: Key)
    requires n <= |order|
  {
    exists i :: 0 <= i < n && order[i].pubKey == k && Role(order[i].perms) != GUEST
      && p.secret(k).Some? && s == Restored(p, order[i])
  }

  lemma {:induction false} LoadSeats(p: Policy, order: seq<Row>, n: nat)
    requires n <= |order|
    ensures Seated(p, order, n, LoadRows(p, order, n))
    decreases n
  {
    hide Role, Restored, SeatedBy;
    if n > 0 {
      var live, row := LoadRows(p, order, n - 1), order[n - 1];
      LoadSeats(p, order, n - 1);
      forall k | k in live ensures SeatedBy(p, order, n, live[k], k) {
        SeatedLater(p, order, n, live[k], k);
      }
      if Role(row.perms) != GUEST && |live| < p.capacity && p.secret(row.pubKey).Some? {
        Sizes(live, row.pubKey, Restored(p, row));
        SeatedNow(p, order, n);
      }
    }
  }

  lemma SeatedLater(p: Policy, order: seq<Row>, n: nat, s: Session, k: Key)
    requires 0 < n <= |order| && SeatedBy(p, order, n - 1, s, k)
    ensures SeatedBy(p, order, n, s, k)
  {
  }

  lemma SeatedNow(p: Policy, order: seq<Row>, n: nat)
    requires 0 < n <= |order| && Role(order[n - 1].perms) != GUEST && p.secret(order[n - 1].pubKey).Some?
    ensures SeatedBy(p, order, n, Restored(p, order[n - 1]), order[n - 1].pubKey)
  {
  }

  /** Row i gets its seat when there is one left and its secret derives. */
  lemma {:induction false} LoadKeeps(p: Policy, order: seq<Row>, i: nat, n: nat)
    requires i < n <= |order|
    requires Role(order[i].perms) != GUEST && p.secret(order[i].pubKey).Some? && |LoadRows(p, order, i)| < p.capacity
    ensures order[i].pubKey in LoadRows(p, order, n)
    decreases n
  {
    hide Role;
    if i < n - 1 {
      LoadKeeps(p, order, i, n - 1);
    }
  }

  /** Each seat a load gives is a stored access entry, as it was stored. */
  lemma LoadedAgrees(p: Policy, rows: Rows, live: Live)
    requires p.durable && LoadedFrom(p, rows, live)
    ensures |live| <= Max(p.capacity, 0)
    ensures forall k :: k in live ==>
              && k in AccessRows(rows) && live[k].Persisted() == rows[k] && rows[k].pubKey == k
              && live[k].HasAccess() && live[k].pubKey == k && !live[k].active && !live[k].closed
              && p.secret(k) == Some(live[k].secret)
    ensures forall k :: k in rows ==> rows[k].pubKey == k
  {
    hide Role, LoadRows;
    var order: seq<Row>, n: nat :| LoadsInOrder(p, rows, order, n, live);
    LoadSeats(p, order, |order|);
    forall k | k in live
      ensures && k in AccessRows(rows) && live[k].Persisted() == rows[k] && rows[k].pubKey == k
              && live[k].HasAccess() && live[k].pubKey == k && !live[k].active && !live[k].closed
              && p.secret(k) == Some(live[k].secret)
    {
      assert SeatedBy(p, order, |order|, live[k], k);
    }
    forall k | k in rows ensures rows[k].pubKey == k {
      assert IsIn(order, k);
    }
  }

  /** A restart comes up mirrored, whatever the rows were. */
  lemma RestartSound(w: World, p: Policy, next: World)
    requires p.durable == w.policy.durable && LoadedFrom(p, w.rows, next.live)
    requires next == World(p, next.live, if p.durable then AccessRows(w.rows) else w.rows)
    ensures Sound(next)
  {
    hide Role;
    if p.durable {
      hide LoadedFrom;
      LoadedAgrees(p, w.rows, next.live);
    }
  }

  /** Every row a load must keep is seated, as long as its secret derives and it
      is no guest's; and the load is refused when there are too many. */
  lemma LoadSeatsRequired(p: Policy, rows: Rows, live: Live, k: Key)
    requires p.durable && p.required.Some? && LoadedFrom(p, rows, live)
    requires k in rows && p.Required(rows[k]) && Role(rows[k].perms) != GUEST && p.secret(k).Some?
    ensures k in live
  {
    hide Role, LoadRows;
    var order: seq<Row>, n: nat :| LoadsInOrder(p, rows, order, n, live);
    assert IsIn(order, k);
    var i :| 0 <= i < |order| && order[i].pubKey == k;
    assert i < n;
    LoadSeats(p, order, i);
    LoadKeeps(p, order, i, |order|);
  }

  /** When a load skips no row. */
  ghost predicate SkipsNothing(p: Policy, rows: Rows) {
    |AccessRows(rows)| <= p.capacity && forall k :: k in AccessRows(rows) ==> p.secret(k).Some?
  }

  lemma LoadSeatsAll(p: Policy, rows: Rows, live: Live, k: Key)
    requires p.durable && LoadedFrom(p, rows, live) && SkipsNothing(p, rows)
    requires k in AccessRows(rows)
    ensures k in live
  {
    hide Role, LoadRows;
    var order: seq<Row>, n: nat :| LoadsInOrder(p, rows, order, n, live);
    assert IsIn(order, k);
    var i :| 0 <= i < |order| && order[i].pubKey == k;
    SeatsBefore(p, rows, order, i);
    LoadKeeps(p, order, i, |order|);
  }

  /** Before an access row's turn there are fewer seats taken than access rows. */
  lemma SeatsBefore(p: Policy, rows: Rows, order: seq<Row>, i: nat)
    requires Enumerates(order, rows) && i < |order| && order[i].pubKey in AccessRows(rows)
    ensures |LoadRows(p, order, i)| < |AccessRows(rows)|
  {
    hide Role, LoadRows;
    LoadSeats(p, order, i);
    var live, k := LoadRows(p, order, i), order[i].pubKey;
    forall j | j in live ensures j in AccessRows(rows).Keys - {k} {
      assert SeatedBy(p, order, i, live[j], j);
    }
    SubsetSmaller(live.Keys, AccessRows(rows).Keys - {k});
    assert |live.Keys| == |live| && |AccessRows(rows).Keys| == |AccessRows(rows)|;
  }

  // ----- putting the required rows first -----

  /** The rows that are required, or those that are not, in the order they were
      in. */
  function Chosen(p: Policy, order: seq<Row>, n: nat, want: bool): seq<Row>
    requires n <= |order|
  {
    if n == 0 then []
    else Chosen(p, order, n - 1, want) + if p.Required(order[n - 1]) == want then [order[n - 1]] else []
  }

  lemma {:induction false} ChosenFrom(p: Policy, order: seq<Row>, n: nat, want: bool, a: nat) returns (j: nat)
    requires n <= |order| && a < |Chosen(p, order, n, want)|
    ensures j < n && Chosen(p, order, n, want)[a] == order[j] && p.Required(order[j]) == want
    decreases n
  {
    if a < |Chosen(p, order, n - 1, want)| {
      j := ChosenFrom(p, order, n - 1, want, a);
    } else {
      j := n - 1;
    }
  }

  lemma {:induction false} ChosenHas(p: Policy, order: seq<Row>, n: nat, j: nat)
    requires j < n <= |order|
    ensures order[j] in Chosen(p, order, n, p.Required(order[j]))
    decreases n
  {
    if j < n - 1 {
      ChosenHas(p, order, n - 1, j);
    }
  }

  ghost predicate DistinctIn(order: seq<Row>) {
    forall i, j :: 0 <= i < j < |order| ==> order[i].pubKey != order[j].pubKey
  }

  lemma {:induction false} ChosenListed(p: Policy, order: seq<Row>, n: nat, want: bool)
    requires n <= |order| && Listed(order) && DistinctIn(order)
    ensures Listed(Chosen(p, order, n, want)) && DistinctIn(Chosen(p, order, n, want))
    decreases n
  {
    hide SortsBefore, Policy.Required;
    if n > 0 {
      ChosenListed(p, order, n - 1, want);
      var before := Chosen(p, order, n - 1, want);
      forall a | 0 <= a < |before|
        ensures SortsBefore(before[a], order[n - 1]) && before[a].pubKey != order[n - 1].pubKey
      {
        var j := ChosenFrom(p, order, n - 1, want, a);
      }
    }
  }

  /** A stable sort by whether a row is required: the rows as a load takes them. */
  function RequiredThenOthers(p: Policy, order: seq<Row>): seq<Row> {
    Chosen(p, order, |order|, true) + Chosen(p, order, |order|, false)
  }

  lemma SortedForLoad(p: Policy, rows: Rows, order: seq<Row>)
    requires Enumerates(order, rows) && Listed(order)
    ensures |Chosen(p, order, |order|, true)| == |RequiredKeys(p, rows)|
    ensures FitsRequired(p, rows) ==> InLoadOrder(p, rows, RequiredThenOthers(p, order))
  {
    hide SortsBefore, Chosen, Policy.Required;
    var first, others := Chosen(p, order, |order|, true), Chosen(p, order, |order|, false);
    var sorted := RequiredThenOthers(p, order);
    ChosenListed(p, order, |order|, true);
    ChosenListed(p, order, |order|, false);
    SortedEnumerates(p, rows, order);
    RequiredAreFirst(p, rows, order);
    if FitsRequired(p, rows) {
      RequiredSplit(p, order);
      forall i, j | 0 <= i < j < |sorted| && p.Required(sorted[i]) == p.Required(sorted[j])
        ensures SortsBefore(sorted[i], sorted[j])
      {
        if j < |first| {
          assert SortsBefore(first[i], first[j]);
        } else if i >= |first| {
          assert SortsBefore(others[i - |first|], others[j - |first|]);
        }
      }
      NothingRequired(p);
      assert RequiredFirst(p, sorted, |first|);
    }
  }

  lemma NothingRequired(p: Policy)
    ensures p.required.None? ==> forall row :: !p.Required(row)
  {
  }

  lemma RequiredSplit(p: Policy, order: seq<Row>)
    ensures var sorted, n := RequiredThenOthers(p, order), |Chosen(p, order, |order|, true)|;
            && n <= |sorted|
            && (forall i :: 0 <= i < n ==> p.Required(sorted[i]))
            && (forall i :: n <= i < |sorted| ==> !p.Required(sorted[i]))
  {
    hide Chosen, Policy.Required;
    var first := Chosen(p, order, |order|, true);
    var sorted := RequiredThenOthers(p, order);
    forall i | 0 <= i < |sorted| ensures p.Required(sorted[i]) == (i < |first|) {
      if i < |first| {
        var at := ChosenFrom(p, order, |order|, true, i);
      } else {
        var at := ChosenFrom(p, order, |order|, false, i - |first|);
      }
    }
  }

  lemma SortedEnumerates(p: Policy, rows: Rows, order: seq<Row>)
    requires Enumerates(order, rows) && Listed(order)
    ensures Enumerates(RequiredThenOthers(p, order), rows)
  {
    hide SortsBefore, Chosen, Policy.Required;
    var n := |order|;
    var first, others := Chosen(p, order, n, true), Chosen(p, order, n, false);
    var sorted := RequiredThenOthers(p, order);
    ChosenListed(p, order, n, true);
    ChosenListed(p, order, n, false);
    forall i | 0 <= i < |sorted|
      ensures sorted[i].pubKey in rows && rows[sorted[i].pubKey] == sorted[i]
      ensures p.Required(sorted[i]) == (i < |first|)
    {
      if i < |first| {
        var j := ChosenFrom(p, order, n, true, i);
      } else {
        var j := ChosenFrom(p, order, n, false, i - |first|);
      }
    }
    forall i, j | 0 <= i < j < |sorted| ensures sorted[i].pubKey != sorted[j].pubKey {
      if j < |first| {
        assert first[i].pubKey != first[j].pubKey;
      } else if i >= |first| {
        assert others[i - |first|].pubKey != others[j - |first|].pubKey;
      }
    }
    forall k | k in rows ensures IsIn(sorted, k) {
      assert IsIn(order, k);
      var j :| 0 <= j < n && order[j].pubKey == k;
      ChosenHas(p, order, n, j);
      assert order[j] in sorted;
    }
  }

  lemma RequiredAreFirst(p: Policy, rows: Rows, order: seq<Row>)
    requires Enumerates(order, rows) && Listed(order)
    ensures |Chosen(p, order, |order|, true)| == |RequiredKeys(p, rows)|
  {
    hide SortsBefore, Chosen, Policy.Required;
    var n := |order|;
    var first := Chosen(p, order, n, true);
    ChosenListed(p, order, n, true);
    DistinctKeys(first, |first|);
    forall k | k in RequiredKeys(p, rows) ensures k in KeysOf(first, |first|) {
      assert IsIn(order, k);
      var j :| 0 <= j < n && order[j].pubKey == k;
      ChosenHas(p, order, n, j);
    }
    forall k | k in KeysOf(first, |first|) ensures k in RequiredKeys(p, rows) {
      var a :| 0 <= a < |first| && first[a].pubKey == k;
      var j := ChosenFrom(p, order, n, true, a);
    }
    assert KeysOf(first, |first|) == RequiredKeys(p, rows);
  }

  // ----- when the older is listed first -----

  /** Both in one second, the older's digits the beginning of the newer's. */
  predicate OlderFirst(older: int, newer: int) {
    older / SECOND == newer / SECOND && Fraction(older) <= Fraction(newer)
  }

  /** The order of the listing, read off the instants: the newer first, but for
      the pairs above; then by key. */
  predicate ListedFirst(x: Row, y: Row) {
    if x.lastActive == y.lastActive then Before(x.pubKey, y.pubKey)
    else if x.lastActive < y.lastActive then OlderFirst(x.lastActive, y.lastActive)
    else !OlderFirst(y.lastActive, x.lastActive)
  }

  predicate PowerOfTen(unit: nat) {
    unit == 1 || (unit >= 10 && unit % 10 == 0 && PowerOfTen(unit / 10))
  }

  /** How two numbers compare by their first digit and what is left of them. */
  lemma FirstDigit(a: nat, b: nat, unit: nat)
    requires a < b < 10 * unit
    ensures 0 <= a / unit <= b / unit < 10
    ensures a / unit == b / unit ==> a % unit < b % unit
  {
    var q, r := a / unit, b / unit;
    assert a == q * unit + a % unit && b == r * unit + b % unit;
    assert (r + 1) * unit == r * unit + unit;
    Times(q, r + 1, unit);
    Times(r, 10, unit);
  }

  lemma Times(q: int, r: int, unit: nat)
    requires unit > 0
    ensures q * unit < r * unit <==> q < r
  {
    assert (r - q) * unit == r * unit - q * unit;
  }

  lemma BeforeByHead(g: int, x: seq<int>, h: int, y: seq<int>)
    ensures Before([g] + x, [h] + y) <==> g < h || (g == h && Before(x, y))
  {
    assert ([g] + x)[1..] == x && ([h] + y)[1..] == y;
  }

  lemma PrefixByHead(g: int, x: seq<int>, h: int, y: seq<int>)
    ensures [g] + x <= [h] + y <==> g == h && x <= y
  {
    assert ([g] + x)[1..] == x && ([h] + y)[1..] == y;
    if [g] + x <= [h] + y {
      assert ([h] + y)[..|x| + 1] == [g] + x;
      assert y[..|x|] == ([h] + y)[..|x| + 1][1..];
      assert ([h] + y)[0] == ([g] + x)[0];
    }
  }

  /** Of two fractions the greater's text ends up before the lesser's, the end
      mark being past every digit, exactly when it begins with it. */
  lemma {:induction false} LesserLater(a: nat, b: nat, unit: nat)
    requires PowerOfTen(unit) && a < b < 10 * unit
    ensures Before(Digits(b, unit) + [ZULU], Digits(a, unit) + [ZULU]) <==> Digits(a, unit) <= Digits(b, unit)
    ensures Digits(a, unit) != Digits(b, unit)
    decreases unit
  {
    hide Before, PowerOfTen;
    FirstDigit(a, b, unit);
    var g, y := 0x30 + b / unit, Digits(b % unit, unit / 10);
    assert Digits(b, unit) == [g] + y && [g] + y + [ZULU] == [g] + (y + [ZULU]);
    if a == 0 {
      BeforeByHead(g, y + [ZULU], ZULU, []);
      assert [] + [ZULU] == [ZULU] + [];
    } else {
      var h, x := 0x30 + a / unit, Digits(a % unit, unit / 10);
      assert Digits(a, unit) == [h] + x && [h] + x + [ZULU] == [h] + (x + [ZULU]);
      BeforeByHead(g, y + [ZULU], h, x + [ZULU]);
      PrefixByHead(h, x, g, y);
      if a / unit == b / unit {
        SmallerUnit(unit);
        LesserLater(a % unit, b % unit, unit / 10);
        assert ([h] + x)[1..] == x && ([g] + y)[1..] == y;
      }
    }
  }

  lemma SmallerUnit(unit: nat)
    requires PowerOfTen(unit) && unit > 1
    ensures PowerOfTen(unit / 10) && unit == 10 * (unit / 10)
  {
  }

  lemma NanosecondsAreDigits()
    ensures PowerOfTen(SECOND / 10)
  {
    assert PowerOfTen(100);
    assert PowerOfTen(10_000);
    assert PowerOfTen(1_000_000);
  }

  /** Of two instants the older is listed first exactly when both fall in one
      second and its fraction, trailing zeros dropped, begins the newer's. */
  lemma OlderFirstExactly(s: int, t: int)
    requires s < t
    ensures Before(Stamp(t), Stamp(s)) <==> OlderFirst(s, t)
    ensures Stamp(s) != Stamp(t)
  {
    hide Before, Digits, PowerOfTen;
    var a, b := s % SECOND, t % SECOND;
    var x, y := StampRest(s), StampRest(t);
    StampByHead(s);
    StampByHead(t);
    BeforeByHead(t / SECOND, y, s / SECOND, x);
    assert Stamp(s)[0] == s / SECOND && Stamp(t)[0] == t / SECOND;
    if s / SECOND == t / SECOND {
      SameSecond(s, t);
      assert Stamp(s)[1..] == x && Stamp(t)[1..] == y;
    }
  }

  /** A stamp past its second. */
  function StampRest(t: int): seq<int> {
    if t % SECOND == 0 then [ZULU] else [POINT] + (Fraction(t) + [ZULU])
  }

  lemma StampByHead(t: int)
    ensures Stamp(t) == [t / SECOND] + StampRest(t)
  {
  }

  lemma SameSecond(s: int, t: int)
    requires s < t && s / SECOND == t / SECOND
    ensures Before(StampRest(t), StampRest(s)) <==> Fraction(s) <= Fraction(t)
    ensures StampRest(s) != StampRest(t)
  {
    hide Before, PowerOfTen;
    var y := Fraction(t) + [ZULU];
    if s % SECOND == 0 {
      BeforeByHead(POINT, y, ZULU, []);
      assert [ZULU] + [] == [ZULU];
    } else {
      hide Digits;
      var x := Fraction(s) + [ZULU];
      NanosecondsAreDigits();
      LesserLater(s % SECOND, t % SECOND, SECOND / 10);
      BeforeByHead(POINT, y, POINT, x);
      assert x[..|x| - 1] == Fraction(s) && y[..|y| - 1] == Fraction(t);
      assert ([POINT] + x)[1..] == x && ([POINT] + y)[1..] == y;
    }
  }

  lemma SortsBySecond(x: Row, y: Row)
    requires SortsBefore(x, y)
    ensures x.lastActive / SECOND >= y.lastActive / SECOND
  {
    assert Stamp(x.lastActive)[0] == x.lastActive / SECOND && Stamp(y.lastActive)[0] == y.lastActive / SECOND;
  }

  /** So the listing is known from the instants alone. */
  lemma SortsExactly(x: Row, y: Row)
    ensures SortsBefore(x, y) <==> ListedFirst(x, y)
  {
    hide Before, Stamp, OlderFirst;
    if x.lastActive < y.lastActive {
      OlderFirstExactly(x.lastActive, y.lastActive);
    } else if y.lastActive < x.lastActive {
      OlderFirstExactly(y.lastActive, x.lastActive);
      BeforeTotal(Stamp(x.lastActive), Stamp(y.lastActive));
      if Before(Stamp(x.lastActive), Stamp(y.lastActive)) {
        BeforeAntisymmetric(Stamp(x.lastActive), Stamp(y.lastActive));
      }
    } else {
      BeforeItself(Stamp(x.lastActive));
    }
  }

  lemma BeforeItself(a: seq<int>)
    ensures !Before(a, a)
  {
    hide Before;
    if Before(a, a) {
      BeforeAntisymmetric(a, a);
    }
  }

  /** Such a pair: half a second past is listed before fifty-one hundredths. */
  lemma WithinASecondTextDecides(x: Row, y: Row)
    requires x.lastActive == 500_000_000 && y.lastActive == 510_000_000
    ensures x.lastActive < y.lastActive && SortsBefore(x, y)
  {
    hide SortsBefore;
    assert Digits(500_000_000, 100_000_000) == [0x35];
    assert Digits(510_000_000, 100_000_000) == [0x35, 0x31] by {
      assert Digits(10_000_000, 10_000_000) == [0x31];
    }
    SortsExactly(x, y);
  }

  // ----- which rows a full table keeps -----

  lemma {:induction false} LoadStops(p: Policy, order: seq<Row>, i: nat, n: nat)
    requires i <= n <= |order| && |LoadRows(p, order, i)| >= p.capacity
    ensures LoadRows(p, order, n) == LoadRows(p, order, i)
    decreases n
  {
    hide Role, Restored;
    if i < n {
      LoadStops(p, order, i, n - 1);
    }
  }

  /** A row that could have been seated and was not gave way to every seated row
      that nothing required: each of those is listed first, and so was active
      later, or within the same second with a fraction the other's goes on from. */
  lemma FreshestAreKept(p: Policy, rows: Rows, live: Live, j: Key, k: Key)
    requires p.durable && LoadedFrom(p, rows, live)
    requires j in live && k in AccessRows(rows) && k !in live && p.secret(k).Some?
    ensures j in rows && (!p.Required(rows[j]) ==>
              && !p.Required(rows[k]) && ListedFirst(rows[j], rows[k])
              && rows[j].lastActive / SECOND >= rows[k].lastActive / SECOND)
  {
    hide Role, LoadRows, SortsBefore, ListedFirst;
    LoadedAgrees(p, rows, live);
    var order: seq<Row>, n: nat :| LoadsInOrder(p, rows, order, n, live);
    assert IsIn(order, k);
    var at :| 0 <= at < |order| && order[at].pubKey == k;
    if |LoadRows(p, order, at)| < p.capacity {
      LoadKeeps(p, order, at, |order|);
    }
    LoadStops(p, order, at, |order|);
    LoadSeats(p, order, at);
    assert SeatedBy(p, order, at, live[j], j);
    var before :| 0 <= before < at && order[before].pubKey == j;
    if !p.Required(rows[j]) {
      assert before >= n;
      assert SortsBefore(order[before], order[at]);
      SortsBySecond(order[before], order[at]);
      SortsExactly(order[before], order[at]);
    }
  }

  lemma RowsAscend(x: Row, y: Row, z: Row)
    requires SortsBefore(x, y) && SortsBefore(y, z)
    ensures SortsBefore(x, z)
  {
    hide Before, Stamp;
    var a, b, c := Stamp(x.lastActive), Stamp(y.lastActive), Stamp(z.lastActive);
    if Before(c, b) && Before(b, a) {
      BeforeTransitive(c, b, a);
    } else if a == b == c {
      BeforeTransitive(x.pubKey, y.pubKey, z.pubKey);
    }
  }

  lemma RowListed(order: seq<Row>, row: Row, at: nat)
    requires Listed(order) && at <= |order| && forall i :: 0 <= i < |order| ==> order[i].pubKey != row.pubKey
    requires at > 0 ==> SortsBefore(order[at - 1], row)
    requires at < |order| ==> !SortsBefore(order[at], row)
    ensures Listed(order[..at] + [row] + order[at..])
  {
    hide SortsBefore;
    var more := order[..at] + [row] + order[at..];
    forall i | 0 <= i < at ensures SortsBefore(order[i], row) {
      if i < at - 1 {
        RowsAscend(order[i], order[at - 1], row);
      }
    }
    forall j | at <= j < |order| ensures SortsBefore(row, order[j]) {
      RowsTotal(row, order[at]);
      if at < j {
        RowsAscend(row, order[at], order[j]);
      }
    }
    forall i, j | 0 <= i < j < |more| ensures SortsBefore(more[i], more[j]) {
      assert more[i] == if i < at then order[i] else if i == at then row else order[i - 1];
      assert more[j] == if j < at then order[j] else if j == at then row else order[j - 1];
    }
  }

  lemma RowsTotal(x: Row, y: Row)
    requires x.pubKey != y.pubKey
    ensures SortsBefore(x, y) || SortsBefore(y, x)
  {
    hide Before, Stamp;
    BeforeTotal(Stamp(x.lastActive), Stamp(y.lastActive));
    BeforeTotal(x.pubKey, y.pubKey);
  }

  lemma {:induction false} DistinctKeys(order: seq<Row>, n: nat)
    requires n <= |order| && forall i, j :: 0 <= i < j < |order| ==> order[i].pubKey != order[j].pubKey
    ensures |KeysOf(order, n)| == n
    decreases n
  {
    if n > 0 {
      DistinctKeys(order, n - 1);
      assert KeysOf(order, n) == KeysOf(order, n - 1) + {order[n - 1].pubKey};
      assert order[n - 1].pubKey !in KeysOf(order, n - 1);
    }
  }

  ghost function KeysOf(order: seq<Row>, n: nat): set<Key>
    requires n <= |order|
  {
    set i | 0 <= i < n :: order[i].pubKey
  }

  // ----- every step -----

  /** Everything a step keeps, in one place. */
  lemma StepSound(w: World, e: Event, next: World)
    requires Step(w, e, next) && Sound(w)
    ensures Sound(next)
    ensures Exact(w) && (e.Restarted? ==> SkipsNothing(e.policy, w.rows)) ==> Exact(next)
  {
    hide Sound, Exact, LoadedFrom, SkipsNothing, AdmitOf, Stamped, Promoted, Role, ExpiredLive, AccessRows, Consume;
    match e
    case Refused =>
    case LoggedIn(k, password, ts, now, flooded) =>
      var a := AdmitOf(Get(w.live, k), k, w.policy.secret(k).value, password, ts, now, w.policy.doors);
      SeatsSound(w, Stamped(a.session, ts, now, w.policy.asks, flooded), next);
    case Granted(k, perms, now) =>
      SeatsSound(w, Promoted(w.policy, w.live, k, perms, now, w.policy.secret(k).value), next);
    case Removed(k) =>
      DroppedSound(w, k);
    case Expired(now, idle) =>
      ExpiredSound(w, now, idle);
    case Restarted(p) =>
      RestartSound(w, p, next);
      if SkipsNothing(p, w.rows) {
        RestartExact(w, p, next);
      }
    case Charged(k, now) =>
      SoundKeys(w, k);
      TouchedSound(w, w.live[k].(asks := Consume(w.live[k].asks, now).0));
    case Asked(k, door, ts, now) =>
      SoundKeys(w, k);
      KeptSound(w, AskedSession(w.live[k], door, ts, now));
    case Closed(k) =>
      SoundKeys(w, k);
      if w.live[k].HasAccess() {
        KeptSound(w, Closing(w.live[k]));
      } else {
        GuestDroppedSound(w, k);
      }
    case Learned(k, route, now, saved) =>
      SoundKeys(w, k);
      var s := w.live[k].(out := Some(route), lastActive := now, active := true);
      if saved {
        KeptSound(w, s);
      } else {
        TouchedSound(w, s);
      }
  }

  // ----- routes the disk has not heard of -----

  /** What an event does to the routes the disk lacks: a learned route it refused
      is one more; every event that writes a key's row settles it, and a restart
      settles all. */
  function StaleAfter(e: Event, stale: set<Key>): set<Key> {
    match e
    case Learned(k, _, _, saved) => if saved then stale - {k} else stale + {k}
    case LoggedIn(k, _, _, _, _) => stale - {k}
    case Asked(k, _, _, _) => stale - {k}
    case Granted(k, _, _) => stale - {k}
    case Closed(k) => stale - {k}
    case Removed(k) => stale - {k}
    case Restarted(_) => {}
    case _ => stale
  }

  lemma SeatsFresh(w: World, c: Session, next: World, stale: set<Key>)
    requires Seats(w, c, next) && Fresh(w, stale)
    ensures Fresh(next, stale - {c.pubKey})
  {
    hide SeatsOver, Fresh;
    var victim :| SeatsOver(w, c, victim, next);
    SeatedFresh(w, c, victim, next, stale);
  }

  lemma SeatedFresh(w: World, c: Session, victim: Option<Key>, next: World, stale: set<Key>)
    requires SeatsOver(w, c, victim, next) && Fresh(w, stale)
    ensures Fresh(next, stale - {c.pubKey})
  {
    hide IsVictim, Role, Session.Persisted, Session.HasAccess, SeatedRows;
    SamePubKey(c);
    if victim.Some? {
      VictimSeated(w.policy, w.live, c, victim.value);
    }
    forall k | w.policy.durable && k in next.live && next.live[k].HasAccess() && k !in stale - {c.pubKey}
      ensures k in next.rows && next.rows[k] == next.live[k].Persisted()
    {
      SeatedRow(w, c, victim, k);
    }
  }

  /** One key's row after a seating: the newcomer's own, or as it was. */
  lemma SeatedRow(w: World, c: Session, victim: Option<Key>, k: Key)
    requires w.policy.durable && MakesRoom(w.policy, w.live, c, victim) && k in SeatedLive(w.live, c, victim)
    requires SeatedLive(w.live, c, victim)[k].HasAccess()
    ensures victim.Some? ==> victim.value in w.live
    ensures var rows := SeatedRows(w.policy, w.live, w.rows, c, victim);
            if k == c.pubKey then k in rows && rows[k] == c.Persisted()
            else (k in rows <==> k in w.rows) && (k in w.rows ==> rows[k] == w.rows[k])
  {
    hide IsVictim, Role, Session.Persisted, Session.HasAccess;
    SamePubKey(c);
    if victim.Some? {
      VictimSeated(w.policy, w.live, c, victim.value);
    }
  }

  lemma SamePubKey(s: Session)
    ensures s.Persisted().pubKey == s.pubKey
  {
  }

  lemma KeptFresh(w: World, s: Session, stale: set<Key>)
    requires Fresh(w, stale)
    ensures Fresh(Kept(w, s), stale - {s.pubKey})
  {
    hide Role, Session.Persisted, Session.HasAccess;
  }

  lemma TouchedFresh(w: World, s: Session, stale: set<Key>)
    requires Fresh(w, stale) && s.pubKey in w.live && s.HasAccess() == w.live[s.pubKey].HasAccess()
    ensures Fresh(w.(live := w.live[s.pubKey := s]), stale + {s.pubKey})
    ensures s.Persisted() == w.live[s.pubKey].Persisted() ==> Fresh(w.(live := w.live[s.pubKey := s]), stale)
  {
    hide Role, Session.Persisted, Session.HasAccess;
  }

  lemma DroppedFresh(w: World, k: Key, stale: set<Key>)
    requires Fresh(w, stale)
    ensures Fresh(Dropped(w, k), stale - {k}) && Fresh(w.(live := w.live - {k}), stale - {k})
  {
    hide Role, Session.Persisted, Session.HasAccess;
  }

  lemma ExpiredFresh(w: World, now: int, idle: int, stale: set<Key>)
    requires Fresh(w, stale)
    ensures Fresh(w.(live := ExpiredLive(w.live, now, idle)), stale)
  {
    hide Role, Due;
  }

  lemma RestartFresh(w: World, p: Policy, next: World)
    requires p.durable == w.policy.durable && LoadedFrom(p, w.rows, next.live)
    requires next == World(p, next.live, if p.durable then AccessRows(w.rows) else w.rows)
    ensures Fresh(next, {})
  {
    hide Role;
    if p.durable {
      hide LoadedFrom;
      LoadedAgrees(p, w.rows, next.live);
    }
  }

  /** The keys whose row may lag behind, after one more event. */
  lemma StepFresh(w: World, e: Event, next: World, stale: set<Key>)
    requires Step(w, e, next) && Sound(w) && Fresh(w, stale)
    ensures Fresh(next, StaleAfter(e, stale))
  {
    hide Sound, Fresh, LoadedFrom, AdmitOf, Role, ExpiredLive, AccessRows, Consume, Seats;
    match e
    case Refused =>
    case LoggedIn(k, password, ts, now, flooded) =>
      var a := AdmitOf(Get(w.live, k), k, w.policy.secret(k).value, password, ts, now, w.policy.doors);
      LoginKey(w, k, w.policy.secret(k).value, password, ts, now);
      SeatsFresh(w, Stamped(a.session, ts, now, w.policy.asks, flooded), next, stale);
    case Granted(k, perms, now) =>
      if k in w.live {
        SoundKeys(w, k);
      }
      SeatsFresh(w, Promoted(w.policy, w.live, k, perms, now, w.policy.secret(k).value), next, stale);
    case Removed(k) =>
      DroppedFresh(w, k, stale);
    case Expired(now, idle) =>
      ExpiredFresh(w, now, idle, stale);
    case Restarted(p) =>
      RestartFresh(w, p, next);
    case Charged(k, now) =>
      SoundKeys(w, k);
      TouchedFresh(w, w.live[k].(asks := Consume(w.live[k].asks, now).0), stale);
    case Asked(k, door, ts, now) =>
      SoundKeys(w, k);
      KeptFresh(w, AskedSession(w.live[k], door, ts, now), stale);
    case Closed(k) =>
      SoundKeys(w, k);
      if w.live[k].HasAccess() {
        KeptFresh(w, Closing(w.live[k]), stale);
      } else {
        DroppedFresh(w, k, stale);
      }
    case Learned(k, route, now, saved) =>
      SoundKeys(w, k);
      var s := w.live[k].(out := Some(route), lastActive := now, active := true);
      if saved {
        KeptFresh(w, s, stale);
      } else {
        TouchedFresh(w, s, stale);
      }
  }

  lemma LoginKey(w: World, k: Key, secret: seq<Byte>, password: string, ts: nat, now: int)
    requires Sound(w)
    ensures var a := AdmitOf(Get(w.live, k), k, secret, password, ts, now, w.policy.doors);
            a.Admitted? ==> a.session.pubKey == k && (k in w.live ==> w.live[k].lastTimestamp < ts)
  {
    hide AdmitOf;
    if k in w.live {
      SoundKeys(w, k);
    }
    AdmittedPasses(w.live, k, secret, password, ts, now, w.policy.doors);
  }

  /** And a refused route does make the row lag, unless it was the very route,
      taught at the very instant, that the row already held. */
  lemma UnsavedIsStale(w: World, k: Key, route: Route, now: int, next: World)
    requires Step(w, Learned(k, route, now, false), next) && w.policy.durable
    requires Held(w, k) && k in w.rows && w.rows[k] == w.live[k].Persisted()
    ensures k in next.rows && k in next.live
    ensures next.rows[k] == next.live[k].Persisted() <==> w.live[k].out == Some(route) && w.live[k].lastActive == now
  {
    hide Role;
  }

  lemma SoundKeys(w: World, k: Key)
    requires Sound(w) && k in w.live
    ensures w.live[k].pubKey == k
  {
  }

  lemma SeatsSound(w: World, c: Session, next: World)
    requires Seats(w, c, next) && Sound(w)
    ensures Sound(next) && (Exact(w) ==> Exact(next))
  {
    hide SeatsOver, Mirrored, Keyed, Bounded, Exact;
    var victim :| SeatsOver(w, c, victim, next);
    SeatedMirrored(w, c, victim, next);
    SeatedKeyed(w, c, victim, next);
    SeatedBounded(w, c, victim, next);
    if Exact(w) {
      SeatedExact(w, c, victim, next);
    }
  }

  lemma RestartExact(w: World, p: Policy, next: World)
    requires p.durable == w.policy.durable && LoadedFrom(p, w.rows, next.live) && SkipsNothing(p, w.rows)
    requires next == World(p, next.live, if p.durable then AccessRows(w.rows) else w.rows)
    ensures Exact(next)
  {
    hide LoadedFrom, SkipsNothing, Role;
    if p.durable {
      LoadedAgrees(p, w.rows, next.live);
      forall k | k in next.rows ensures k in next.live && next.live[k].HasAccess() {
        LoadSeatsAll(p, w.rows, next.live, k);
      }
    }
  }

  // ----- whole runs -----

  ghost predicate Run(ws: seq<World>, es: seq<Event>) {
    |ws| == |es| + 1 && forall i :: 0 <= i < |es| ==> Step(ws[i], es[i], ws[i + 1])
  }

  /** Through any run, with any call refused anywhere, each live access entry has
      its row, with its role, its grant and its replay guard. If no load skipped
      a row the stored rows are exactly the live access entries'. */
  lemma {:induction false} RunSound(ws: seq<World>, es: seq<Event>, n: nat)
    requires Run(ws, es) && n <= |es| && Sound(ws[0])
    ensures Sound(ws[n])
    ensures Exact(ws[0]) && (forall i :: 0 <= i < n && es[i].Restarted? ==> SkipsNothing(es[i].policy, ws[i].rows)) ==>
              Exact(ws[n])
    decreases n
  {
    hide Step, Sound, Exact, SkipsNothing;
    if n > 0 {
      RunSound(ws, es, n - 1);
      StepSound(ws[n - 1], es[n - 1], ws[n]);
    }
  }

  function StaleOver(es: seq<Event>, n: nat, stale: set<Key>): set<Key>
    requires n <= |es|
  {
    if n == 0 then stale else StaleAfter(es[n - 1], StaleOver(es, n - 1, stale))
  }

  /** And the row is the entry's whole persisted form, for every key but the stale
      ones. */
  lemma {:induction false} RunFresh(ws: seq<World>, es: seq<Event>, n: nat, stale: set<Key>)
    requires Run(ws, es) && n <= |es| && Sound(ws[0]) && Fresh(ws[0], stale)
    ensures Fresh(ws[n], StaleOver(es, n, stale))
    decreases n
  {
    hide Step, Sound, Fresh, StaleAfter;
    if n > 0 {
      RunFresh(ws, es, n - 1, stale);
      RunSound(ws, es, n - 1);
      StepFresh(ws[n - 1], es[n - 1], ws[n], StaleOver(es, n - 1, stale));
    }
  }

  /** An event after which the row is the entry's again, or there is no entry. */
  predicate Settles(e: Event, k: Key) {
    match e
    case Learned(j, _, _, saved) => j == k && saved
    case Restarted(_) => true
    case Refused => false
    case Charged(_, _) => false
    case Expired(_, _) => false
    case _ => e.k == k
  }

  predicate Unsaved(e: Event, k: Key) {
    e.Learned? && e.k == k && !e.saved
  }

  /** The stale keys are exactly those whose last learned route was refused by the
      disk, with nothing settling them since. One evicted meanwhile stays among
      them, with neither an entry nor a row. */
  lemma {:induction false} StaleMeans(es: seq<Event>, n: nat, k: Key)
    requires n <= |es|
    ensures k in StaleOver(es, n, {}) <==>
              exists i :: 0 <= i < n && Unsaved(es[i], k) && forall j :: i < j < n ==> !Settles(es[j], k)
    decreases n
  {
    if n > 0 {
      StaleMeans(es, n - 1, k);
      if Unsaved(es[n - 1], k) {
        assert k in StaleOver(es, n, {});
      } else if k in StaleOver(es, n - 1, {}) && !Settles(es[n - 1], k) {
        var i :| 0 <= i < n - 1 && Unsaved(es[i], k) && forall j :: i < j < n - 1 ==> !Settles(es[j], k);
        assert Unsaved(es[i], k) && forall j :: i < j < n ==> !Settles(es[j], k);
      }
    }
  }

  // ----- crash and restart -----

  /** What of the live table must outlive a restart. */
  ghost function DurablePart(live: Live): Rows {
    map k | k in live && live[k].HasAccess() :: live[k].Persisted()
  }

  datatype Standing = Standing(perms: bv8, granted: bool, guard: nat)

  ghost function StandingOf(rows: Rows): map<Key, Standing> {
    map k | k in rows :: Standing(rows[k].perms, rows[k].granted, rows[k].lastTimestamp)
  }

  /** In an exact state the rows are the live access entries': the same keys, the
      same standings, and for every key that is not stale the same whole form. */
  lemma RowsAreLive(w: World, stale: set<Key>)
    requires w.policy.durable && Sound(w) && Fresh(w, stale) && Exact(w)
    ensures Rebuilds(w.rows, w.live, stale)
  {
    hide Role;
  }

  /** Rows that stand for these live entries, whole but for the stale keys' routes
      and activity. */
  ghost predicate Rebuilds(rows: Rows, live: Live, stale: set<Key>) {
    var durable := DurablePart(live);
    && rows.Keys == durable.Keys
    && StandingOf(rows) == StandingOf(durable)
    && forall k :: k in rows && k !in stale ==> rows[k] == durable[k]
  }

  lemma AccessRowsAll(w: World)
    requires w.policy.durable && Keyed(w)
    ensures AccessRows(w.rows) == w.rows
  {
    hide Role;
  }

  /** What a restart rebuilds from the rows it finds. */
  lemma LoadRebuilds(p: Policy, rows: Rows, live: Live)
    requires p.durable && LoadedFrom(p, rows, live) && SkipsNothing(p, rows)
    ensures DurablePart(live) == AccessRows(rows) && live.Keys == AccessRows(rows).Keys
  {
    hide LoadedFrom, SkipsNothing, Role;
    LoadedAgrees(p, rows, live);
    forall k | k in AccessRows(rows) ensures k in live {
      LoadSeatsAll(p, rows, live, k);
    }
  }

  /** A crash at any point of any step, in a store no load has skipped rows of,
      leaves the rows from before it or from after it; and the next load rebuilds
      exactly the access entries there then were, each with its role, its grant
      and its replay guard, and with its route too unless it is stale. */
  lemma CrashRebuilds(w: World, e: Event, next: World, stale: set<Key>, rows: Rows, p: Policy, live: Live)
    requires Step(w, e, next) && Sound(w) && Fresh(w, stale) && Exact(w) && w.policy.durable
    requires e.Restarted? ==> SkipsNothing(e.policy, w.rows)
    requires rows == w.rows || rows == next.rows
    requires p.durable && LoadedFrom(p, rows, live) && SkipsNothing(p, rows)
    ensures || Rebuilds(DurablePart(live), w.live, stale)
            || Rebuilds(DurablePart(live), next.live, StaleAfter(e, stale))
  {
    hide Step, Sound, Fresh, Exact, LoadedFrom, SkipsNothing, DurablePart, Keyed, Rebuilds, StaleAfter;
    StepPolicy(w, e, next);
    LoadRebuilds(p, rows, live);
    SoundIsKeyed(w);
    if rows == w.rows {
      AccessRowsAll(w);
      RowsAreLive(w, stale);
    } else {
      StepSound(w, e, next);
      StepFresh(w, e, next, stale);
      SoundIsKeyed(next);
      AccessRowsAll(next);
      RowsAreLive(next, StaleAfter(e, stale));
    }
  }

  /** Whatever loads have skipped, and whatever this one skips: a key it seats
      has the standing it had before the step in flight or after it — and its
      route, unless it is stale. */
  lemma CrashKeepsKey(w: World, e: Event, next: World, stale: set<Key>, rows: Rows, p: Policy, live: Live, k: Key)
    requires Step(w, e, next) && Sound(w) && Fresh(w, stale) && w.policy.durable
    requires p.durable && LoadedFrom(p, rows, live) && k in live
    ensures rows == w.rows && Held(w, k) ==>
              && SameStanding(live[k].Persisted(), w.live[k])
              && (k !in stale ==> live[k].Persisted() == w.live[k].Persisted())
    ensures rows == next.rows && Held(next, k) ==>
              && SameStanding(live[k].Persisted(), next.live[k])
              && (k !in StaleAfter(e, stale) ==> live[k].Persisted() == next.live[k].Persisted())
  {
    hide Step, LoadedFrom, Role, StaleAfter, Bounded, Keyed;
    StepPolicy(w, e, next);
    LoadedAgrees(p, rows, live);
    StepSound(w, e, next);
    StepFresh(w, e, next, stale);
  }

  /** And a held key whose secret still derives does come back, unless every place
      was taken by rows before it. */
  lemma CrashSeatsKey(w: World, rows: Rows, p: Policy, live: Live, k: Key)
    requires Sound(w) && w.policy.durable && Held(w, k) && rows == w.rows
    requires p.durable && LoadedFrom(p, rows, live) && p.secret(k).Some?
    ensures k in live || |live| >= p.capacity
  {
    hide LoadedFrom, Role, Bounded;
    if |live| < p.capacity {
      LoadSeatsWithRoom(p, rows, live, k);
    }
  }

  lemma SoundIsKeyed(w: World)
    requires Sound(w)
    ensures Keyed(w)
  {
  }

  lemma StepPolicy(w: World, e: Event, next: World)
    requires Step(w, e, next)
    ensures next.policy.durable == w.policy.durable
    ensures !e.Restarted? ==> next.policy == w.policy
  {
    hide AdmitOf, Stamped, Promoted, LoadedFrom, ExpiredLive, IsVictim;
  }

  /** Under one policy a load skips nothing of an exact store: only a key whose
      secret no longer derives can be missing. */
  lemma ExactFits(w: World)
    requires w.policy.durable && Sound(w) && Exact(w) && w.policy.capacity >= 0
    ensures SkipsNothing(w.policy, w.rows) <==> forall k :: k in w.rows ==> w.policy.secret(k).Some?
  {
    hide Role, AccessRows;
    AccessRowsAll(w);
    assert w.rows.Keys <= w.live.Keys;
    SubsetSmaller(w.rows.Keys, w.live.Keys);
    assert |w.rows.Keys| == |w.rows| && |w.live.Keys| == |w.live|;
  }

  // ----- replay -----

  /** An event in which a signed timestamp of `k` moved its guard. */
  predicate Moves(e: Event, k: Key, ts: nat) {
    (e.LoggedIn? || e.Asked?) && e.k == k && e.ts == ts
  }

  /** And one in which the node acted on it and may not again: a login, a relay's
      request, or a relay's command line, which runs only past the guard. */
  predicate Acts(w: World, e: Event, k: Key, ts: nat) {
    && Moves(e, k, ts)
    && (e.Asked? ==> e.door.RelayRequest? || (e.door.RelayCommand? && k in w.live && ts > w.live[k].lastTimestamp))
  }

  ghost predicate Held(w: World, k: Key) {
    k in w.live && w.live[k].HasAccess()
  }

  lemma SeatsGuard(w: World, c: Session, next: World, k: Key)
    requires Seats(w, c, next) && k in next.live
    ensures next.live[k] == if k == c.pubKey then c else if k in w.live then w.live[k] else c
    ensures k == c.pubKey || k in w.live
    ensures c.pubKey in next.live
  {
    hide IsVictim, SeatedRows;
  }

  /** While a key is seated its guard never falls, whatever happens — across a
      restart as long as it was an access entry; no timestamp moves it back, and
      one acts only by passing it. */
  lemma GuardForward(w: World, e: Event, next: World, k: Key)
    requires Step(w, e, next) && Sound(w) && k in w.live && k in next.live
    requires e.Restarted? ==> Held(w, k)
    ensures next.live[k].lastTimestamp >= w.live[k].lastTimestamp
    ensures forall ts :: Moves(e, k, ts) ==> w.live[k].lastTimestamp <= ts
    ensures forall ts :: Acts(w, e, k, ts) ==> w.live[k].lastTimestamp < ts
  {
    hide Seats, LoadedFrom, Role, Skewed, Consume;
    match e
    case LoggedIn(j, password, ts, now, flooded) =>
      var a := AdmitOf(Get(w.live, j), j, w.policy.secret(j).value, password, ts, now, w.policy.doors);
      AdmittedPasses(w.live, j, w.policy.secret(j).value, password, ts, now, w.policy.doors);
      SeatsGuard(w, Stamped(a.session, ts, now, w.policy.asks, flooded), next, k);
      SoundKeys(w, k);
    case Granted(j, perms, now) =>
      SeatsGuard(w, Promoted(w.policy, w.live, j, perms, now, w.policy.secret(j).value), next, k);
      SoundKeys(w, k);
    case Restarted(p) =>
      RestartGuard(w, p, next, k);
    case Learned(j, route, now, saved) =>
      SoundKeys(w, j);
    case Asked(j, door, ts, now) =>
      SoundKeys(w, j);
    case Closed(j) =>
      SoundKeys(w, j);
    case _ =>
  }

  lemma RestartGuard(w: World, p: Policy, next: World, k: Key)
    requires p.durable == w.policy.durable && LoadedFrom(p, w.rows, next.live) && Sound(w)
    requires Held(w, k) && k in next.live
    ensures next.live[k].lastTimestamp == w.live[k].lastTimestamp
  {
    hide Role;
    if p.durable {
      hide LoadedFrom;
      LoadedAgrees(p, w.rows, next.live);
    }
  }

  lemma AdmittedPasses(live: Live, k: Key, secret: seq<Byte>, password: string, ts: nat, now: int,
                       doors: string -> Option<bv8>)
    requires k in live ==> live[k].pubKey == k
    ensures var a := AdmitOf(Get(live, k), k, secret, password, ts, now, doors);
            a.Admitted? ==> a.session.pubKey == k && (k in live ==> live[k].lastTimestamp < ts)
  {
    hide Skewed, Role;
  }

  /** The timestamp that moved the guard is the guard. */
  lemma MovesBecomesGuard(w: World, e: Event, next: World, k: Key, ts: nat)
    requires Step(w, e, next) && Sound(w) && Moves(e, k, ts)
    ensures k in next.live && next.live[k].lastTimestamp == ts
  {
    hide Seats, Role, Skewed, Consume;
    if e.LoggedIn? {
      var a := AdmitOf(Get(w.live, k), k, w.policy.secret(k).value, e.password, ts, e.now, w.policy.doors);
      if k in w.live {
        SoundKeys(w, k);
      }
      AdmittedPasses(w.live, k, w.policy.secret(k).value, e.password, ts, e.now, w.policy.doors);
      var c := Stamped(a.session, ts, e.now, w.policy.asks, e.flooded);
      SeatsNewcomer(w, c, next);
      SeatsGuard(w, c, next, k);
    } else {
      SoundKeys(w, k);
    }
  }

  lemma SeatsNewcomer(w: World, c: Session, next: World)
    requires Seats(w, c, next)
    ensures c.pubKey in next.live && next.live[c.pubKey] == c
  {
    hide IsVictim, SeatedRows;
  }

  /** A key that stays in the table from one state to another, and is an access
      entry whenever the node restarts. */
  ghost predicate Stays(ws: seq<World>, es: seq<Event>, k: Key, i: nat, j: nat)
    requires i <= j < |ws| == |es| + 1
  {
    && (forall m :: i <= m <= j ==> k in ws[m].live)
    && (forall m :: i <= m < j && es[m].Restarted? ==> Held(ws[m], k))
  }

  lemma {:induction false} GuardOverRun(ws: seq<World>, es: seq<Event>, k: Key, i: nat, j: nat)
    requires Run(ws, es) && Sound(ws[0]) && i <= j <= |es| && Stays(ws, es, k, i, j)
    ensures k in ws[i].live && k in ws[j].live && ws[i].live[k].lastTimestamp <= ws[j].live[k].lastTimestamp
    decreases j
  {
    hide Step, Sound;
    if i < j {
      GuardOverRun(ws, es, k, i, j - 1);
      RunSound(ws, es, j - 1);
      GuardForward(ws[j - 1], es[j - 1], ws[j], k);
    }
  }

  /** Over any run the timestamps that move a staying key's guard never decrease;
      and one that acts is newer than every one before it, so no login, relay
      request or relay command acts twice, nor on what a room's request or post
      already spent. */
  lemma NoTimestampActsTwice(ws: seq<World>, es: seq<Event>, k: Key, i: nat, j: nat, early: nat, late: nat)
    requires Run(ws, es) && Sound(ws[0]) && i < j < |es|
    requires Moves(es[i], k, early) && Moves(es[j], k, late) && Stays(ws, es, k, i + 1, j)
    ensures early <= late
    ensures Acts(ws[j], es[j], k, late) ==> early < late
  {
    hide Step, Sound, Acts;
    RunSound(ws, es, i);
    MovesBecomesGuard(ws[i], es[i], ws[i + 1], k, early);
    GuardOverRun(ws, es, k, i + 1, j);
    RunSound(ws, es, j);
    MovesPasses(ws[j], es[j], ws[j + 1], k, late);
  }

  lemma MovesPasses(w: World, e: Event, next: World, k: Key, ts: nat)
    requires Step(w, e, next) && Sound(w) && Moves(e, k, ts) && k in w.live
    ensures w.live[k].lastTimestamp <= ts
    ensures Acts(w, e, k, ts) ==> w.live[k].lastTimestamp < ts
  {
    hide Step, Sound;
    MovesBecomesGuard(w, e, next, k, ts);
    GuardForward(w, e, next, k);
  }

  ghost predicate CanAsk(w: World, k: Key, door: Door, ts: nat, now: int) {
    exists next :: Step(w, Asked(k, door, ts, now), next)
  }

  /** Where the guard's own timestamp is taken again: at every door but a relay's
      request — though a relay's command does not act on it. */
  lemma EqualIsTakenAgain(w: World, k: Key, door: Door, now: int)
    requires k in w.live && !w.live[k].closed && (door.RelayCommand? ==> w.live[k].IsAdmin())
    requires door.Charges(w.live[k]) ==> Consume(w.live[k].asks, now).1
    ensures var guard := w.live[k].lastTimestamp;
            && (CanAsk(w, k, door, guard, now) <==> !door.RelayRequest?)
            && (Acts(w, Asked(k, door, guard, now), k, guard) <==> door.RelayRequest?)
  {
    hide Consume, Role;
    var guard := w.live[k].lastTimestamp;
    if !door.RelayRequest? {
      assert Step(w, Asked(k, door, guard, now), Kept(w, AskedSession(w.live[k], door, guard, now)));
    }
  }

  // ----- posts -----

  /** The timestamp of a member's newest post the room kept, zero when it has
      none. */
  function KeptAt(kept: map<Key, nat>, k: Key): nat {
    if k in kept then kept[k] else 0
  }

  /** A post asked again: the newest timestamp, and the room kept what it
      carried. It is acknowledged and not kept twice. */
  predicate IsRetry(w: World, kept: map<Key, nat>, k: Key, ts: nat) {
    k in w.live && ts == w.live[k].lastTimestamp && ts == KeptAt(kept, k)
  }

  /** What a room remembers of kept posts after an event; `posted` when it kept
      the event's post, `persists` when its history outlives it. */
  function KeptAfter(persists: bool, kept: map<Key, nat>, w: World, e: Event, posted: bool, next: World)
      : map<Key, nat>
  {
    match e
    case Asked(k, _, ts, _) => if posted then kept[k := ts] else kept
    case LoggedIn(k, _, _, _, _) =>
      kept - (w.live.Keys - next.live.Keys) - (if k in next.live && !next.live[k].HasAccess() then {k} else {})
    case Restarted(p) =>
      if !persists then map[]
      else if p.durable then (map k | k in kept && k in next.live :: kept[k])
      else kept
    case _ => kept
  }

  ghost predicate RoomStep(persists: bool, w: World, kept: map<Key, nat>, e: Event, posted: bool, next: World,
                           kept': map<Key, nat>)
  {
    && Step(w, e, next)
    && kept' == KeptAfter(persists, kept, w, e, posted, next)
    && (posted ==> e.Asked? && e.door.RoomPost? && Held(w, e.k) && !IsRetry(w, kept, e.k, e.ts))
  }

  ghost predicate RoomRun(persists: bool, ws: seq<World>, kepts: seq<map<Key, nat>>, es: seq<Event>,
                          posted: seq<bool>)
  {
    && |ws| == |kepts| == |es| + 1 && |posted| == |es|
    && forall i :: 0 <= i < |es| ==> RoomStep(persists, ws[i], kepts[i], es[i], posted[i], ws[i + 1], kepts[i + 1])
  }

  /** While a member stays one, what the room remembers of it lies between its
      last kept post and its guard. */
  lemma {:induction false} KeptOverRun(persists: bool, ws: seq<World>, kepts: seq<map<Key, nat>>, es: seq<Event>,
                                       posted: seq<bool>, k: Key, i: nat, j: nat, early: nat)
    requires RoomRun(persists, ws, kepts, es, posted) && Sound(ws[0]) && i < j <= |es|
    requires posted[i] && es[i].Asked? && es[i].k == k && es[i].ts == early
    requires forall m :: i < m <= j ==> Held(ws[m], k)
    requires !persists ==> forall m :: i < m < j ==> !es[m].Restarted?
    ensures Held(ws[j], k) && early <= KeptAt(kepts[j], k) <= ws[j].live[k].lastTimestamp
    decreases j
  {
    hide Step, Sound, Role, Session.HasAccess;
    RoomRunRuns(persists, ws, kepts, es, posted);
    RunSound(ws, es, j - 1);
    assert RoomStep(persists, ws[j - 1], kepts[j - 1], es[j - 1], posted[j - 1], ws[j], kepts[j]);
    if i == j - 1 {
      MovesBecomesGuard(ws[i], es[i], ws[j], k, early);
    } else {
      KeptOverRun(persists, ws, kepts, es, posted, k, i, j - 1, early);
      GuardForward(ws[j - 1], es[j - 1], ws[j], k);
      var e := es[j - 1];
      if e.Asked? && e.k == k {
        MovesBecomesGuard(ws[j - 1], e, ws[j], k, e.ts);
        assert Moves(e, k, e.ts);
      }
    }
  }

  lemma RoomRunRuns(persists: bool, ws: seq<World>, kepts: seq<map<Key, nat>>, es: seq<Event>, posted: seq<bool>)
    requires RoomRun(persists, ws, kepts, es, posted)
    ensures Run(ws, es)
  {
    forall i | 0 <= i < |es| ensures Step(ws[i], es[i], ws[i + 1]) {
      assert RoomStep(persists, ws[i], kepts[i], es[i], posted[i], ws[i + 1], kepts[i + 1]);
    }
  }

  /** No post is kept twice: a member's kept posts carry strictly increasing
      timestamps, over any run in which it stays a member — across restarts, if
      the room's history outlives them. */
  lemma NoPostKeptTwice(persists: bool, ws: seq<World>, kepts: seq<map<Key, nat>>, es: seq<Event>, posted: seq<bool>,
                        k: Key, i: nat, j: nat)
    requires RoomRun(persists, ws, kepts, es, posted) && Sound(ws[0]) && i < j < |es|
    requires posted[i] && posted[j] && es[i].Asked? && es[j].Asked? && es[i].k == es[j].k == k
    requires forall m :: i < m <= j ==> Held(ws[m], k)
    requires !persists ==> forall m :: i < m < j ==> !es[m].Restarted?
    ensures es[i].ts < es[j].ts
  {
    hide Step, Sound, Role, Session.HasAccess;
    KeptOverRun(persists, ws, kepts, es, posted, k, i, j, es[i].ts);
    RoomRunRuns(persists, ws, kepts, es, posted);
    RunSound(ws, es, j);
    assert RoomStep(persists, ws[j], kepts[j], es[j], posted[j], ws[j + 1], kepts[j + 1]);
    assert Moves(es[j], k, es[j].ts);
    MovesPasses(ws[j], es[j], ws[j + 1], k, es[j].ts);
  }

  ghost predicate CanPost(persists: bool, w: World, kept: map<Key, nat>, k: Key, ts: nat, now: int) {
    exists next, kept' :: RoomStep(persists, w, kept, Asked(k, RoomPost, ts, now), true, next, kept')
  }

  /** And a post at the guard's own timestamp is kept exactly when that is not the
      one last kept. */
  lemma EqualPostIsKept(persists: bool, w: World, kept: map<Key, nat>, k: Key, ts: nat, now: int)
    requires Held(w, k) && !w.live[k].closed
    ensures CanPost(persists, w, kept, k, ts, now) <==>
              ts > w.live[k].lastTimestamp || (ts == w.live[k].lastTimestamp && ts != KeptAt(kept, k))
  {
    hide Role, Consume, Session.HasAccess;
    var e := Asked(k, RoomPost, ts, now);
    var next := Kept(w, AskedSession(w.live[k], RoomPost, ts, now));
    if ts > w.live[k].lastTimestamp || (ts == w.live[k].lastTimestamp && ts != KeptAt(kept, k)) {
      assert RoomStep(persists, w, kept, e, true, next, KeptAfter(persists, kept, w, e, true, next));
    }
  }

  /** A room whose history does not persist has forgotten, after a restart, what
      it last kept: the guard's own post, kept before, is kept again. */
  lemma RestartForgetsPosts(w: World, kept: map<Key, nat>, p: Policy, next: World, kept': map<Key, nat>, k: Key,
                            now: int)
    requires RoomStep(false, w, kept, Restarted(p), false, next, kept') && Sound(w) && Held(w, k) && Held(next, k)
    ensures var guard := w.live[k].lastTimestamp; CanPost(false, next, kept', k, guard, now) <==> 0 < guard
  {
    hide LoadedFrom, Role, Session.HasAccess;
    RestartGuard(w, p, next, k);
    RestartOpens(w, p, next, k);
    EqualPostIsKept(false, next, kept', k, w.live[k].lastTimestamp, now);
  }

  lemma RestartOpens(w: World, p: Policy, next: World, k: Key)
    requires Step(w, Restarted(p), next) && k in next.live
    ensures !next.live[k].closed
  {
    hide Role;
    if p.durable {
      hide LoadedFrom;
      LoadedAgrees(p, w.rows, next.live);
    }
  }

  // ----- what an event leaves in an entry -----

  /** Two bits of the permissions are the role: none is a guest's, both an
      administrator's. */
  lemma RolesAre(s: Session)
    ensures s.HasAccess() <==> s.perms & 3 != 0
    ensures s.IsAdmin() <==> s.perms & 3 == 3
  {
  }

  /** The role a word's door answers, and whether the grant survives it. */
  ghost predicate Earned(perms: bv8, granted: bool, role: bv8, earned: bv8, stands: bool) {
    && earned & 0xFC == (perms | role) & 0xFC
    && (role <= 3 ==> earned & 3 == role && earned & 0xFC == perms & 0xFC)
    && stands == (granted && role != 0)
  }

  lemma WordEarns(c: Session, role: bv8, secret: seq<Byte>)
    ensures var s := WithWord(c, role, secret);
            && Earned(c.perms, c.granted, role, s.perms, s.granted) && s.secret == secret
            && s == c.(perms := s.perms, granted := s.granted, secret := s.secret)
  {
  }

  /** What an admitted attempt is admitted as. */
  lemma AdmittedAs(live: Option<Session>, k: Key, secret: seq<Byte>, password: string, ts: nat, now: int,
                   doors: string -> Option<bv8>)
    requires AdmitOf(live, k, secret, password, ts, now, doors).Admitted?
    ensures var s := AdmitOf(live, k, secret, password, ts, now, doors).session;
            var was := if live.Some? then live.value else Stranger(k, NO_BUDGET);
            && s.pubKey == was.pubKey && s.out == was.out && !s.closed
            && if password == "" && live.Some? then
                 s.perms == was.perms && s.granted == was.granted && s.secret == was.secret
               else
                 && doors(password).Some? && s.secret == secret
                 && Earned(was.perms, was.granted, doors(password).value, s.perms, s.granted)
  {
    hide Skewed, WithWord, Earned;
    if doors(password).Some? {
      WordEarns(Candidate(live, k), doors(password).value, secret);
    }
  }

  /** A login with a word earns exactly the role its door answers, up or down: the
      other six bits and the grant are the seated entry's, but a guest's word ends
      the grant. A blank recheck earns nothing. Either way the entry is open and
      live, at the login's timestamp and instant, with a fresh budget, and keeps
      the route it had unless the login flooded. */
  lemma LoginEarns(w: World, k: Key, password: string, ts: nat, now: int, flooded: bool, next: World)
    requires Step(w, LoggedIn(k, password, ts, now, flooded), next) && Sound(w)
    ensures k in next.live && w.policy.secret(k).Some?
    ensures var s := next.live[k];
            && s.pubKey == k && s.lastTimestamp == ts && s.lastActive == now && s.asks == w.policy.asks
            && s.active && !s.closed
            && s.out == if k in w.live && !flooded then w.live[k].out else None
    ensures password == "" && k in w.live ==>
              && next.live[k].perms == w.live[k].perms && next.live[k].granted == w.live[k].granted
              && next.live[k].secret == w.live[k].secret
    ensures password != "" || k !in w.live ==>
              && w.policy.doors(password).Some? && next.live[k].secret == w.policy.secret(k).value
              && var (perms, granted) := if k in w.live then (w.live[k].perms, w.live[k].granted) else (0, false);
                 Earned(perms, granted, w.policy.doors(password).value, next.live[k].perms, next.live[k].granted)
  {
    hide Seats, AdmitOf, Earned;
    if k in w.live {
      SoundKeys(w, k);
    }
    var a := AdmitOf(Get(w.live, k), k, w.policy.secret(k).value, password, ts, now, w.policy.doors);
    AdmittedAs(Get(w.live, k), k, w.policy.secret(k).value, password, ts, now, w.policy.doors);
    SeatedAs(w, Stamped(a.session, ts, now, w.policy.asks, flooded), next);
  }

  lemma SeatedAs(w: World, c: Session, next: World)
    requires Seats(w, c, next)
    ensures c.pubKey in next.live && next.live[c.pubKey] == c
  {
    hide IsVictim, SeatedRows, MakesRoom;
  }

  /** A grant gives exactly the permissions it names, upper bits and all, and is
      one; the guard, the route, the budget and the conversation stay the seated
      entry's, and a stranger's are blank. */
  lemma GrantGives(w: World, k: Key, perms: bv8, now: int, next: World)
    requires Step(w, Granted(k, perms, now), next) && Sound(w)
    ensures k in next.live && w.policy.secret(k).Some? && perms & 3 != 0
    ensures var s := next.live[k];
            && s.pubKey == k && s.perms == perms && s.granted && s.secret == w.policy.secret(k).value
            && if k in w.live then
                 var was := w.live[k];
                 && s.out == was.out && s.lastTimestamp == was.lastTimestamp && s.asks == was.asks
                 && s.active == was.active && s.closed == was.closed
                 && s.lastActive == if was.lastActive == 0 then now else was.lastActive
               else
                 && s.out == None && s.lastTimestamp == 0 && s.asks == w.policy.asks
                 && !s.active && !s.closed && s.lastActive == now
  {
    hide IsVictim, SeatedRows, MakesRoom;
    if k in w.live {
      SoundKeys(w, k);
    }
  }

  /** Closing an access entry ends its conversation and forgets its route, and
      leaves its role, its grant, its guard and its secret; a guest is gone. */
  lemma CloseLeaves(w: World, k: Key, next: World)
    requires Step(w, Closed(k), next) && Sound(w)
    ensures k in w.live && w.live[k].active
    ensures w.live[k].perms & 3 == 0 <==> k !in next.live
    ensures k in next.live ==>
              var s, was := next.live[k], w.live[k];
              && !s.active && s.closed && s.out == None
              && s.perms == was.perms && s.granted == was.granted && s.secret == was.secret && s.asks == was.asks
              && s.lastTimestamp == was.lastTimestamp && s.lastActive == was.lastActive && s.pubKey == k
  {
    hide SavedRows;
    SoundKeys(w, k);
  }

  /** A closed entry is served nothing and taught nothing: only a login opens it,
      or a restart, which remembers no closing. */
  lemma ClosedIsRefused(w: World, e: Event, next: World, k: Key)
    requires Step(w, e, next) && Sound(w) && k in w.live && w.live[k].closed && k in next.live
    ensures e.Asked? || e.Learned? ==> e.k != k
    ensures next.live[k].closed <==> !e.Restarted? && !(e.LoggedIn? && e.k == k)
  {
    hide Role, SavedRows, LoadedFrom, Seats, Consume, Session.HasAccess, Sound;
    match e
    case LoggedIn(j, password, ts, now, flooded) =>
      if j == k {
        LoginEarns(w, k, password, ts, now, flooded, next);
      } else {
        SeatedElsewhere(w, e, next, k);
      }
    case Granted(j, perms, now) =>
      if j == k {
        GrantGives(w, k, perms, now, next);
      } else {
        SeatedElsewhere(w, e, next, k);
      }
    case Restarted(p) =>
      RestartOpens(w, p, next, k);
    case Removed(j) =>
    case Refused =>
    case Charged(j, now) =>
    case Expired(now, idle) =>
    case Closed(j) =>
      SoundKeys(w, j);
    case Asked(j, door, ts, now) =>
      SoundKeys(w, j);
    case Learned(j, route, now, saved) =>
      SoundKeys(w, j);
  }

  lemma SeatedElsewhere(w: World, e: Event, next: World, k: Key)
    requires Step(w, e, next) && Sound(w) && k in w.live && k in next.live && (e.LoggedIn? || e.Granted?) && e.k != k
    ensures next.live[k] == w.live[k]
  {
    hide Skewed, IsVictim, SeatedRows, MakesRoom;
    if e.k in w.live {
      SoundKeys(w, e.k);
    }
  }

  /** Which doors answer a session: none that is closed, and none behind its
      guard; a relay's request must be past it, and its command line an
      administrator's. */
  lemma DoorsTake(s: Session, ts: nat)
    ensures RelayRequest.Takes(s, ts) <==> !s.closed && s.lastTimestamp < ts
    ensures RelayCommand.Takes(s, ts) <==> !s.closed && s.lastTimestamp <= ts && s.perms & 3 == 3
    ensures RoomRequest.Takes(s, ts) <==> !s.closed && s.lastTimestamp <= ts
    ensures RoomPost.Takes(s, ts) <==> !s.closed && s.lastTimestamp <= ts
  {
  }

  /** A frame taken moves the guard and the activity and marks the conversation
      live. A room's request is always charged, a relay's when it has no route
      home, and a post never is. */
  lemma AskLeaves(w: World, k: Key, door: Door, ts: nat, now: int, next: World)
    requires Step(w, Asked(k, door, ts, now), next) && Sound(w)
    ensures k in w.live && k in next.live
    ensures var s, was := next.live[k], w.live[k];
            var charged := door.RoomRequest? || (!door.RoomPost? && was.out == None);
            && s.lastTimestamp == ts && s.lastActive == now && s.active && s.closed == was.closed
            && s.pubKey == k && s.perms == was.perms && s.granted == was.granted && s.secret == was.secret
            && s.out == was.out
            && (charged ==> Consume(was.asks, now) == (s.asks, true)) && (!charged ==> s.asks == was.asks)
    ensures forall j :: j != k ==> Get(next.live, j) == Get(w.live, j)
  {
    hide SavedRows, Consume;
    SoundKeys(w, k);
  }

  /** A budget charged without service is charged and nothing else. */
  lemma ChargeLeaves(w: World, k: Key, now: int, next: World)
    requires Step(w, Charged(k, now), next)
    ensures k in w.live && next.rows == w.rows && next.live.Keys == w.live.Keys
    ensures var s, was := next.live[k], w.live[k];
            s.asks == Consume(was.asks, now).0 && s == was.(asks := s.asks)
    ensures forall j :: j != k ==> Get(next.live, j) == Get(w.live, j)
  {
    hide Consume;
  }

  /** A route taught is the entry's route from then on, its own and nobody
      else's. */
  lemma LearnLeaves(w: World, k: Key, route: Route, now: int, saved: bool, next: World)
    requires Step(w, Learned(k, route, now, saved), next) && Sound(w)
    ensures k in w.live && !w.live[k].closed && k in next.live
    ensures var s, was := next.live[k], w.live[k];
            && s.out == Some(route) && s.lastActive == now && s.active
            && s == was.(out := s.out, lastActive := s.lastActive, active := s.active)
    ensures forall j :: j != k ==> Get(next.live, j) == Get(w.live, j)
    ensures !saved ==> next.rows == w.rows
  {
    hide SavedRows;
    SoundKeys(w, k);
  }

  /** Time takes a guest that has been silent for the idle time and closes the
      conversation of anybody else who has; the disk is not touched. */
  lemma ExpiryLeaves(w: World, now: int, idle: int, next: World, k: Key)
    requires Step(w, Expired(now, idle), next)
    ensures next.rows == w.rows && next.policy == w.policy
    ensures k in next.live ==> k in w.live
    ensures k in w.live ==>
              var was := w.live[k];
              var due := was.active && now - was.lastActive >= idle;
              && (k !in next.live <==> due && was.perms & 3 == 0)
              && (k in next.live ==> next.live[k] == was.(active := was.active && !due))
  {
  }

  /** What a restart remembers of an entry: everything its row holds, and nothing
      of the conversation. */
  lemma RestartRemembers(w: World, p: Policy, next: World, k: Key)
    requires Step(w, Restarted(p), next) && p.durable && k in next.live
    ensures k in w.rows && w.rows[k].perms & 3 != 0
    ensures var s, row := next.live[k], w.rows[k];
            && s.pubKey == k && s.perms == row.perms && s.granted == row.granted
            && s.lastTimestamp == row.lastTimestamp && s.out == row.out && s.lastActive == row.lastActive
            && p.secret(k) == Some(s.secret) && !s.active && !s.closed
  {
    hide LoadedFrom;
    LoadedAgrees(p, w.rows, next.live);
  }

  /** What a row remembers of an entry, when no route of it was lost to the
      disk. */
  lemma RowRemembers(w: World, stale: set<Key>, k: Key)
    requires Sound(w) && Fresh(w, stale) && w.policy.durable && k in w.live && w.live[k].perms & 3 != 0
    ensures k in w.rows
    ensures var row, s := w.rows[k], w.live[k];
            && row.pubKey == k && row.perms == s.perms && row.granted == s.granted
            && row.lastTimestamp == s.lastTimestamp
            && (k !in stale ==> row.out == s.out && row.lastActive == s.lastActive)
  {
  }

  // ----- who leaves, and why -----

  /** An access entry leaves by being removed, by its own login with a guest's
      word, by losing its place to a newcomer the policy did not spare it from,
      or by a restart that could not seat it. */
  ghost predicate Leaves(w: World, e: Event, next: World, k: Key)
    requires k in w.live
  {
    || (e.Removed? && e.k == k)
    || (e.LoggedIn? && e.k == k && k in next.live && !next.live[k].HasAccess())
    || ((e.LoggedIn? || e.Granted?) && e.k != k && e.k !in w.live && e.k in next.live && k !in next.live
        && |w.live| >= w.policy.capacity && IsVictim(w.policy, w.live, next.live[e.k], k))
    || (e.Restarted? && k !in next.live
        && (e.policy.durable ==> e.policy.secret(k).None? || |next.live| >= e.policy.capacity))
  }

  lemma LeavesOnlySo(w: World, e: Event, next: World, k: Key)
    requires Step(w, e, next) && Sound(w) && Held(w, k) && !Held(next, k)
    ensures Leaves(w, e, next, k)
  {
    hide LoadedFrom, Role, Skewed, Consume, IsVictim, Seats, Sound;
    match e
    case LoggedIn(j, password, ts, now, flooded) =>
      var a := AdmitOf(Get(w.live, j), j, w.policy.secret(j).value, password, ts, now, w.policy.doors);
      if j in w.live {
        SoundKeys(w, j);
      }
      AdmittedPasses(w.live, j, w.policy.secret(j).value, password, ts, now, w.policy.doors);
      SeatLeaves(w, Stamped(a.session, ts, now, w.policy.asks, flooded), next, k);
    case Granted(j, perms, now) =>
      if j in w.live {
        SoundKeys(w, j);
      }
      SeatLeaves(w, Promoted(w.policy, w.live, j, perms, now, w.policy.secret(j).value), next, k);
    case Restarted(p) =>
      RestartLeaves(w, p, next, k);
    case Removed(j) =>
    case _ =>
      StaysSeated(w, e, next, k);
  }

  /** Nothing else unseats an access entry. */
  lemma StaysSeated(w: World, e: Event, next: World, k: Key)
    requires Step(w, e, next) && Sound(w) && Held(w, k)
    requires !e.LoggedIn? && !e.Granted? && !e.Removed? && !e.Restarted?
    ensures Held(next, k)
  {
    hide LoadedFrom, Role, Consume, Sound, SavedRows, Seats, AdmitOf;
    SoundKeys(w, k);
    if e.Closed? || e.Learned? || e.Asked? {
      SoundKeys(w, e.k);
    }
  }

  lemma SeatLeaves(w: World, c: Session, next: World, k: Key)
    requires Seats(w, c, next) && Held(w, k) && !Held(next, k)
    ensures c.pubKey in next.live && next.live[c.pubKey] == c
    ensures k == c.pubKey ==> !c.HasAccess()
    ensures k != c.pubKey ==>
              && k !in next.live && c.pubKey !in w.live && |w.live| >= w.policy.capacity
              && IsVictim(w.policy, w.live, c, k)
  {
    hide IsVictim, SeatedRows, Role;
  }

  lemma RestartLeaves(w: World, p: Policy, next: World, k: Key)
    requires p.durable == w.policy.durable && LoadedFrom(p, w.rows, next.live) && Sound(w)
    requires Held(w, k) && !Held(next, k)
    ensures k !in next.live && (p.durable ==> p.secret(k).None? || |next.live| >= p.capacity)
  {
    hide Role;
    if p.durable {
      hide LoadedFrom;
      LoadedAgrees(p, w.rows, next.live);
      if p.secret(k).Some? && |next.live| < p.capacity {
        LoadSeatsWithRoom(p, w.rows, next.live, k);
      }
    }
  }

  lemma LoadStep(p: Policy, order: seq<Row>, n: nat)
    requires 0 < n <= |order|
    ensures var live, row := LoadRows(p, order, n - 1), order[n - 1];
            || LoadRows(p, order, n) == live
            || (p.secret(row.pubKey).Some? && LoadRows(p, order, n) == live[row.pubKey := Restored(p, row)])
  {
    hide Restored, Role;
  }

  lemma {:induction false} LoadGrows(p: Policy, order: seq<Row>, i: nat, n: nat)
    requires i <= n <= |order|
    ensures |LoadRows(p, order, i)| <= |LoadRows(p, order, n)|
    decreases n
  {
    if i < n {
      hide LoadRows, Restored, Role;
      LoadGrows(p, order, i, n - 1);
      LoadStep(p, order, n);
      var live, row := LoadRows(p, order, n - 1), order[n - 1];
      if LoadRows(p, order, n) != live {
        Sizes(live, row.pubKey, Restored(p, row));
      }
    }
  }

  lemma LoadSeatsWithRoom(p: Policy, rows: Rows, live: Live, k: Key)
    requires p.durable && LoadedFrom(p, rows, live) && |live| < p.capacity
    requires k in AccessRows(rows) && p.secret(k).Some?
    ensures k in live
  {
    hide Role, LoadRows;
    var order: seq<Row>, n: nat :| LoadsInOrder(p, rows, order, n, live);
    assert IsIn(order, k);
    var i :| 0 <= i < |order| && order[i].pubKey == k;
    LoadGrows(p, order, i, |order|);
    LoadKeeps(p, order, i, |order|);
  }

  /** Under the default policy a newcomer never takes an access entry's place. */
  lemma DefaultPolicySpares(w: World, e: Event, next: World, k: Key)
    requires Step(w, e, next) && Sound(w) && Held(w, k) && w.policy.spare.None?
    requires !(e.Removed? && e.k == k)
    requires e.LoggedIn? && e.k == k && k in next.live ==> next.live[k].HasAccess()
    requires e.Restarted? ==> w.policy.durable && SkipsNothing(e.policy, w.rows)
    ensures Held(next, k)
  {
    hide Step, Role, SkipsNothing, LoadedFrom;
    if !Held(next, k) {
      LeavesOnlySo(w, e, next, k);
      if e.Restarted? {
        RestartSeats(w, e.policy, next, k);
      }
    }
  }

  lemma RestartSeats(w: World, p: Policy, next: World, k: Key)
    requires Step(w, Restarted(p), next) && Sound(w) && Held(w, k) && w.policy.durable && SkipsNothing(p, w.rows)
    ensures k in next.live
  {
    hide LoadedFrom, SkipsNothing, Role;
    SoundIsKeyed(w);
    LoadSeatsAll(p, w.rows, next.live, k);
  }

  /** So under it, an access entry nobody removes or demotes keeps its seat over
      any run whose loads skip nothing, and its guard never falls. */
  lemma {:induction false} AccessIsKept(ws: seq<World>, es: seq<Event>, k: Key, n: nat)
    requires Run(ws, es) && n <= |es| && Sound(ws[0]) && Held(ws[0], k)
    requires forall i :: 0 <= i < n ==> ws[i].policy.spare.None? && es[i] != Removed(k)
    requires forall i :: 0 <= i < n && es[i].LoggedIn? && es[i].k == k && k in ws[i + 1].live ==>
              ws[i + 1].live[k].HasAccess()
    requires forall i :: 0 <= i < n && es[i].Restarted? ==>
              ws[i].policy.durable && SkipsNothing(es[i].policy, ws[i].rows)
    ensures Held(ws[n], k) && ws[n].live[k].lastTimestamp >= ws[0].live[k].lastTimestamp
    decreases n
  {
    hide Step, Sound, SkipsNothing;
    if n > 0 {
      AccessIsKept(ws, es, k, n - 1);
      RunSound(ws, es, n - 1);
      DefaultPolicySpares(ws[n - 1], es[n - 1], ws[n], k);
      GuardForward(ws[n - 1], es[n - 1], ws[n], k);
    }
  }

  /** A room's policy: administrators outrank everyone, members outrank guests. */
  predicate RoomSpare(newcomer: Session, seated: Session) {
    seated.IsAdmin() || (!newcomer.HasAccess() && seated.HasAccess())
  }

  lemma RoomKeepsItsOwn(w: World, e: Event, next: World, k: Key)
    requires Step(w, e, next) && Sound(w) && Held(w, k) && !Held(next, k) && w.policy.spare == Some(RoomSpare)
    requires (e.LoggedIn? || e.Granted?) && e.k != k
    ensures !w.live[k].IsAdmin() && e.k in next.live && next.live[e.k].HasAccess()
  {
    hide Step, Role;
    LeavesOnlySo(w, e, next, k);
  }

  // ----- the rows a load skipped -----

  /** A stored guard binds a key that is seated as an access entry: nothing moves
      it back, and nothing acts on a timestamp at or before it. */
  lemma StoredGuardBinds(w: World, e: Event, next: World, k: Key, ts: nat)
    requires Step(w, e, next) && Sound(w) && w.policy.durable && Moves(e, k, ts) && Held(w, k)
    ensures k in w.rows && w.rows[k].lastTimestamp <= ts
    ensures Acts(w, e, k, ts) ==> w.rows[k].lastTimestamp < ts
  {
    hide Step, Role;
    MovesPasses(w, e, next, k, ts);
  }

  /** A clock, in nanoseconds since the year 1, within a day of this one; logins
      count whole seconds since 1970, 719,162 days later. */
  predicate Timely(ts: nat, now: int) {
    var day := 86_400_000_000_000;
    now - day <= 719_162 * day + ts * 1_000_000_000 <= now + day
  }

  lemma TimelyExactly(ts: nat, now: int)
    ensures Timely(ts, now) <==> !Skewed(ts, now)
  {
  }

  /** A word that opens for a key, replay apart: a seated one may send a blank
      word, whatever the doors say of it. */
  predicate Opens(w: World, k: Key, password: string, ts: nat, now: int) {
    && w.policy.secret(k).Some? && Timely(ts, now)
    && ((password == "" && k in w.live) || w.policy.doors(password).Some?)
  }

  /** What a key that is not seated would be seated as. */
  function Newcomer(w: World, k: Key, password: string, ts: nat, now: int, flooded: bool): Session
    requires w.policy.secret(k).Some? && w.policy.doors(password).Some?
  {
    var c := WithWord(Stranger(k, NO_BUDGET), w.policy.doors(password).value, w.policy.secret(k).value);
    Stamped(c, ts, now, w.policy.asks, flooded)
  }

  ghost predicate CanLogIn(w: World, k: Key, password: string, ts: nat, now: int, flooded: bool) {
    exists next :: Step(w, LoggedIn(k, password, ts, now, flooded), next)
  }

  lemma {:induction false} LeastActive(p: Policy, live: Live, newcomer: Session, among: set<Key>, one: Key)
      returns (v: Key)
    requires one in among && among <= live.Keys && !p.Spared(newcomer, live[one])
    ensures v in among && !p.Spared(newcomer, live[v])
    ensures forall u :: u in among && !p.Spared(newcomer, live[u]) ==> live[v].lastActive <= live[u].lastActive
    decreases |among|
  {
    var others := among - {one};
    if u :| u in others && !p.Spared(newcomer, live[u]) {
      v := LeastActive(p, live, newcomer, others, u);
      if live[one].lastActive < live[v].lastActive {
        v := one;
      }
    } else {
      v := one;
    }
  }

  /** A newcomer is seated, over somebody or nobody, exactly when there is room. */
  lemma SeatsWithRoom(w: World, c: Session)
    ensures (exists next :: Seats(w, c, next)) <==> !NoRoom(w.policy, w.live, c)
  {
    hide SeatedLive, SeatedRows;
    if !NoRoom(w.policy, w.live, c) {
      var victim := None;
      if c.pubKey !in w.live && |w.live| >= w.policy.capacity {
        var one :| one in w.live && !w.policy.Spared(c, w.live[one]);
        var v := LeastActive(w.policy, w.live, c, w.live.Keys, one);
        victim := Some(v);
      }
      var next := w.(live := SeatedLive(w.live, c, victim), rows := SeatedRows(w.policy, w.live, w.rows, c, victim));
      assert SeatsOver(w, c, victim, next);
      assert Seats(w, c, next);
    }
  }

  lemma AdmittedExactly(w: World, k: Key, password: string, ts: nat, now: int, flooded: bool)
    requires Sound(w) && w.policy.secret(k).Some?
    ensures var a := AdmitOf(Get(w.live, k), k, w.policy.secret(k).value, password, ts, now, w.policy.doors);
            && (a.Admitted? <==>
                Opens(w, k, password, ts, now) && ts > (if k in w.live then w.live[k].lastTimestamp else 0))
            && (a.Admitted? ==> a.session.pubKey == k)
            && (a.Admitted? && k !in w.live ==>
                  Stamped(a.session, ts, now, w.policy.asks, flooded) == Newcomer(w, k, password, ts, now, flooded))
  {
    hide Skewed, Timely, WithRole, Role;
    TimelyExactly(ts, now);
    if k in w.live {
      SoundKeys(w, k);
    }
  }

  /** Exactly when a login is let in: past the guard the table holds for a seated
      key, whatever any row says; for any other past zero, while a place can be
      had. */
  lemma LetInExactly(w: World, k: Key, password: string, ts: nat, now: int, flooded: bool)
    requires Sound(w)
    ensures CanLogIn(w, k, password, ts, now, flooded) <==>
              && Opens(w, k, password, ts, now)
              && if k in w.live then w.live[k].lastTimestamp < ts
                 else 0 < ts && !NoRoom(w.policy, w.live, Newcomer(w, k, password, ts, now, flooded))
  {
    hide AdmitOf, Seats, NoRoom, Sound, Stamped, Newcomer, Timely;
    if w.policy.secret(k).Some? {
      var a := AdmitOf(Get(w.live, k), k, w.policy.secret(k).value, password, ts, now, w.policy.doors);
      AdmittedExactly(w, k, password, ts, now, flooded);
      if a.Admitted? {
        var c := Stamped(a.session, ts, now, w.policy.asks, flooded);
        StampedKey(a.session, ts, now, w.policy.asks, flooded);
        SeatsWithRoom(w, c);
        if k in w.live {
          KnownNeedsNoRoom(w.policy, w.live, c);
        }
        if !NoRoom(w.policy, w.live, c) {
          var next :| Seats(w, c, next);
          assert Step(w, LoggedIn(k, password, ts, now, flooded), next);
        }
      }
    }
  }

  lemma StampedKey(c: Session, ts: nat, now: int, asks: Budget, flooded: bool)
    ensures Stamped(c, ts, now, asks, flooded).pubKey == c.pubKey
  {
  }

  /** So a recorded login, at or before the stored guard, is let in exactly when
      the table has none for the key and a place can be had, or holds the key with
      a guard of its own that is older: never over a seated access entry. */
  lemma ReplayOnlyOfSkipped(w: World, k: Key, password: string, ts: nat, now: int, flooded: bool)
    requires Sound(w) && w.policy.durable && k in w.rows && 0 < ts <= w.rows[k].lastTimestamp
    requires Opens(w, k, password, ts, now)
    ensures CanLogIn(w, k, password, ts, now, flooded) <==>
              if k in w.live then w.live[k].lastTimestamp < ts
              else !NoRoom(w.policy, w.live, Newcomer(w, k, password, ts, now, flooded))
    ensures Held(w, k) ==> !CanLogIn(w, k, password, ts, now, flooded)
  {
    hide Step, Timely, NoRoom, Newcomer, Role;
    LetInExactly(w, k, password, ts, now, flooded);
  }

  /** Once in, it writes its own timestamp over the stored guard, if its word is
      not a guest's. */
  lemma SkippedGuardIsLost(w: World, k: Key, password: string, ts: nat, now: int, flooded: bool, next: World)
    requires Step(w, LoggedIn(k, password, ts, now, flooded), next) && Sound(w) && w.policy.durable && Held(next, k)
    ensures k in next.rows && next.rows[k].lastTimestamp == ts
  {
    hide Step, Role;
    StepSound(w, LoggedIn(k, password, ts, now, flooded), next);
    MovesBecomesGuard(w, LoggedIn(k, password, ts, now, flooded), next, k, ts);
    LoginKeepsPolicy(w, k, password, ts, now, flooded, next);
  }

  lemma LoginKeepsPolicy(w: World, k: Key, password: string, ts: nat, now: int, flooded: bool, next: World)
    requires Step(w, LoggedIn(k, password, ts, now, flooded), next)
    ensures next.policy == w.policy
  {
    hide SeatedRows;
  }

  /** If it is a guest's, it leaves the skipped row standing, and the table then
      holds the login's guard and not the row's. */
  lemma GuestLeavesRow(w: World, k: Key, password: string, ts: nat, now: int, flooded: bool, next: World)
    requires Step(w, LoggedIn(k, password, ts, now, flooded), next) && Sound(w)
    requires k in w.rows && !Held(w, k) && !Held(next, k)
    ensures k in next.rows && next.rows[k] == w.rows[k]
    ensures k in next.live && next.live[k].lastTimestamp == ts
  {
    hide Role;
    var e := LoggedIn(k, password, ts, now, flooded);
    MovesBecomesGuard(w, e, next, k, ts);
    AdmittedExactly(w, k, password, ts, now, flooded);
  }

  /** And so a guest's login over a skipped row opens it to every recorded login
      after that guest's and up to the stored guard. */
  lemma ReplayAfterGuest(w: World, k: Key, word: string, early: nat, at: int, flooded: bool, next: World,
                         password: string, ts: nat, now: int, again: bool)
    requires Step(w, LoggedIn(k, word, early, at, flooded), next) && Sound(w) && w.policy.durable
    requires k in w.rows && !Held(w, k) && !Held(next, k)
    requires Opens(next, k, password, ts, now) && ts <= w.rows[k].lastTimestamp
    ensures k in next.rows && ts <= next.rows[k].lastTimestamp == w.rows[k].lastTimestamp
    ensures CanLogIn(next, k, password, ts, now, again) <==> early < ts
  {
    hide Step, Sound, Opens, CanLogIn, NoRoom, Newcomer, Role;
    GuestLeavesRow(w, k, word, early, at, flooded, next);
    StepSound(w, LoggedIn(k, word, early, at, flooded), next);
    LetInExactly(next, k, password, ts, now, again);
  }

  /** And a grant writes the guard the table holds, which for a key it does not
      hold is zero: it lowers the stored one exactly when that was above it. */
  lemma GrantWritesLiveGuard(w: World, k: Key, perms: bv8, now: int, next: World)
    requires Step(w, Granted(k, perms, now), next) && Sound(w) && w.policy.durable && k in w.rows
    ensures k in next.rows && next.rows[k].lastTimestamp == if k in w.live then w.live[k].lastTimestamp else 0
    ensures Held(w, k) ==> next.rows[k].lastTimestamp == w.rows[k].lastTimestamp
    ensures k !in w.live ==> (next.rows[k].lastTimestamp < w.rows[k].lastTimestamp <==> w.rows[k].lastTimestamp > 0)
  {
    hide Seats, Role;
    var c := Promoted(w.policy, w.live, k, perms, now, w.policy.secret(k).value);
    if k in w.live {
      SoundKeys(w, k);
    }
    SeatsRow(w, c, next);
  }

  lemma SeatsRow(w: World, c: Session, next: World)
    requires Seats(w, c, next) && w.policy.durable && c.HasAccess()
    ensures c.pubKey in next.rows && next.rows[c.pubKey] == c.Persisted()
  {
    hide IsVictim, Role;
  }
}
