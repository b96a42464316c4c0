/** The MQTT connection's story: callbacks that run on independent goroutines,
    in any order, told as one causal timeline (internal/mqtt/client.go). */
module ConnectionStory {
  import opened Common

  /** The session counter is a uint32 and wraps. */
  const SESSIONS_MOD := 0x1_0000_0000

  /** What the observer's archive is told. */
  datatype Told =
    | Connecting
    | Connected
    | Reconnected
    | Reconnecting
    | Lost(cause: string)
    | Failed(cause: string)

  /** What Paho's notification callbacks report. */
  datatype Callback =
    | OnConnecting(attempt: int, isReconnect: bool)
    | OnBrokerFailed
    | OnFailed(reason: string)
    | OnConnected
    | OnLost(reason: string)

  datatype Story = Story(
    sessions: nat,
    connected: bool,
    reconnectPending: bool,
    connectedPending: int,
    staleConnected: int,
    failuresPending: seq<string>,
    told: seq<Told>)
  {
    function Tell(t: Told): Story {
      this.(told := told + [t])
    }

    function TellFailures(): Story {
      this.(told := told + FailuresTold(failuresPending), failuresPending := [])
    }

    function EmitConnected(): Story {
      Tell(if sessions > 0 then Reconnected else Connected)
        .(sessions := (sessions + 1) % SESSIONS_MOD, connected := true)
    }

    function AfterConnecting(attempt: int, isReconnect: bool): Story {
      if attempt != 0 then this
      else if !isReconnect then Tell(Connecting)
      else if connected || sessions == 0 then this.(reconnectPending := true)
      else Tell(Reconnecting)
    }

    function AfterFailed(cause: string): Story {
      if reconnectPending then this.(failuresPending := failuresPending + [cause])
      else Tell(Failed(cause))
    }

    function AfterEstablished(): Story {
      if staleConnected > 0 then this.(staleConnected := staleConnected - 1)
      else if reconnectPending && connected then this.(connectedPending := connectedPending + 1)
      else if !connected then EmitConnected()
      else this
    }

    function AfterLost(cause: string): Story {
      var s1 := if !connected && sessions == 0
                then EmitConnected().(staleConnected := staleConnected + 1) else this;
      var s2 := if s1.connected then s1.Tell(Lost(cause)).(connected := false) else s1;
      var s3 := if s2.reconnectPending then s2.Tell(Reconnecting).(reconnectPending := false) else s2;
      var s4 := s3.TellFailures();
      if s4.connectedPending > 0
      then s4.(connectedPending := s4.connectedPending - 1).EmitConnected() else s4
    }

    function After(e: Callback): Story {
      match e
      case OnConnecting(attempt, isReconnect) => AfterConnecting(attempt, isReconnect)
      case OnBrokerFailed => this
      case OnFailed(cause) => AfterFailed(cause)
      case OnConnected => AfterEstablished()
      case OnLost(cause) => AfterLost(cause)
    }
  }

  const START := Story(0, false, false, 0, 0, [], [])

  function FailuresTold(causes: seq<string>): seq<Told> {
    seq(|causes|, i requires 0 <= i < |causes| => Failed(causes[i]))
  }

  class Ladder {
    var sessions: nat
    var connected: bool
    var reconnectPending: bool
    var connectedPending: int
    var staleConnected: int
    var failuresPending: seq<string>
    // Everything the transition callback has been handed.
    var told: seq<Told>

    ghost function Current(): Story
      reads this
    {
      Story(sessions, connected, reconnectPending, connectedPending, staleConnected, failuresPending, told)
    }

    constructor ()
      ensures Current() == START
    {
      sessions, connected, reconnectPending := 0, false, false;
      connectedPending, staleConnected, failuresPending, told := 0, 0, [], [];
    }

    method Tell(t: Told)
      modifies this`told
      ensures told == old(told) + [t]
    {
      told := told + [t];
    }

    method Handle(e: Callback)
      modifies this
      ensures Current() == old(Current()).After(e)
    {
      match e {
        case OnConnecting(attempt, isReconnect) => this.HandleConnecting(attempt, isReconnect);
        case OnBrokerFailed =>
        case OnFailed(cause) => this.HandleFailed(cause);
        case OnConnected => this.HandleEstablished();
        case OnLost(cause) => this.HandleLost(cause);
      }
    }

    method HandleConnecting(attempt: int, isReconnect: bool)
      modifies this
      ensures Current() == old(Current()).AfterConnecting(attempt, isReconnect)
    {
      if attempt != 0 {
        return;
      }
      if !isReconnect {
        this.Tell(Connecting);
        return;
      }
      if connected || sessions == 0 {
        reconnectPending := true;
        return;
      }
      this.Tell(Reconnecting);
    }

    method HandleFailed(cause: string)
      modifies this
      ensures Current() == old(Current()).AfterFailed(cause)
    {
      if reconnectPending {
        failuresPending := failuresPending + [cause];
        return;
      }
      this.Tell(Failed(cause));
    }

    method HandleEstablished()
      modifies this
      ensures Current() == old(Current()).AfterEstablished()
    {
      if staleConnected > 0 {
        staleConnected := staleConnected - 1;
        return;
      }
      if reconnectPending && connected {
        connectedPending := connectedPending + 1;
        return;
      }
      if !connected {
        this.EmitConnected();
      }
    }

    method HandleLost(cause: string)
      modifies this
      ensures Current() == old(Current()).AfterLost(cause)
    {
      hide FailuresTold;
      if !connected && sessions == 0 {
        this.EmitConnected();
        staleConnected := staleConnected + 1;
      }
      if connected {
        this.Tell(Lost(cause));
        connected := false;
      }
      if reconnectPending {
        this.Tell(Reconnecting);
        reconnectPending := false;
      }
      ghost var before := told;
      NoFailuresTold(failuresPending);
      for i := 0 to |failuresPending|
        invariant told == before + FailuresTold(failuresPending[..i])
        modifies this`told
      {
        this.Tell(Failed(failuresPending[i]));
        OneFailureTold(failuresPending, i);
      }
      failuresPending := [];
      if connectedPending > 0 {
        connectedPending := connectedPending - 1;
        this.EmitConnected();
      }
    }

    method EmitConnected()
      modifies this
      ensures Current() == old(Current()).EmitConnected()
    {
      var state := Connected;
      if sessions > 0 {
        state := Reconnected;
      }
      sessions := (sessions + 1) % SESSIONS_MOD;
      connected := true;
      this.Tell(state);
    }
  }

  lemma NoFailuresTold(causes: seq<string>)
    ensures FailuresTold(causes[..0]) == [] && causes[..|causes|] == causes
  {
  }

  lemma OneFailureTold(causes: seq<string>, i: nat)
    requires i < |causes|
    ensures FailuresTold(causes[..i + 1]) == FailuresTold(causes[..i]) + [Failed(causes[i])]
  {
  }

  // ----- any order of callbacks at all -----

  function Run(s: Story, events: seq<Callback>): Story
    decreases |events|
  {
    if events == [] then s else Run(s.After(events[0]), events[1..])
  }

  /** The language of legal timelines, as an automaton over what was told: the
      link is up or down, and `n` sessions have begun. A session begins only
      from down — "connected" the first time, "reconnected" after (the count is
      the source's 32 bits) — is lost only from up, and a reconnection is only
      announced from down. None when the timeline breaks a rule. */
  function Link(told: seq<Told>): Option<(bool, nat)> {
    if told == [] then Some((false, 0))
    else
      var t := told[|told| - 1];
      match Link(told[..|told| - 1])
      case None => None
      case Some((up, n)) =>
        match t
        case Connected => if !up && n % 4_294_967_296 == 0 then Some((true, n + 1)) else None
        case Reconnected => if !up && n % 4_294_967_296 != 0 then Some((true, n + 1)) else None
        case Lost(_) => if up then Some((false, n)) else None
        case Reconnecting => if !up then Some((up, n)) else None
        case Connecting => Some((up, n))
        case Failed(_) => Some((up, n))
  }

  function FailureCauses(told: seq<Told>): seq<string> {
    if told == [] then []
    else
      var t := told[|told| - 1];
      FailureCauses(told[..|told| - 1]) + if t.Failed? then [t.cause] else []
  }

  function FailuresReceived(events: seq<Callback>): seq<string> {
    if events == [] then []
    else (if events[0].OnFailed? then [events[0].reason] else []) + FailuresReceived(events[1..])
  }

  /** What holds of every story, whatever the callbacks and their order. */
  ghost predicate Legal(s: Story) {
    && Link(s.told).Some?
    && Link(s.told).value.0 == s.connected
    && Link(s.told).value.1 % SESSIONS_MOD == s.sessions
    && (s.failuresPending != [] ==> s.reconnectPending)
  }

  /** How many sessions the timeline begins. */
  function Begun(told: seq<Told>): nat {
    if Link(told).Some? then Link(told).value.1 else 0
  }

  lemma LinkAppend(told: seq<Told>, t: Told)
    ensures (told + [t])[..|told + [t]| - 1] == told && (told + [t])[|told|] == t
  {
  }

  lemma LegalEmit(s: Story)
    requires Legal(s) && !s.connected
    ensures Legal(s.EmitConnected())
    ensures Begun(s.EmitConnected().told) == Begun(s.told) + 1
    ensures FailureCauses(s.EmitConnected().told) == FailureCauses(s.told)
  {
    LinkAppend(s.told, if s.sessions > 0 then Reconnected else Connected);
    var n := Link(s.told).value.1;
    assert (n + 1) % SESSIONS_MOD == (n % SESSIONS_MOD + 1) % SESSIONS_MOD;
  }

  lemma LegalTell(s: Story, t: Told)
    requires Legal(s)
    requires t.Connecting? || t.Failed? || (t.Reconnecting? && !s.connected)
    ensures Legal(s.Tell(t))
    ensures Begun(s.Tell(t).told) == Begun(s.told)
    ensures FailureCauses(s.Tell(t).told) == FailureCauses(s.told) + if t.Failed? then [t.cause] else []
  {
    LinkAppend(s.told, t);
  }

  lemma LegalLost(s: Story, cause: string)
    requires Legal(s) && s.connected
    ensures Legal(s.Tell(Lost(cause)).(connected := false))
    ensures Begun(s.told + [Lost(cause)]) == Begun(s.told)
    ensures FailureCauses(s.told + [Lost(cause)]) == FailureCauses(s.told)
  {
    LinkAppend(s.told, Lost(cause));
  }

  lemma {:induction false} ToldFailures(told: seq<Told>, causes: seq<string>)
    ensures Link(told + FailuresTold(causes)) == Link(told)
    ensures Begun(told + FailuresTold(causes)) == Begun(told)
    ensures FailureCauses(told + FailuresTold(causes)) == FailureCauses(told) + causes
    decreases |causes|
  {
    if causes == [] {
      assert told + FailuresTold(causes) == told;
    } else {
      var init, last := causes[..|causes| - 1], causes[|causes| - 1];
      ToldFailures(told, init);
      assert told + FailuresTold(causes) == (told + FailuresTold(init)) + [Failed(last)];
      LinkAppend(told + FailuresTold(init), Failed(last));
      assert FailureCauses(told) + causes == (FailureCauses(told) + init) + [last];
    }
  }

  lemma LegalAfterLost(s: Story, cause: string)
    requires Legal(s)
    ensures Legal(s.AfterLost(cause))
    ensures Begun(s.told) <= Begun(s.AfterLost(cause).told) <= Begun(s.told) + 2
    ensures FailureCauses(s.AfterLost(cause).told) == FailureCauses(s.told) + s.failuresPending
    ensures s.AfterLost(cause).failuresPending == []
  {
    hide Link, FailureCauses, Begun;
    if !s.connected && s.sessions == 0 {
      LegalEmit(s);
    }
    var s1 := if !s.connected && s.sessions == 0
              then s.EmitConnected().(staleConnected := s.staleConnected + 1) else s;
    assert Legal(s1);
    if s1.connected {
      LegalLost(s1, cause);
    }
    var s2 := if s1.connected then s1.Tell(Lost(cause)).(connected := false) else s1;
    if s2.reconnectPending {
      LegalTell(s2, Reconnecting);
    }
    var s3 := if s2.reconnectPending then s2.Tell(Reconnecting).(reconnectPending := false) else s2;
    ToldFailures(s3.told, s3.failuresPending);
    var s4 := s3.TellFailures();
    if s4.connectedPending > 0 {
      LegalEmit(s4.(connectedPending := s4.connectedPending - 1));
    }
  }

  lemma LegalAfter(s: Story, e: Callback)
    requires Legal(s)
    ensures Legal(s.After(e))
    ensures Begun(s.told) <= Begun(s.After(e).told) <= Begun(s.told) + 2
    ensures FailureCauses(s.After(e).told) + s.After(e).failuresPending
         == FailureCauses(s.told) + s.failuresPending + if e.OnFailed? then [e.reason] else []
  {
    hide Link, FailureCauses, Begun;
    match e {
      case OnConnecting(attempt, isReconnect) =>
        LegalTell(s, Connecting);
        if !s.connected {
          LegalTell(s, Reconnecting);
        }
      case OnBrokerFailed =>
      case OnFailed(cause) =>
        LegalTell(s, Failed(cause));
      case OnConnected =>
        if !s.connected {
          LegalEmit(s);
        }
      case OnLost(cause) =>
        LegalAfterLost(s, cause);
    }
  }

  /** For any callbacks in any order: the told timeline is legal, ends with the
      link in the state the story holds, and the failures told followed by the
      ones held back are exactly the failures received, in order. */
  lemma {:induction false} AnyOrderIsLegal(s: Story, events: seq<Callback>)
    requires Legal(s)
    ensures Legal(Run(s, events))
    ensures FailureCauses(Run(s, events).told) + Run(s, events).failuresPending
         == FailureCauses(s.told) + s.failuresPending + FailuresReceived(events)
    decreases |events|
  {
    hide Link, FailureCauses, Begun, Story.After;
    if events != [] {
      LegalAfter(s, events[0]);
      AnyOrderIsLegal(s.After(events[0]), events[1..]);
    }
  }

  /** The same from the start of a connection's life. */
  lemma TimelineIsLegal(events: seq<Callback>)
    ensures var s := Run(START, events);
            && Link(s.told).Some? && Link(s.told).value.0 == s.connected
            && FailureCauses(s.told) + s.failuresPending == FailuresReceived(events)
            && (s.failuresPending != [] ==> s.reconnectPending)
  {
    AnyOrderIsLegal(START, events);
  }

  // ----- bounded lag -----

  /** The connection as it really goes, beside the callbacks it has launched and
      that have not run: `n` sessions so far, the last one up or lost, whether a
      reconnection round has begun since it was lost, and the sessions whose
      Connected and whose Lost are still waiting for the scheduler. */
  datatype World = World(n: nat, up: bool, rounded: bool, waitingC: set<nat>, waitingL: set<nat>)

  const QUIET_START := World(0, false, false, {}, {})

  datatype Move =
    | Dial                       // the first connection's round, told as it begins
    | Retry(attempt: int, isReconnect: bool)  // a later attempt within a round
    | BrokerRefused
    | RoundFailed(cause: string)
    | Round                      // a reconnection round begins
    | Establish                  // the next session really begins
    | Lose                       // the current session is really lost
    | RunConnected(i: nat)       // session i's Connected callback runs
    | RunLost(i: nat, why: string)

  /** The moves the connection's own causality allows, under the bound on how
      late a callback may run: a session's Connected before its own Lost and
      before the next reconnection round, its Lost before the round after that.
      The first session's Connected need only precede the second session's Lost
      and the second reconnection round. */
  predicate Allowed(w: World, m: Move) {
    match m
    case Dial => w.n == 0
    case Retry(attempt, _) => attempt != 0
    case BrokerRefused => true
    case RoundFailed(_) => !w.up
    case Round =>
      && w.n >= 1 && !w.up
      && (w.n >= 2 ==> w.n !in w.waitingC && 1 !in w.waitingC)
      && w.n - 1 !in w.waitingL
    case Establish => !w.up && (w.n >= 1 ==> w.rounded) && w.n + 1 < SESSIONS_MOD
    case Lose => w.up
    case RunConnected(i) => i in w.waitingC
    case RunLost(i, _) => i in w.waitingL && (i >= 2 ==> i !in w.waitingC && 1 !in w.waitingC)
  }

  function Moved(w: World, m: Move): World {
    match m
    case Round => w.(rounded := true)
    case Establish => w.(n := w.n + 1, up := true, rounded := false, waitingC := w.waitingC + {w.n + 1})
    case Lose => w.(up := false, rounded := false, waitingL := w.waitingL + {w.n})
    case RunConnected(i) => w.(waitingC := w.waitingC - {i})
    case RunLost(i, _) => w.(waitingL := w.waitingL - {i})
    case _ => w
  }

  /** The callback a move runs, if it runs one. */
  function CallbackOf(m: Move): Option<Callback> {
    match m
    case Dial => Some(OnConnecting(0, false))
    case Retry(attempt, isReconnect) => Some(OnConnecting(attempt, isReconnect))
    case BrokerRefused => Some(OnBrokerFailed)
    case RoundFailed(cause) => Some(OnFailed(cause))
    case Round => Some(OnConnecting(0, true))
    case RunConnected(_) => Some(OnConnected)
    case RunLost(_, why) => Some(OnLost(why))
    case Establish => None
    case Lose => None
  }

  function Follow(s: Story, m: Move): Story {
    match CallbackOf(m)
    case None => s
    case Some(e) => s.After(e)
  }

  predicate AllowedRun(w: World, moves: seq<Move>)
    decreases |moves|
  {
    moves == [] || (Allowed(w, moves[0]) && AllowedRun(Moved(w, moves[0]), moves[1..]))
  }

  function RunWorld(w: World, moves: seq<Move>): World
    decreases |moves|
  {
    if moves == [] then w else RunWorld(Moved(w, moves[0]), moves[1..])
  }

  function RunStory(s: Story, moves: seq<Move>): Story
    decreases |moves|
  {
    if moves == [] then s else RunStory(Follow(s, moves[0]), moves[1..])
  }

  /** The part of a story the reconstruction steers by. */
  datatype Posture = Posture(connected: bool, reconnectPending: bool,
                             connectedPending: int, staleConnected: int, sessions: nat)

  function PostureOf(s: Story): Posture {
    Posture(s.connected, s.reconnectPending, s.connectedPending, s.staleConnected, s.sessions)
  }

  /** The bound keeps at most the last two sessions in doubt. */
  ghost predicate Bounded(w: World) {
    && w.n < SESSIONS_MOD
    && (forall i :: i in w.waitingC ==> 1 <= i && (i == w.n || (i == 1 && w.n == 2)))
    && (forall i :: i in w.waitingL ==> 1 <= i && (i == w.n || i == w.n - 1))
    && (w.up ==> w.n >= 1 && w.n !in w.waitingL && !w.rounded)
    && (w.n == 0 ==> !w.rounded)
    && (w.n >= 2 && !w.up && w.n !in w.waitingL ==> w.waitingC == {})
    && (w.rounded ==> w.n - 1 !in w.waitingL && (w.n >= 2 ==> w.waitingC == {}))
  }

  /** Where the story must stand, read off the world alone. */
  ghost function Expected(w: World): Posture
    requires Bounded(w)
  {
    var late := (if w.n in w.waitingC then 1 else 0) + (if w.n == 2 && 1 in w.waitingC then 1 else 0);
    var prevLost := w.n - 1 in w.waitingL;
    var lostTold := !w.up && w.n !in w.waitingL;
    if w.n == 0 then Posture(false, false, 0, 0, 0)
    else if w.n == 1 then
      if late == 1 then
        if lostTold then Posture(false, false, 0, 1, 1) else Posture(false, w.rounded, 0, 0, 0)
      else Posture(!lostTold, w.rounded && !lostTold, 0, 0, 1)
    else if late == 2 then
      if prevLost then Posture(false, true, 0, 0, 0) else Posture(false, false, 0, 1, 1)
    else if late == 1 then Posture(prevLost, prevLost, 0, 0, w.n - 1)
    else if prevLost then
      if lostTold then Posture(true, false, 0, 0, w.n) else Posture(true, true, 1, 0, w.n - 1)
    else Posture(!lostTold, w.rounded && !lostTold, 0, 0, w.n)
  }

  lemma BoundedMove(w: World, m: Move)
    requires Bounded(w) && Allowed(w, m)
    ensures Bounded(Moved(w, m))
  {
  }

  lemma ExpectedLost(w: World, s: Story, m: Move)
    requires Bounded(w) && Allowed(w, m) && Bounded(Moved(w, m)) && PostureOf(s) == Expected(w) && m.RunLost?
    ensures PostureOf(Follow(s, m)) == Expected(Moved(w, m))
    ensures s.sessions <= Follow(s, m).sessions < SESSIONS_MOD
  {
  }

  lemma ExpectedConnected(w: World, s: Story, m: Move)
    requires Bounded(w) && Allowed(w, m) && Bounded(Moved(w, m)) && PostureOf(s) == Expected(w) && m.RunConnected?
    ensures PostureOf(Follow(s, m)) == Expected(Moved(w, m))
    ensures s.sessions <= Follow(s, m).sessions < SESSIONS_MOD
  {
    hide Story.AfterLost;
  }

  lemma ExpectedMove(w: World, s: Story, m: Move)
    requires Bounded(w) && Allowed(w, m) && Bounded(Moved(w, m)) && PostureOf(s) == Expected(w)
    ensures PostureOf(Follow(s, m)) == Expected(Moved(w, m))
    ensures s.sessions <= Follow(s, m).sessions < SESSIONS_MOD
  {
    hide Story.AfterLost;
    if m.RunLost? {
      ExpectedLost(w, s, m);
    } else if m.RunConnected? {
      ExpectedConnected(w, s, m);
    }
  }

  /** A legal story whose counter has not wrapped. */
  ghost predicate CountsTrue(s: Story) {
    Legal(s) && Begun(s.told) == s.sessions
  }

  /** A story that stands where the world says it must. */
  ghost predicate OnTrack(w: World, s: Story) {
    Bounded(w) && PostureOf(s) == Expected(w) && CountsTrue(s)
  }

  lemma NoWrap(s: Story, e: Callback)
    requires CountsTrue(s) && s.sessions <= s.After(e).sessions < SESSIONS_MOD
    ensures CountsTrue(s.After(e))
  {
    hide Story.After, Link;
    LegalAfter(s, e);
    var c := Begun(s.After(e).told);
    assert c % SESSIONS_MOD == s.After(e).sessions;
    assert c < SESSIONS_MOD;
  }

  /** What one move keeps. */
  lemma OneMove(w: World, s: Story, m: Move)
    requires OnTrack(w, s) && Allowed(w, m)
    ensures Bounded(Moved(w, m)) && PostureOf(Follow(s, m)) == Expected(Moved(w, m)) && CountsTrue(Follow(s, m))
  {
    hide CountsTrue, Story.After, Expected;
    BoundedMove(w, m);
    ExpectedMove(w, s, m);
    match CallbackOf(m) {
      case Some(e) => NoWrap(s, e);
      case None =>
    }
  }

  lemma {:induction false} PostureFollows(w: World, s: Story, moves: seq<Move>)
    requires OnTrack(w, s) && AllowedRun(w, moves)
    ensures Bounded(RunWorld(w, moves)) && CountsTrue(RunStory(s, moves))
    ensures PostureOf(RunStory(s, moves)) == Expected(RunWorld(w, moves))
    decreases |moves|
  {
    hide CountsTrue, Story.After, Expected;
    if moves != [] {
      OneMove(w, s, moves[0]);
      PostureFollows(Moved(w, moves[0]), Follow(s, moves[0]), moves[1..]);
    }
  }

  /** Convergence: whatever the interleaving, once every callback has run the
      told link is the real one, nothing is held back, and the timeline counts
      exactly the sessions there were. */
  lemma Converges(moves: seq<Move>)
    requires AllowedRun(QUIET_START, moves)
    ensures var w, s := RunWorld(QUIET_START, moves), RunStory(START, moves);
            w.waitingC == {} && w.waitingL == {} ==>
              && s.connected == w.up && s.sessions == w.n
              && !s.reconnectPending && s.failuresPending == []
              && s.connectedPending == 0 && s.staleConnected == 0
              && Link(s.told) == Some((w.up, w.n))
  {
    PostureFollows(QUIET_START, START, moves);
  }

  // ----- what is told is what happened -----

  /** A telling, its cause apart: when a session is lost, nobody knows yet with
      what cause its callback will come. */
  function Mark(t: Told): Told {
    if t.Lost? then Lost("") else t
  }

  function Marks(told: seq<Told>): seq<Told> {
    seq(|told|, i requires 0 <= i < |told| => Mark(told[i]))
  }

  /** What an archive that saw every move as it happened would be told of it. A
      further round of one outage is news again, unless the first still waits
      behind the loss: then the two are one. */
  function Happens(w: World, m: Move): seq<Told> {
    match m
    case Dial => [Connecting]
    case Round => if w.rounded && w.n in w.waitingL then [] else [Reconnecting]
    case Establish => [if w.n == 0 then Connected else Reconnected]
    case Lose => [Lost("")]
    case RoundFailed(cause) => [Failed(cause)]
    case _ => []
  }

  function Truth(w: World, moves: seq<Move>): seq<Told>
    decreases |moves|
  {
    if moves == [] then [] else Happens(w, moves[0]) + Truth(Moved(w, moves[0]), moves[1..])
  }

  /** Rounds fail while they are under way. */
  predicate FailsInRounds(w: World, moves: seq<Move>)
    decreases |moves|
  {
    moves == [] ||
    ((moves[0].RoundFailed? ==> w.n == 0 || w.rounded) && FailsInRounds(Moved(w, moves[0]), moves[1..]))
  }

  /** What has happened and is not yet told, in the order it will be; the
      failures held back come right after the round they belong to. */
  ghost function Untold(w: World, failures: seq<string>): seq<Told>
    requires Bounded(w)
  {
    var late := (if w.n in w.waitingC then 1 else 0) + (if w.n == 2 && 1 in w.waitingC then 1 else 0);
    var prevLost := w.n - 1 in w.waitingL;
    var loss: seq<Told> := if !w.up && w.n in w.waitingL then [Lost("")] else [];
    var round: seq<Told> := [Reconnecting] + FailuresTold(failures);
    var rest := if w.rounded && loss != [] then loss + round else loss;
    if w.n == 0 then []
    else if w.n == 1 then if late == 1 && (w.up || loss != []) then [Connected] + rest else rest
    else if late == 2 then (if prevLost then [Connected, Lost("")] + round else []) + [Reconnected] + rest
    else if prevLost then
      if late == 0 && !w.up && loss == [] then [Lost("")]
      else [Lost("")] + round + [Reconnected] + rest
    else if late == 1 then [Reconnected] + rest
    else rest
  }

  lemma MarksConcat(a: seq<Told>, b: seq<Told>)
    ensures Marks(a + b) == Marks(a) + Marks(b)
  {
  }

  lemma MarksFailures(causes: seq<string>)
    ensures Marks(FailuresTold(causes)) == FailuresTold(causes)
  {
  }

  /** What a Lost callback adds to the timeline. */
  function ToldByLost(s: Story, why: string): seq<Told> {
    (if !s.connected && s.sessions == 0 then [Connected] else [])
    + (if s.connected || s.sessions == 0 then [Lost(why)] else [])
    + (if s.reconnectPending then [Reconnecting] else [])
    + FailuresTold(s.failuresPending)
    + if s.connectedPending > 0 then [Reconnected] else []
  }

  lemma LostTells(s: Story, why: string)
    requires s.connected ==> s.sessions > 0
    ensures s.AfterLost(why).told == s.told + ToldByLost(s, why)
    ensures s.AfterLost(why).failuresPending == []
  {
    hide FailuresTold;
    var a: seq<Told> := if !s.connected && s.sessions == 0 then [Connected] else [];
    var b: seq<Told> := if s.connected || s.sessions == 0 then [Lost(why)] else [];
    var c: seq<Told> := if s.reconnectPending then [Reconnecting] else [];
    var f := FailuresTold(s.failuresPending);
    var d: seq<Told> := if s.connectedPending > 0 then [Reconnected] else [];
    var t := s.AfterLost(why);
    assert t.failuresPending == [] && t.told == (((s.told + a) + b) + c) + f + d by {
      AddsNothing(s.told);
      AddsNothing(s.told + a);
      AddsNothing((s.told + a) + b);
      AddsNothing((((s.told + a) + b) + c) + f);
    }
    Associates(s.told, a, b);
    Associates(s.told, a + b, c);
    Associates(s.told, a + b + c, f);
    Associates(s.told, a + b + c + f, d);
  }

  lemma AddsNothing<T>(x: seq<T>)
    ensures x + [] == x
  {
  }

  lemma ConnectedMeansBegun(s: Story)
    requires CountsTrue(s)
    ensures s.connected ==> s.sessions > 0
  {
    UpMeansBegun(s.told);
  }

  lemma {:induction false} UpMeansBegun(told: seq<Told>)
    requires Link(told).Some?
    ensures Link(told).value.0 ==> Link(told).value.1 > 0
    decreases |told|
  {
    if told != [] {
      UpMeansBegun(told[..|told| - 1]);
    }
  }

  /** One move of the run, its failures in their rounds. */
  lemma StepTells(w: World, s: Story, m: Move)
    requires OnTrack(w, s) && Allowed(w, m) && Bounded(Moved(w, m))
    requires m.RoundFailed? ==> w.n == 0 || w.rounded
    ensures Marks(Follow(s, m).told) + Untold(Moved(w, m), Follow(s, m).failuresPending)
         == Marks(s.told) + (Untold(w, s.failuresPending) + Happens(w, m))
  {
    hide FailuresTold, Story.AfterLost, Link;
    if m.RunLost? {
      LostTold(w, s, m);
    } else if m.RunConnected? {
      ConnectedTold(w, s, m);
    } else {
      OtherTold(w, s, m);
    }
  }

  lemma LostTold(w: World, s: Story, m: Move)
    requires OnTrack(w, s) && Allowed(w, m) && Bounded(Moved(w, m)) && m.RunLost?
    ensures Marks(Follow(s, m).told) + Untold(Moved(w, m), Follow(s, m).failuresPending)
         == Marks(s.told) + (Untold(w, s.failuresPending) + Happens(w, m))
  {
    hide FailuresTold, Story.AfterLost, ToldByLost, Untold, Expected, CountsTrue, Bounded, Marks;
    ConnectedMeansBegun(s);
    LostTells(s, m.why);
    MarksConcat(s.told, ToldByLost(s, m.why));
    LostMoves(w, s, m);
    MarksByLost(s, m.why);
    var x, u := ToldByLost(s, ""), Untold(Moved(w, m), []);
    assert Marks(s.told) + x + u == Marks(s.told) + (x + u);
    assert Untold(w, s.failuresPending) + [] == Untold(w, s.failuresPending);
  }

  lemma MarksByLost(s: Story, why: string)
    ensures Marks(ToldByLost(s, why)) == ToldByLost(s, "")
  {
  }

  /** A Lost callback tells what was waiting for it, the failures in their place. */
  lemma LostMoves(w: World, s: Story, m: Move)
    requires OnTrack(w, s) && Allowed(w, m) && Bounded(Moved(w, m)) && m.RunLost?
    ensures ToldByLost(s, "") + Untold(Moved(w, m), []) == Untold(w, s.failuresPending)
  {
    hide Link, FailuresTold;
    var f := FailuresTold(s.failuresPending);
    var none: seq<Told> := [];
    assert FailuresTold([]) == none by {
      NoFailuresTold([]);
    }
    assert !s.reconnectPending ==> f == none;
    if w.n == 1 {
      LostInOrder(s, if w.n in w.waitingC then [Connected, Lost("")] else [Lost("")]);
    }
  }

  lemma LostInOrder(s: Story, begun: seq<Told>)
    requires begun == (if !s.connected && s.sessions == 0 then [Connected, Lost("")] else [Lost("")])
    requires (s.connected || s.sessions == 0) && (s.connected ==> s.sessions > 0)
    ensures ToldByLost(s, "") == begun + (if s.reconnectPending then [Reconnecting] else [])
                                 + FailuresTold(s.failuresPending)
                                 + if s.connectedPending > 0 then [Reconnected] else []
  {
    hide FailuresTold;
  }

  lemma ConnectedTold(w: World, s: Story, m: Move)
    requires OnTrack(w, s) && Allowed(w, m) && Bounded(Moved(w, m))
    requires m.RunConnected?
    ensures Marks(Follow(s, m).told) + Untold(Moved(w, m), Follow(s, m).failuresPending)
         == Marks(s.told) + (Untold(w, s.failuresPending) + Happens(w, m))
  {
    hide FailuresTold, Story.AfterLost, Link, Untold, CountsTrue, Marks;
    ConnectedTells(s);
    MarksConcat(s.told, ToldByConnected(s));
    MarksPlain(s);
    AddsNothing(Untold(w, s.failuresPending));
    ConnectedUntold(w, s, m);
    Associates(Marks(s.told), ToldByConnected(s), Untold(Moved(w, m), s.failuresPending));
  }

  /** What a Connected callback adds to the timeline. */
  function ToldByConnected(s: Story): seq<Told> {
    if s.staleConnected > 0 || s.connected then [] else [if s.sessions > 0 then Reconnected else Connected]
  }

  lemma ConnectedTells(s: Story)
    ensures s.AfterEstablished().told == s.told + ToldByConnected(s)
    ensures s.AfterEstablished().failuresPending == s.failuresPending
  {
  }

  lemma MarksPlain(s: Story)
    ensures Marks(ToldByConnected(s)) == ToldByConnected(s)
  {
  }

  lemma ConnectedUntold(w: World, s: Story, m: Move)
    requires OnTrack(w, s) && Allowed(w, m) && Bounded(Moved(w, m)) && m.RunConnected?
    ensures Untold(w, s.failuresPending) == ToldByConnected(s) + Untold(Moved(w, m), s.failuresPending)
  {
    hide FailuresTold, Link, CountsTrue;
  }

  lemma OtherTold(w: World, s: Story, m: Move)
    requires OnTrack(w, s) && Allowed(w, m) && Bounded(Moved(w, m))
    requires !m.RunLost? && !m.RunConnected? && (m.RoundFailed? ==> w.n == 0 || w.rounded)
    ensures Marks(Follow(s, m).told) + Untold(Moved(w, m), Follow(s, m).failuresPending)
         == Marks(s.told) + (Untold(w, s.failuresPending) + Happens(w, m))
  {
    if m.RoundFailed? {
      FailureTold(w, s, m);
    } else if m.Round? {
      RoundTold(w, s, m);
    } else if m.Establish? || m.Lose? {
      hide FailuresTold, Untold, Happens, Link;
      MoreUntold(w, s.failuresPending, m);
    } else {
      hide FailuresTold, Untold, Story.AfterLost, Link;
      if m.Dial? {
        MarksConcat(s.told, [Connecting]);
        assert Untold(w, s.failuresPending) == [] by {
          NothingUntoldYet(w, s.failuresPending);
        }
      } else {
        AddsNothing(Untold(w, s.failuresPending));
      }
    }
  }

  lemma NothingUntoldYet(w: World, failures: seq<string>)
    requires Bounded(w) && w.n == 0
    ensures Untold(w, failures) == []
  {
  }

  /** What really happens waits to be told. */
  lemma MoreUntold(w: World, failures: seq<string>, m: Move)
    requires Bounded(w) && Allowed(w, m) && Bounded(Moved(w, m)) && (m.Establish? || m.Lose?)
    ensures Untold(Moved(w, m), failures) == Untold(w, failures) + Happens(w, m)
  {
    hide FailuresTold;
    if m.Establish? {
      AddsNothing(Untold(w, failures));
    }
  }

  /** A round begins: told at once, or behind the loss that waits. */
  lemma RoundTold(w: World, s: Story, m: Move)
    requires OnTrack(w, s) && Allowed(w, m) && Bounded(Moved(w, m)) && m.Round?
    ensures Marks(Follow(s, m).told) + Untold(Moved(w, m), Follow(s, m).failuresPending)
         == Marks(s.told) + (Untold(w, s.failuresPending) + Happens(w, m))
  {
    hide FailuresTold, Story.AfterLost, Link;
    assert FailuresTold([]) == [] by {
      NoFailuresTold([]);
    }
    AddsNothing([Reconnecting]);
    MarksConcat(s.told, [Reconnecting]);
  }

  /** A round fails: told at once, or behind the round that waits. */
  lemma FailureTold(w: World, s: Story, m: Move)
    requires OnTrack(w, s) && Allowed(w, m)
    requires m.RoundFailed? && (w.n == 0 || w.rounded)
    ensures Marks(Follow(s, m).told) + Untold(w, Follow(s, m).failuresPending)
         == Marks(s.told) + (Untold(w, s.failuresPending) + [Failed(m.cause)])
  {
    hide FailuresTold, Story.AfterLost, Link;
    var f, t := FailuresTold(s.failuresPending), Failed(m.cause);
    assert FailuresTold(s.failuresPending + [m.cause]) == f + [t] by {
      assert (s.failuresPending + [m.cause])[..|s.failuresPending|] == s.failuresPending;
      OneFailureTold(s.failuresPending + [m.cause], |s.failuresPending|);
      NoFailuresTold(s.failuresPending + [m.cause]);
    }
    MarksConcat(s.told, [t]);
  }

  /** Whatever the interleaving, what has been told, followed by what is held
      back, is what happened, in order and whole: every dial and every round,
      every session's beginning and end, and every failure in its round. Once no
      callback waits, nothing is held back. */
  lemma ToldIsWhatHappened(moves: seq<Move>)
    requires AllowedRun(QUIET_START, moves) && FailsInRounds(QUIET_START, moves)
    ensures var w, s := RunWorld(QUIET_START, moves), RunStory(START, moves);
            && Bounded(w) && Marks(s.told) + Untold(w, s.failuresPending) == Truth(QUIET_START, moves)
            && (w.waitingC == {} && w.waitingL == {} ==> Marks(s.told) == Truth(QUIET_START, moves))
  {
    hide Truth, RunStory, RunWorld, AllowedRun, FailsInRounds, Untold;
    PostureFollows(QUIET_START, START, moves);
    StoryTells(QUIET_START, START, moves);
    NothingUntold(QUIET_START, []);
    var w, s := RunWorld(QUIET_START, moves), RunStory(START, moves);
    if w.waitingC == {} && w.waitingL == {} {
      NothingUntold(w, s.failuresPending);
      AddsNothing(Marks(s.told));
    }
    assert Marks([]) + ([] + Truth(QUIET_START, moves)) == Truth(QUIET_START, moves);
  }

  lemma NothingUntold(w: World, failures: seq<string>)
    requires Bounded(w) && w.waitingC == {} && w.waitingL == {}
    ensures Untold(w, failures) == []
  {
  }

  lemma {:induction false} StoryTells(w: World, s: Story, moves: seq<Move>)
    requires OnTrack(w, s) && AllowedRun(w, moves) && FailsInRounds(w, moves)
    ensures var w', s' := RunWorld(w, moves), RunStory(s, moves);
            Bounded(w') &&
            Marks(s'.told) + Untold(w', s'.failuresPending)
              == Marks(s.told) + (Untold(w, s.failuresPending) + Truth(w, moves))
    decreases |moves|
  {
    hide CountsTrue, Story.After, Expected, Untold, Happens, Bounded;
    if moves == [] {
      AddsNothing(Untold(w, s.failuresPending));
    } else {
      var m := moves[0];
      var w1, s1 := Moved(w, m), Follow(s, m);
      OneMove(w, s, m);
      StepTells(w, s, m);
      StoryTells(w1, s1, moves[1..]);
      var u, h, t := Untold(w, s.failuresPending), Happens(w, m), Truth(w1, moves[1..]);
      Associates(Marks(s1.told), Untold(w1, s1.failuresPending), t);
      Associates(Marks(s.told), u + h, t);
      Associates(u, h, t);
    }
  }

  // ----- wherever failures fall -----

  /** The timeline without its failures. */
  function Milestones(told: seq<Told>): seq<Told> {
    if told == [] then []
    else
      var t := told[|told| - 1];
      Milestones(told[..|told| - 1]) + if t.Failed? then [] else [Mark(t)]
  }

  lemma {:induction false} MilestonesConcat(a: seq<Told>, b: seq<Told>)
    ensures Milestones(a + b) == Milestones(a) + Milestones(b)
    decreases |b|
  {
    hide Mark;
    if b == [] {
      AddsNothing(a);
      AddsNothing(Milestones(a));
    } else {
      var n, t := |b| - 1, b[|b| - 1];
      assert (a + b)[..|a| + n] == a + b[..n];
      MilestonesConcat(a, b[..n]);
      Associates(Milestones(a), Milestones(b[..n]), if t.Failed? then [] else [Mark(t)]);
    }
  }

  lemma {:induction false} MilestonesOfMarks(told: seq<Told>)
    ensures Milestones(Marks(told)) == Milestones(told)
    decreases |told|
  {
    if told != [] {
      var n := |told| - 1;
      assert Marks(told)[..n] == Marks(told[..n]);
      MilestonesOfMarks(told[..n]);
    }
  }

  lemma {:induction false} NoMilestone(causes: seq<string>)
    ensures Milestones(FailuresTold(causes)) == []
    decreases |causes|
  {
    if causes != [] {
      var n := |causes| - 1;
      assert FailuresTold(causes)[..n] == FailuresTold(causes[..n]);
      NoMilestone(causes[..n]);
    }
  }

  /** Where in what is held back the failures stand. */
  ghost function UntoldBefore(w: World): seq<Told> {
    if w.n in w.waitingC && (w.n == 1 || (w.n == 2 && 1 in w.waitingC)) then [Connected, Lost(""), Reconnecting]
    else [Lost(""), Reconnecting]
  }

  ghost function UntoldAfter(w: World): seq<Told> {
    if w.n == 1 || w.rounded then []
    else if !w.up && w.n in w.waitingL then [Reconnected, Lost("")]
    else [Reconnected]
  }

  /** Whether a round is held back, and the failures behind it. */
  ghost predicate RoundWaits(w: World) {
    if w.n >= 2 && w.n - 1 in w.waitingL then w.n in w.waitingC || 1 in w.waitingC || w.up || w.n in w.waitingL
    else w.rounded && w.n in w.waitingL
  }

  lemma UntoldParts(w: World, f: seq<string>)
    requires Bounded(w) && RoundWaits(w)
    ensures Untold(w, f) == UntoldBefore(w) + FailuresTold(f) + UntoldAfter(w)
  {
    hide FailuresTold;
  }

  lemma UntoldPlain(w: World, f: seq<string>, g: seq<string>)
    requires Bounded(w) && !RoundWaits(w)
    ensures Untold(w, f) == Untold(w, g)
  {
    hide FailuresTold;
  }

  lemma FailuresAside(w: World, f: seq<string>, g: seq<string>)
    requires Bounded(w)
    ensures Milestones(Untold(w, f)) == Milestones(Untold(w, g))
  {
    hide Untold, FailuresTold, Milestones, UntoldBefore, UntoldAfter, RoundWaits;
    if RoundWaits(w) {
      UntoldParts(w, f);
      UntoldParts(w, g);
      AroundFailures(UntoldBefore(w), f, UntoldAfter(w));
      AroundFailures(UntoldBefore(w), g, UntoldAfter(w));
    } else {
      UntoldPlain(w, f, g);
    }
  }

  lemma AroundFailures(pre: seq<Told>, f: seq<string>, post: seq<Told>)
    ensures Milestones(pre + FailuresTold(f) + post) == Milestones(pre) + Milestones(post)
  {
    hide FailuresTold, Milestones;
    MilestonesConcat(pre, FailuresTold(f));
    MilestonesConcat(pre + FailuresTold(f), post);
    NoMilestone(f);
    AddsNothing(Milestones(pre));
  }

  lemma OneMilestone(t: Told)
    ensures Milestones([t]) == if t.Failed? then [] else [Mark(t)]
  {
    assert [t][..0] == [];
  }

  lemma MilestoneTold(w: World, s: Story, m: Move)
    requires OnTrack(w, s) && Allowed(w, m) && Bounded(Moved(w, m))
    ensures Milestones(Follow(s, m).told) + Milestones(Untold(Moved(w, m), Follow(s, m).failuresPending))
         == Milestones(s.told) + (Milestones(Untold(w, s.failuresPending)) + Milestones(Happens(w, m)))
  {
    hide Untold, Milestones, Expected, CountsTrue, FailuresTold;
    if m.RoundFailed? {
      OneMilestone(Failed(m.cause));
      MilestonesConcat(s.told, [Failed(m.cause)]);
      AddsNothing(Milestones(s.told));
      AddsNothing(Milestones(Untold(w, s.failuresPending)));
      FailuresAside(w, s.failuresPending, Follow(s, m).failuresPending);
    } else {
      hide Follow, Happens;
      StepTells(w, s, m);
      var t, u := Follow(s, m), Untold(w, s.failuresPending);
      MilestonesConcat(Marks(t.told), Untold(Moved(w, m), t.failuresPending));
      MilestonesConcat(Marks(s.told), u + Happens(w, m));
      MilestonesConcat(u, Happens(w, m));
      MilestonesOfMarks(t.told);
      MilestonesOfMarks(s.told);
    }
  }

  lemma {:induction false} StoryMilestones(w: World, s: Story, moves: seq<Move>)
    requires OnTrack(w, s) && AllowedRun(w, moves)
    ensures var w', s' := RunWorld(w, moves), RunStory(s, moves);
            Bounded(w') &&
            Milestones(s'.told) + Milestones(Untold(w', s'.failuresPending))
              == Milestones(s.told) + (Milestones(Untold(w, s.failuresPending)) + Milestones(Truth(w, moves)))
    decreases |moves|
  {
    hide CountsTrue, Story.After, Expected, Untold, Happens, Bounded, Milestones;
    if moves == [] {
      AddsNothing(Milestones(Untold(w, s.failuresPending)));
      NoMilestone([]);
      NoFailuresTold([]);
    } else {
      var m := moves[0];
      var w1, s1 := Moved(w, m), Follow(s, m);
      OneMove(w, s, m);
      MilestoneTold(w, s, m);
      StoryMilestones(w1, s1, moves[1..]);
      MilestonesConcat(Happens(w, m), Truth(w1, moves[1..]));
      var u, h := Milestones(Untold(w, s.failuresPending)), Milestones(Happens(w, m));
      var t := Milestones(Truth(w1, moves[1..]));
      Associates(Milestones(s1.told), Milestones(Untold(w1, s1.failuresPending)), t);
      Associates(Milestones(s.told), u + h, t);
      Associates(u, h, t);
    }
  }

  /** And wherever failures fall, everything else is told as it happened. */
  lemma MilestonesAreTold(moves: seq<Move>)
    requires AllowedRun(QUIET_START, moves)
    ensures var w, s := RunWorld(QUIET_START, moves), RunStory(START, moves);
            && Bounded(w)
            && Milestones(s.told) + Milestones(Untold(w, s.failuresPending)) == Milestones(Truth(QUIET_START, moves))
            && (w.waitingC == {} && w.waitingL == {} ==> Milestones(s.told) == Milestones(Truth(QUIET_START, moves)))
  {
    hide Truth, RunStory, RunWorld, AllowedRun, Untold, Milestones;
    PostureFollows(QUIET_START, START, moves);
    StoryMilestones(QUIET_START, START, moves);
    NothingUntold(QUIET_START, []);
    NoMilestone([]);
    NoFailuresTold([]);
    var none: seq<Told> := [];
    assert none + (none + Milestones(Truth(QUIET_START, moves))) == Milestones(Truth(QUIET_START, moves));
    var w, s := RunWorld(QUIET_START, moves), RunStory(START, moves);
    if w.waitingC == {} && w.waitingL == {} {
      NothingUntold(w, s.failuresPending);
      AddsNothing(Milestones(s.told));
    }
  }

  // ----- what a reader of the timeline relies on -----

  /** A reconnection has been told since the last loss. */
  predicate Announcing(told: seq<Told>) {
    told != [] && (told[|told| - 1].Reconnecting? || (!told[|told| - 1].Lost? && Announcing(told[..|told| - 1])))
  }

  /** No session comes back unannounced. */
  predicate Announced(told: seq<Told>) {
    told == [] ||
    (Announced(told[..|told| - 1]) && (told[|told| - 1].Reconnected? ==> Announcing(told[..|told| - 1])))
  }

  lemma AnnouncedOneMore(told: seq<Told>, t: Told)
    ensures Announcing(told + [t]) <==> t.Reconnecting? || (!t.Lost? && Announcing(told))
    ensures Announced(told + [t]) <==> Announced(told) && (t.Reconnected? ==> Announcing(told))
  {
    assert (told + [t])[..|told|] == told;
  }

  lemma {:induction false} AnnouncedMilestones(told: seq<Told>)
    ensures Announcing(Milestones(told)) <==> Announcing(told)
    ensures Announced(Milestones(told)) <==> Announced(told)
    decreases |told|
  {
    if told != [] {
      var n := |told| - 1;
      AnnouncedMilestones(told[..n]);
      if told[n].Failed? {
        AddsNothing(Milestones(told[..n]));
      } else {
        AnnouncedOneMore(Milestones(told[..n]), Mark(told[n]));
      }
    }
  }

  lemma {:induction false} AnnouncedBefore(a: seq<Told>, b: seq<Told>)
    requires Announced(a + b)
    ensures Announced(a)
    decreases |b|
  {
    if b == [] {
      AddsNothing(a);
    } else {
      assert (a + b)[..|a + b| - 1] == a + b[..|b| - 1];
      AnnouncedBefore(a, b[..|b| - 1]);
    }
  }

  ghost predicate AnnouncedAt(told: seq<Told>, w: World) {
    Announced(told) && (!w.up ==> (Announcing(told) <==> w.rounded)) && (w.rounded ==> Announcing(told))
  }

  lemma {:induction false} TruthAnnounces(told: seq<Told>, w: World, moves: seq<Move>)
    requires AnnouncedAt(told, w) && Bounded(w) && AllowedRun(w, moves)
    ensures AnnouncedAt(told + Truth(w, moves), RunWorld(w, moves))
    decreases |moves|
  {
    if moves == [] {
      AddsNothing(told);
    } else {
      hide Announced, Announcing, Bounded;
      var m := moves[0];
      BoundedMove(w, m);
      if Happens(w, m) == [] {
        AddsNothing(told);
      } else {
        AnnouncedOneMore(told, Happens(w, m)[0]);
        assert Happens(w, m) == [Happens(w, m)[0]];
      }
      TruthAnnounces(told + Happens(w, m), Moved(w, m), moves[1..]);
      Associates(told, Happens(w, m), Truth(Moved(w, m), moves[1..]));
    }
  }

  /** Under the bound, between a loss and a return a reconnection is always told;
      and once no callback waits and the link is down, one has been told since
      the last loss exactly when a round has begun. */
  lemma ReturnsAreAnnounced(moves: seq<Move>)
    requires AllowedRun(QUIET_START, moves)
    ensures var w, s := RunWorld(QUIET_START, moves), RunStory(START, moves);
            && Announced(s.told)
            && (w.waitingC == {} && w.waitingL == {} && !w.up ==> (Announcing(s.told) <==> w.rounded))
  {
    hide RunStory, RunWorld, AllowedRun, Truth, Untold, Milestones, Announced, Announcing;
    var w, s := RunWorld(QUIET_START, moves), RunStory(START, moves);
    var truth := Truth(QUIET_START, moves);
    MilestonesAreTold(moves);
    assert AnnouncedAt([], QUIET_START) by {
      NothingAnnounced();
    }
    TruthAnnounces([], QUIET_START, moves);
    assert [] + truth == truth;
    AnnouncedMilestones(truth);
    AnnouncedMilestones(s.told);
    AnnouncedBefore(Milestones(s.told), Milestones(Untold(w, s.failuresPending)));
  }

  lemma NothingAnnounced()
    ensures Announced([]) && !Announcing([])
  {
  }

  function LossCauses(told: seq<Told>): seq<string> {
    if told == [] then []
    else
      var t := told[|told| - 1];
      LossCauses(told[..|told| - 1]) + if t.Lost? then [t.cause] else []
  }

  function LossReasons(moves: seq<Move>): seq<string> {
    if moves == [] then []
    else (if moves[0].RunLost? then [moves[0].why] else []) + LossReasons(moves[1..])
  }

  lemma {:induction false} LossCausesConcat(a: seq<Told>, b: seq<Told>)
    ensures LossCauses(a + b) == LossCauses(a) + LossCauses(b)
    decreases |b|
  {
    if b == [] {
      AddsNothing(a);
      AddsNothing(LossCauses(a));
    } else {
      var n, t := |b| - 1, b[|b| - 1];
      assert (a + b)[..|a| + n] == a + b[..n];
      LossCausesConcat(a, b[..n]);
      Associates(LossCauses(a), LossCauses(b[..n]), if t.Lost? then [t.cause] else []);
    }
  }

  lemma {:induction false} NoLossCause(causes: seq<string>)
    ensures LossCauses(FailuresTold(causes)) == []
    decreases |causes|
  {
    if causes != [] {
      var n := |causes| - 1;
      assert FailuresTold(causes)[..n] == FailuresTold(causes[..n]);
      NoLossCause(causes[..n]);
    }
  }

  lemma OneLossCause(t: Told)
    ensures LossCauses([t]) == if t.Lost? then [t.cause] else []
  {
    assert [t][..0] == [];
  }

  lemma CausesByLost(s: Story, why: string)
    requires s.connected || s.sessions == 0
    ensures LossCauses(ToldByLost(s, why)) == [why]
  {
    hide LossCauses, FailuresTold;
    var a: seq<Told> := if !s.connected && s.sessions == 0 then [Connected] else [];
    var c: seq<Told> := if s.reconnectPending then [Reconnecting] else [];
    var f := FailuresTold(s.failuresPending);
    var d: seq<Told> := if s.connectedPending > 0 then [Reconnected] else [];
    LossCausesConcat(a, [Lost(why)]);
    LossCausesConcat(a + [Lost(why)], c);
    LossCausesConcat(a + [Lost(why)] + c, f);
    LossCausesConcat(a + [Lost(why)] + c + f, d);
    NoLossCause(s.failuresPending);
    NoLossCause([]);
    NoFailuresTold([]);
    OneLossCause(Connected);
    OneLossCause(Lost(why));
    OneLossCause(Reconnecting);
    OneLossCause(Reconnected);
  }

  lemma CauseTold(w: World, s: Story, m: Move)
    requires OnTrack(w, s) && Allowed(w, m)
    ensures LossCauses(Follow(s, m).told) == LossCauses(s.told) + if m.RunLost? then [m.why] else []
  {
    hide LossCauses, FailuresTold, Link, Begun;
    AddsNothing(LossCauses(s.told));
    if m.RunLost? {
      hide Story.AfterLost;
      ConnectedMeansBegun(s);
      LostTells(s, m.why);
      LossCausesConcat(s.told, ToldByLost(s, m.why));
      CausesByLost(s, m.why);
    } else if |Follow(s, m).told| > |s.told| {
      var t := Follow(s, m).told[|s.told|];
      LossCausesConcat(s.told, [t]);
      OneLossCause(t);
    }
  }

  lemma {:induction false} StoryCauses(w: World, s: Story, moves: seq<Move>)
    requires OnTrack(w, s) && AllowedRun(w, moves)
    ensures LossCauses(RunStory(s, moves).told) == LossCauses(s.told) + LossReasons(moves)
    decreases |moves|
  {
    hide CountsTrue, Expected, Bounded, PostureOf, Story.After, Allowed, Moved, Follow, LossCauses;
    if moves == [] {
      AddsNothing(LossCauses(s.told));
    } else {
      OneMove(w, s, moves[0]);
      CauseTold(w, s, moves[0]);
      StoryCauses(Moved(w, moves[0]), Follow(s, moves[0]), moves[1..]);
      Associates(LossCauses(s.told), if moves[0].RunLost? then [moves[0].why] else [], LossReasons(moves[1..]));
    }
  }

  /** Every Lost callback is told once, with the cause it brought, in the order
      they ran. */
  lemma CausesAreTheirOwn(moves: seq<Move>)
    requires AllowedRun(QUIET_START, moves)
    ensures LossCauses(RunStory(START, moves).told) == LossReasons(moves)
  {
    StoryCauses(QUIET_START, START, moves);
    assert [] + LossReasons(moves) == LossReasons(moves);
  }

  /** One callback too late: the second session's Lost runs while its Connected
      still waits. */
  const LATE: seq<Move> := [Dial, Establish, RunConnected(1), Lose, RunLost(1, "a"), Round, Establish, Lose]

  /** The bound is needed. Every move of this run is one the world allows but the
      ninth, a Lost that runs before its own session's Connected; the tenth runs
      that Connected, and then no callback waits, the link is down, and the story
      says it is up. */
  lemma LateBeyondTheBound()
    ensures AllowedRun(QUIET_START, LATE)
    ensures var w := RunWorld(QUIET_START, LATE);
            && 2 in w.waitingL && 2 in w.waitingC && !Allowed(w, RunLost(2, "b"))
            && Allowed(Moved(w, RunLost(2, "b")), RunConnected(2))
    ensures var moves := LATE + [RunLost(2, "b"), RunConnected(2)];
            var w, s := RunWorld(QUIET_START, moves), RunStory(START, moves);
            w.waitingC == {} && w.waitingL == {} && !w.up && s.connected
  {
    hide RunWorld, RunStory, AllowedRun, Follow;
    var w := WorldOfLate();
    PostureFollows(QUIET_START, START, LATE);
    var s := RunStory(START, LATE);
    assert PostureOf(s) == Posture(false, false, 0, 0, 1);
    RunsConcat(QUIET_START, START, LATE, [RunLost(2, "b"), RunConnected(2)]);
    RunsTwo(w, s, RunLost(2, "b"), RunConnected(2));
    TakenForABeginning(s);
    assert Moved(Moved(w, RunLost(2, "b")), RunConnected(2)) == World(2, false, false, {}, {});
  }

  lemma WorldOfLate() returns (w: World)
    ensures AllowedRun(QUIET_START, LATE) && w == RunWorld(QUIET_START, LATE) == World(2, false, false, {2}, {2})
  {
    hide RunWorld, AllowedRun, Moved, Allowed;
    w := QUIET_START;
    NoMoves(w);
    for i := 0 to |LATE|
      invariant w == RunWorld(QUIET_START, LATE[..i]) && AllowedRun(QUIET_START, LATE[..i]) && w == LateAt(i)
    {
      LateStep(i);
      assert LATE[..i + 1] == LATE[..i] + [LATE[i]];
      OneMoreMove(QUIET_START, LATE[..i], LATE[i]);
      w := Moved(w, LATE[i]);
    }
    assert LATE[..|LATE|] == LATE;
  }

  /** The world before each move of that run. */
  function LateAt(i: nat): World {
    if i <= 1 then World(0, false, false, {}, {})
    else if i == 2 then World(1, true, false, {1}, {})
    else if i == 3 then World(1, true, false, {}, {})
    else if i == 4 then World(1, false, false, {}, {1})
    else if i == 5 then World(1, false, false, {}, {})
    else if i == 6 then World(1, false, true, {}, {})
    else if i == 7 then World(2, true, false, {2}, {})
    else World(2, false, false, {2}, {2})
  }

  lemma LateStep(i: nat)
    requires i < |LATE|
    ensures Allowed(LateAt(i), LATE[i]) && Moved(LateAt(i), LATE[i]) == LateAt(i + 1)
  {
  }

  lemma NoMoves(w: World)
    ensures RunWorld(w, []) == w && AllowedRun(w, [])
  {
  }

  lemma {:induction false} OneMoreMove(w: World, moves: seq<Move>, m: Move)
    requires AllowedRun(w, moves) && Allowed(RunWorld(w, moves), m)
    ensures AllowedRun(w, moves + [m]) && RunWorld(w, moves + [m]) == Moved(RunWorld(w, moves), m)
    decreases |moves|
  {
    hide Allowed, Moved;
    if moves == [] {
      assert [] + [m] == [m];
    } else {
      assert (moves + [m])[1..] == moves[1..] + [m];
      OneMoreMove(Moved(w, moves[0]), moves[1..], m);
    }
  }

  lemma {:induction false} RunsConcat(w: World, s: Story, a: seq<Move>, b: seq<Move>)
    ensures RunWorld(w, a + b) == RunWorld(RunWorld(w, a), b) && RunStory(s, a + b) == RunStory(RunStory(s, a), b)
    decreases |a|
  {
    hide Moved, Follow;
    if a == [] {
      assert [] + b == b;
    } else {
      assert (a + b)[1..] == a[1..] + b;
      RunsConcat(Moved(w, a[0]), Follow(s, a[0]), a[1..], b);
    }
  }

  lemma RunsTwo(w: World, s: Story, m: Move, n: Move)
    ensures RunWorld(w, [m, n]) == Moved(Moved(w, m), n) && RunStory(s, [m, n]) == Follow(Follow(s, m), n)
  {
    hide Moved, Follow;
    assert [m, n][1..] == [n] && [n][1..] == [];
    assert RunWorld(Moved(w, m), [n]) == Moved(Moved(w, m), n);
    assert RunStory(Follow(s, m), [n]) == Follow(Follow(s, m), n);
  }

  /** A story told nothing of the second session takes its Lost for no news, and
      then its Connected for a beginning. */
  lemma TakenForABeginning(s: Story)
    requires PostureOf(s) == Posture(false, false, 0, 0, 1)
    ensures Follow(Follow(s, RunLost(2, "b")), RunConnected(2)).connected
  {
  }
}
