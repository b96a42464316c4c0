/** The manager's observers: which connections run, which relay each watches and
    why the others are down, as relays and observers come, go and restart
    (cmd/lotor/observers.go, cmd/lotor/manager.go). */
module Observers {
  import opened Common

  /** Why an observer is not running: the error startObserver met. */
  datatype Cause =
    | BadParams(text: string)       // resolveMQTTParams refuses
    | NoSuchRelay(relay: string)    // relay= names nobody
    | NotTheOnly(count: nat)        // relay= left out, and not exactly one runs
    | NoIdentity(relay: string)     // the relay's assembly gave it no identity
    | DialFailed(text: string)

  /** What resolveMQTTParams answers: the relay= the parameters carry, empty for
      "the only one". */
  datatype Params = Ok(relay: string) | Err(text: string)

  /** One configured observer. `dial` is what setting its client up answers. */
  datatype Config = Config(disabled: bool, params: Params, dial: Option<string>)

  type Relays = map<string, bool>  // every configured relay, and whether it has an identity

  datatype Target = To(relay: string) | Nowhere(cause: Cause)

  /** The one relay there is. */
  ghost function Only(relays: Relays): string
    requires |relays| == 1
    ensures Only(relays) in relays
  {
    var name :| name in relays.Keys;
    name
  }

  ghost function ObserverRelayIn(relays: Relays, relay: string): Target {
    if relay != "" then
      if relay in relays then To(relay) else Nowhere(NoSuchRelay(relay))
    else if |relays| == 1 then To(Only(relays))
    else Nowhere(NotTheOnly(|relays|))
  }

  ghost function TargetOf(relays: Relays, cfg: Config): Target {
    if cfg.params.Err? then Nowhere(BadParams(cfg.params.text))
    else ObserverRelayIn(relays, cfg.params.relay)
  }

  /** What starting the daemon on a file would make of one observer. */
  datatype Outcome = Parked | Up(relay: string) | Out(cause: Cause)

  ghost function OutcomeOf(relays: Relays, cfg: Config): Outcome {
    if cfg.disabled then Parked
    else
      match TargetOf(relays, cfg)
      case Nowhere(cause) => Out(cause)
      case To(r) =>
        if r !in relays || !relays[r] then Out(NoIdentity(r))
        else if cfg.dial.Some? then Out(DialFailed(cfg.dial.value))
        else Up(r)
  }

  /** What the manager shows for one observer: running on a relay, or down with
      its cause. Parked and unknown names show nothing. */
  datatype Slot = Running(relay: string) | Refused(cause: Cause)

  datatype State = State(relays: Relays, file: map<string, Config>,
                         live: map<string, string>, causes: map<string, Cause>)

  ghost function SlotAt(s: State, name: string): Option<Slot> {
    if name in s.live then Some(Running(s.live[name]))
    else if name in s.causes then Some(Refused(s.causes[name]))
    else None
  }

  ghost function FreshSlot(relays: Relays, file: map<string, Config>, name: string): Option<Slot> {
    if name !in file then None
    else
      match OutcomeOf(relays, file[name])
      case Parked => None
      case Up(r) => Some(Running(r))
      case Out(cause) => Some(Refused(cause))
  }

  /** No observer both runs and is down. */
  ghost predicate Apart(s: State) {
    forall name :: name in s.live ==> name !in s.causes
  }

  /** The running state is exactly what a restart on the current file would
      produce. */
  ghost predicate AsFresh(s: State) {
    Apart(s) && forall name :: SlotAt(s, name) == FreshSlot(s.relays, s.file, name)
  }

  // ----- the operations an operator has -----

  datatype Op =
    | AddRelay(name: string, identity: bool)
    | DropRelay(name: string)
    | RestartRelay(name: string, identity: bool)  // a mutation of it or of its radio, or a removal the store refused
    | AddObserver(name: string, cfg: Config)
    | SetObserver(name: string, cfg: Config)
    | DropObserver(name: string)

  /** An explicit relay= is a claim; a parked observer's counts. */
  ghost predicate Claimed(file: map<string, Config>, relay: string) {
    exists name :: name in file && file[name].params == Ok(relay)
  }

  /** What the manager takes; anything else is refused and changes nothing. */
  ghost predicate Accepts(s: State, op: Op) {
    match op
    case AddRelay(name, _) => name != "" && name !in s.relays
    case DropRelay(name) => name in s.relays && !Claimed(s.file, name)
    case RestartRelay(name, _) => name in s.relays
    case AddObserver(name, cfg) => name !in s.file && cfg.params.Ok?
    case SetObserver(name, cfg) => name in s.file && cfg.params.Ok?
    case DropObserver(name) => name in s.file
  }

  ghost function RelaysAfter(s: State, op: Op): Relays {
    match op
    case AddRelay(name, identity) => s.relays[name := identity]
    case DropRelay(name) => s.relays - {name}
    case RestartRelay(name, identity) => s.relays[name := identity]
    case _ => s.relays
  }

  ghost function FileAfter(s: State, op: Op): map<string, Config> {
    match op
    case AddObserver(name, cfg) => s.file[name := cfg]
    case SetObserver(name, cfg) => s.file[name := cfg]
    case DropObserver(name) => s.file - {name}
    case _ => s.file
  }

  /** The observers an operation re-reads against the new file: all of them when
      the topology moved, the ones running on a relay that restarted, the one
      that was written. */
  ghost predicate Reread(s: State, op: Op, name: string) {
    match op
    case AddRelay(_, _) => true
    case DropRelay(_) => true
    case RestartRelay(relay, _) => name in s.live && s.live[name] == relay
    case AddObserver(n, _) => name == n
    case SetObserver(n, _) => name == n
    case DropObserver(n) => name == n
  }

  /** One accepted operation, slot by slot. */
  ghost predicate Follows(s: State, op: Op, s': State) {
    && s'.relays == RelaysAfter(s, op)
    && s'.file == FileAfter(s, op)
    && Apart(s')
    && forall name ::
         SlotAt(s', name) == if Reread(s, op, name) then FreshSlot(s'.relays, s'.file, name) else SlotAt(s, name)
  }

  /** What holds at rest, over every run: whatever runs is what a restart would
      run, whatever is enabled either runs or has a cause, and a cause is never
      wrong about the topology — only about an identity or a dial behind a
      relay that restarted since. */
  ghost predicate Sound(s: State) {
    && Apart(s)
    && (forall name :: name in s.live ==> name in s.file && OutcomeOf(s.relays, s.file[name]) == Up(s.live[name]))
    && (forall name :: name in s.causes ==> name in s.file && !s.file[name].disabled)
    && (forall name :: name in s.file && !s.file[name].disabled ==> name in s.live || name in s.causes)
    && (forall name :: name in s.causes ==> CauseFits(s.relays, s.file[name], s.causes[name]))
  }

  ghost predicate CauseFits(relays: Relays, cfg: Config, cause: Cause) {
    match TargetOf(relays, cfg)
    case Nowhere(c) => cause == c
    case To(r) => cause == NoIdentity(r) || (cfg.dial.Some? && cause == DialFailed(cfg.dial.value))
  }

  lemma OnlyIsUnique(relays: Relays, name: string)
    requires |relays| == 1 && name in relays
    ensures name == Only(relays)
  {
    SubsetSize({name, Only(relays)}, relays.Keys);
  }

  lemma SubsetSize(a: set<string>, b: set<string>)
    requires a <= b
    ensures |a| <= |b|
  {
    assert b == a + (b - a);
  }

  class Manager {
    var relays: Relays
    var file: map<string, Config>
    var observers: map<string, string>
    var obsCause: map<string, Cause>

    ghost function Current(): State
      reads this
    {
      State(relays, file, observers, obsCause)
    }

    constructor (relays: Relays, file: map<string, Config>)
      ensures Current() == State(relays, file, map[], map[])
    {
      this.relays, this.file, observers, obsCause := relays, file, map[], map[];
    }

    /** The relay an observer watches: the named one, or the only one there is. */
    method ObserverRelay(relay: string) returns (t: Target)
      ensures t == ObserverRelayIn(relays, relay)
    {
      if relay != "" {
        if relay !in relays {
          return Nowhere(NoSuchRelay(relay));
        }
        return To(relay);
      }
      if |relays| == 1 {
        var name :| name in relays.Keys;
        OnlyIsUnique(relays, name);
        return To(name);
      }
      return Nowhere(NotTheOnly(|relays|));
    }

    method ObserverDown(name: string, cause: Cause)
      modifies this`obsCause
      ensures obsCause == old(obsCause)[name := cause]
    {
      obsCause := obsCause[name := cause];
    }

    method StopObserver(name: string)
      modifies this`observers
      ensures observers == old(observers) - {name}
    {
      if name !in observers {
        return;
      }
      observers := observers - {name};
    }

    method StartObserver(name: string)
      requires name in file && name !in observers && Apart(Current())
      modifies this`observers, this`obsCause
      ensures Apart(Current())
      ensures forall n :: SlotAt(Current(), n)
                       == if n == name then FreshSlot(relays, file, name) else SlotAt(old(Current()), n)
    {
      var cfg := file[name];
      if cfg.disabled {
        obsCause := obsCause - {name};
        return;
      }
      if cfg.params.Err? {
        this.ObserverDown(name, BadParams(cfg.params.text));
        return;
      }
      var target := this.ObserverRelay(cfg.params.relay);
      if target.Nowhere? {
        this.ObserverDown(name, target.cause);
        return;
      }
      if !relays[target.relay] {
        this.ObserverDown(name, NoIdentity(target.relay));
        return;
      }
      if cfg.dial.Some? {
        this.ObserverDown(name, DialFailed(cfg.dial.value));
        return;
      }
      observers := observers[name := target.relay];
      obsCause := obsCause - {name};
    }

    method BounceObserver(name: string)
      requires name in file && Apart(Current())
      modifies this`observers, this`obsCause
      ensures Apart(Current())
      ensures forall n :: SlotAt(Current(), n)
                       == if n == name then FreshSlot(relays, file, name) else SlotAt(old(Current()), n)
    {
      this.StopObserver(name);
      this.StartObserver(name);
    }

    /** Every configured observer of a daemon that has just assembled its
        relays. */
    method Start()
      requires observers == map[] && obsCause == map[]
      modifies this`observers, this`obsCause
      ensures AsFresh(Current())
    {
      var rest := file.Keys;
      while rest != {}
        invariant rest <= file.Keys && Apart(Current())
        invariant forall n :: SlotAt(Current(), n)
                           == if n in file.Keys - rest then FreshSlot(relays, file, n) else None
      {
        var name :| name in rest;
        assert SlotAt(Current(), name) == None;
        this.StartObserver(name);
        rest := rest - {name};
      }
    }

    /** Every observer running on a relay that was just rebuilt follows its
        successor. */
    method BounceObserversOf(relay: string)
      requires Apart(Current()) && forall n :: n in observers ==> n in file
      modifies this`observers, this`obsCause
      ensures Apart(Current())
      ensures forall n :: SlotAt(Current(), n)
                       == if n in old(observers) && old(observers)[n] == relay then FreshSlot(relays, file, n)
                          else SlotAt(old(Current()), n)
    {
      var names := set n | n in observers && observers[n] == relay;
      var rest := names;
      while rest != {}
        invariant rest <= names && Apart(Current())
        invariant forall n :: SlotAt(Current(), n)
                           == if n in names - rest then FreshSlot(relays, file, n) else SlotAt(old(Current()), n)
      {
        var name :| name in rest;
        this.BounceObserver(name);
        rest := rest - {name};
      }
    }

    /** What reconciling relies on: an observer left running still has the relay
        it captured behind it. */
    ghost predicate Reconcilable()
      reads this
    {
      && Apart(Current())
      && (forall n :: n in observers ==>
            && n in file && !file[n].disabled && file[n].dial.None?
            && (observers[n] in relays ==> relays[observers[n]]))
      && (forall n :: n in obsCause ==> n in file && !file[n].disabled)
    }

    /** Realigns every observer with the relays there now are. */
    method ReconcileObservers()
      requires Reconcilable()
      modifies this`observers, this`obsCause
      ensures AsFresh(Current())
    {
      var rest := file.Keys;
      while rest != {}
        invariant rest <= file.Keys && Apart(Current())
        invariant forall n :: n in rest ==> SlotAt(Current(), n) == SlotAt(old(Current()), n)
        invariant forall n :: n !in rest ==> SlotAt(Current(), n) == FreshSlot(relays, file, n)
      {
        var name :| name in rest;
        rest := rest - {name};
        this.ReconcileOne(name);
      }
    }

    method ReconcileOne(name: string)
      requires name in file && Apart(Current())
      requires name in observers ==>
                 && !file[name].disabled && file[name].dial.None?
                 && (observers[name] in relays ==> relays[observers[name]])
      requires file[name].disabled ==> name !in obsCause
      modifies this`observers, this`obsCause
      ensures Apart(Current())
      ensures forall n :: SlotAt(Current(), n)
                       == if n == name then FreshSlot(relays, file, name) else SlotAt(old(Current()), n)
    {
      var cfg := file[name];
      if cfg.disabled {
        return;
      }
      var target := Nowhere(BadParams(""));
      if cfg.params.Err? {
        target := Nowhere(BadParams(cfg.params.text));
      } else {
        target := this.ObserverRelay(cfg.params.relay);
      }
      if name in observers && target.Nowhere? {
        this.StopObserver(name);
        this.ObserverDown(name, target.cause);
      } else if name in observers && observers[name] != target.relay {
        this.BounceObserver(name);
      } else if name !in observers && target.To? {
        this.StartObserver(name);
      } else if name !in observers && (name !in obsCause || obsCause[name] != target.cause) {
        this.ObserverDown(name, target.cause);
      }
    }

    method Apply(op: Op) returns (accepted: bool)
      requires Sound(Current())
      modifies this
      ensures Sound(Current())
      ensures accepted <==> Accepts(old(Current()), op)
      ensures accepted ==> Follows(old(Current()), op, Current())
      ensures !accepted ==> Current() == old(Current())
    {
      match op {
        case AddRelay(name, identity) => accepted := this.CreateRelay(name, identity);
        case DropRelay(name) => accepted := this.RemoveRelay(name);
        case RestartRelay(name, identity) => accepted := this.RebuildRelay(name, identity);
        case AddObserver(name, cfg) => accepted := this.CreateObserver(name, cfg);
        case SetObserver(name, cfg) => accepted := this.MutateObserver(name, cfg);
        case DropObserver(name) => accepted := this.RemoveObserver(name);
      }
      if accepted {
        FollowsSound(old(Current()), op, Current());
      }
    }

    method CreateRelay(name: string, identity: bool) returns (accepted: bool)
      requires Sound(Current())
      modifies this
      ensures accepted <==> Accepts(old(Current()), AddRelay(name, identity))
      ensures accepted ==> Follows(old(Current()), AddRelay(name, identity), Current())
      ensures !accepted ==> Current() == old(Current())
      ensures accepted <==> name != "" && name !in old(relays)
      ensures accepted ==> relays == old(relays)[name := identity] && file == old(file)
    {
      if name == "" || name in relays {
        return false;
      }
      relays := relays[name := identity];
      this.ReconcileObservers();
      return true;
    }

    method RemoveRelay(name: string) returns (accepted: bool)
      requires Sound(Current())
      modifies this
      ensures accepted <==> Accepts(old(Current()), DropRelay(name))
      ensures accepted ==> Follows(old(Current()), DropRelay(name), Current())
      ensures !accepted ==> Current() == old(Current())
      ensures accepted <==> name in old(relays) && forall obs :: obs in old(file) ==> old(file)[obs].params != Ok(name)
      ensures accepted ==> relays == old(relays) - {name} && file == old(file)
    {
      if exists obs :: obs in file && file[obs].params == Ok(name) {
        return false;
      }
      if name !in relays {
        return false;
      }
      relays := relays - {name};
      this.ReconcileObservers();
      return true;
    }

    method RebuildRelay(name: string, identity: bool) returns (accepted: bool)
      requires Sound(Current())
      modifies this
      ensures accepted <==> Accepts(old(Current()), RestartRelay(name, identity))
      ensures accepted ==> Follows(old(Current()), RestartRelay(name, identity), Current())
      ensures !accepted ==> Current() == old(Current())
      ensures accepted <==> name in old(relays)
      ensures accepted ==> relays == old(relays)[name := identity] && file == old(file)
    {
      if name !in relays {
        return false;
      }
      relays := relays[name := identity];
      this.BounceObserversOf(name);
      return true;
    }

    method CreateObserver(name: string, cfg: Config) returns (accepted: bool)
      requires Sound(Current())
      modifies this
      ensures accepted <==> Accepts(old(Current()), AddObserver(name, cfg))
      ensures accepted ==> Follows(old(Current()), AddObserver(name, cfg), Current())
      ensures !accepted ==> Current() == old(Current())
      ensures accepted <==> name !in old(file) && cfg.params.Ok?
      ensures accepted ==> relays == old(relays) && file == old(file)[name := cfg]
    {
      if name in file || cfg.params.Err? {
        return false;
      }
      file := file[name := cfg];
      this.StartObserver(name);
      return true;
    }

    method MutateObserver(name: string, cfg: Config) returns (accepted: bool)
      requires Sound(Current())
      modifies this
      ensures accepted <==> Accepts(old(Current()), SetObserver(name, cfg))
      ensures accepted ==> Follows(old(Current()), SetObserver(name, cfg), Current())
      ensures !accepted ==> Current() == old(Current())
      ensures accepted <==> name in old(file) && cfg.params.Ok?
      ensures accepted ==> relays == old(relays) && file == old(file)[name := cfg]
    {
      if name !in file || cfg.params.Err? {
        return false;
      }
      file := file[name := cfg];
      this.BounceObserver(name);
      return true;
    }

    method RemoveObserver(name: string) returns (accepted: bool)
      requires Sound(Current())
      modifies this
      ensures accepted <==> Accepts(old(Current()), DropObserver(name))
      ensures accepted ==> Follows(old(Current()), DropObserver(name), Current())
      ensures !accepted ==> Current() == old(Current())
      ensures accepted <==> name in old(file)
      ensures accepted ==> relays == old(relays) && file == old(file) - {name}
    {
      if name !in file {
        return false;
      }
      file := file - {name};
      this.StopObserver(name);
      obsCause := obsCause - {name};
      return true;
    }
  }

  // ----- what a slot says of the file -----

  /** The relay an observer's file gives it: the one it names, or the only one
      there is when it names none. */
  ghost predicate Watches(relays: Relays, cfg: Config, r: string) {
    && cfg.params.Ok? && r in relays
    && if cfg.params.relay == "" then relays.Keys == {r} else cfg.params.relay == r
  }

  ghost predicate Wanted(file: map<string, Config>, name: string) {
    name in file && !file[name].disabled
  }

  /** What each thing shown for an observer says of the relays and the file. */
  ghost predicate Says(relays: Relays, file: map<string, Config>, name: string, slot: Option<Slot>) {
    match slot
    case None => !Wanted(file, name)
    case Some(Running(r)) =>
      Wanted(file, name) && Watches(relays, file[name], r) && relays[r] && file[name].dial == None
    case Some(Refused(cause)) => Wanted(file, name) && Blames(relays, file[name], cause)
  }

  ghost predicate Blames(relays: Relays, cfg: Config, cause: Cause) {
    match cause
    case BadParams(text) => cfg.params == Err(text)
    case NoSuchRelay(relay) => cfg.params == Ok(relay) && relay != "" && relay !in relays
    case NotTheOnly(count) => cfg.params == Ok("") && count == |relays| && count != 1
    case NoIdentity(r) => Watches(relays, cfg, r) && !relays[r]
    case DialFailed(text) => cfg.dial == Some(text) && exists r :: Watches(relays, cfg, r) && relays[r]
  }

  lemma WatchesOne(relays: Relays, cfg: Config, r: string)
    requires Watches(relays, cfg, r)
    ensures TargetOf(relays, cfg) == To(r)
  {
    if cfg.params.relay == "" {
      assert |relays| == |relays.Keys| == 1;
      OnlyIsUnique(relays, r);
    }
  }

  lemma TargetIsWatched(relays: Relays, cfg: Config)
    requires TargetOf(relays, cfg).To?
    ensures Watches(relays, cfg, TargetOf(relays, cfg).relay)
  {
    if cfg.params.relay == "" {
      assert |relays| == |relays.Keys|;
      forall name | name in relays ensures name == Only(relays) {
        OnlyIsUnique(relays, name);
      }
    }
  }

  /** No other cause is true of an observer whose relay is not to be had, and only
      two can be of one whose relay is. */
  lemma BlamesOne(relays: Relays, cfg: Config, cause: Cause)
    ensures TargetOf(relays, cfg).Nowhere? ==> (Blames(relays, cfg, cause) <==> TargetOf(relays, cfg).cause == cause)
    ensures TargetOf(relays, cfg).To? ==>
              var r := TargetOf(relays, cfg).relay;
              Blames(relays, cfg, cause) <==>
                if r in relays && relays[r] then cfg.dial.Some? && cause == DialFailed(cfg.dial.value)
                else cause == NoIdentity(r)
  {
    forall r | Watches(relays, cfg, r) ensures TargetOf(relays, cfg) == To(r) {
      WatchesOne(relays, cfg, r);
    }
    if TargetOf(relays, cfg).To? {
      TargetIsWatched(relays, cfg);
    }
  }

  /** A fresh start shows exactly what is so: the relay an observer runs on, or
      the first thing that is wrong with it. */
  lemma SlotSays(relays: Relays, file: map<string, Config>, name: string, slot: Option<Slot>)
    ensures slot == FreshSlot(relays, file, name) <==> Says(relays, file, name, slot)
  {
    hide TargetOf, Watches, Blames;
    if Wanted(file, name) {
      var cfg := file[name];
      if slot.Some? && slot.value.Refused? {
        BlamesOne(relays, cfg, slot.value.cause);
      } else if slot.Some? && Watches(relays, cfg, slot.value.relay) {
        WatchesOne(relays, cfg, slot.value.relay);
        WatchedIsThere(relays, cfg, slot.value.relay);
      }
      if TargetOf(relays, cfg).To? {
        TargetIsWatched(relays, cfg);
      }
    }
  }

  lemma WatchedIsThere(relays: Relays, cfg: Config, r: string)
    requires Watches(relays, cfg, r)
    ensures r in relays
  {
  }

  /** So of a state a restart would produce, and with it of every state a run
      reaches without a blind restart. */
  lemma FreshSays(s: State, name: string)
    requires AsFresh(s)
    ensures name in s.live <==>
              && Wanted(s.file, name) && s.file[name].dial == None
              && exists r :: Watches(s.relays, s.file[name], r) && s.relays[r]
    ensures name in s.live ==> Watches(s.relays, s.file[name], s.live[name]) && s.relays[s.live[name]]
    ensures name in s.causes <==> Wanted(s.file, name) && name !in s.live
    ensures name in s.causes ==> Blames(s.relays, s.file[name], s.causes[name])
  {
    assert SlotAt(s, name) == FreshSlot(s.relays, s.file, name);
    SlotSays(s.relays, s.file, name, SlotAt(s, name));
    if Wanted(s.file, name) && name !in s.live {
      var cfg := s.file[name];
      forall r, q | Watches(s.relays, cfg, r) && Watches(s.relays, cfg, q) ensures r == q {
        WatchesOne(s.relays, cfg, r);
        WatchesOne(s.relays, cfg, q);
      }
    }
  }

  // ----- every run -----

  lemma FreshSound(s: State)
    requires AsFresh(s)
    ensures Sound(s)
  {
    forall name
      ensures name in s.live ==> name in s.file && OutcomeOf(s.relays, s.file[name]) == Up(s.live[name])
      ensures name in s.causes ==> name in s.file && OutcomeOf(s.relays, s.file[name]) == Out(s.causes[name])
      ensures name in s.file && !s.file[name].disabled ==> name in s.live || name in s.causes
    {
      assert SlotAt(s, name) == FreshSlot(s.relays, s.file, name);
    }
  }

  /** A restart that changes whether a relay has an identity says nothing to
      the observers of that relay that were not running. */
  ghost predicate Blind(s: State, op: Op) {
    && op.RestartRelay?
    && op.name in s.relays && s.relays[op.name] != op.identity
    && exists name ::
         && name in s.file && name !in s.live
         && !s.file[name].disabled && TargetOf(s.relays, s.file[name]) == To(op.name)
  }

  lemma SlotFollows(s: State, op: Op, s': State, name: string)
    requires Sound(s) && Accepts(s, op) && Follows(s, op, s')
    ensures name in s'.live ==> name in s'.file && OutcomeOf(s'.relays, s'.file[name]) == Up(s'.live[name])
    ensures name in s'.causes ==>
              && name in s'.file && !s'.file[name].disabled
              && CauseFits(s'.relays, s'.file[name], s'.causes[name])
    ensures name in s'.file && !s'.file[name].disabled ==> name in s'.live || name in s'.causes
  {
    assert SlotAt(s', name) == if Reread(s, op, name) then FreshSlot(s'.relays, s'.file, name) else SlotAt(s, name);
    if op.RestartRelay? {
      SameTopology(s.relays, s'.relays);
      RestartFollows(s, op, s', name);
    } else {
      hide ObserverRelayIn;
    }
  }

  lemma RestartFollows(s: State, op: Op, s': State, name: string)
    requires Sound(s) && op.RestartRelay? && s'.file == s.file && s'.relays == RelaysAfter(s, op) && Apart(s')
    requires SlotAt(s', name) == if Reread(s, op, name) then FreshSlot(s'.relays, s'.file, name) else SlotAt(s, name)
    requires forall relay :: ObserverRelayIn(s.relays, relay) == ObserverRelayIn(s'.relays, relay)
    ensures name in s'.live ==> name in s'.file && OutcomeOf(s'.relays, s'.file[name]) == Up(s'.live[name])
    ensures name in s'.causes ==>
              && name in s'.file && !s'.file[name].disabled
              && CauseFits(s'.relays, s'.file[name], s'.causes[name])
    ensures name in s'.file && !s'.file[name].disabled ==> name in s'.live || name in s'.causes
  {
    hide ObserverRelayIn;
    if name in s.file {
      assert TargetOf(s.relays, s.file[name]) == TargetOf(s'.relays, s.file[name]);
    }
  }

  /** Restarting a relay moves no name in the topology. */
  lemma SameTopology(a: Relays, b: Relays)
    requires a.Keys == b.Keys
    ensures forall relay :: ObserverRelayIn(a, relay) == ObserverRelayIn(b, relay)
  {
    assert |a| == |a.Keys| && |b| == |b.Keys|;
    if |a| == 1 {
      OnlyIsUnique(b, Only(a));
    }
  }

  /** What every accepted operation keeps. */
  lemma FollowsSound(s: State, op: Op, s': State)
    requires Sound(s) && Accepts(s, op) && Follows(s, op, s')
    ensures Sound(s')
  {
    hide OutcomeOf, CauseFits, FreshSlot;
    forall name
      ensures name in s'.live ==> name in s'.file && OutcomeOf(s'.relays, s'.file[name]) == Up(s'.live[name])
      ensures name in s'.causes ==>
                && name in s'.file && !s'.file[name].disabled
                && CauseFits(s'.relays, s'.file[name], s'.causes[name])
      ensures name in s'.file && !s'.file[name].disabled ==> name in s'.live || name in s'.causes
    {
      SlotFollows(s, op, s', name);
    }
  }

  /** From a state a restart would produce, an accepted operation leads to one a
      restart would produce exactly when it is not such a blind restart. */
  lemma FreshAfter(s: State, op: Op, s': State)
    requires AsFresh(s) && Accepts(s, op) && Follows(s, op, s')
    ensures AsFresh(s') <==> !Blind(s, op)
  {
    FreshSound(s);
    if op.RestartRelay? {
      SameTopology(s.relays, s'.relays);
      if Blind(s, op) {
        var name :| name in s.file && name !in s.live && !s.file[name].disabled
                    && TargetOf(s.relays, s.file[name]) == To(op.name);
        assert SlotAt(s', name) == SlotAt(s, name) == FreshSlot(s.relays, s.file, name);
        assert SlotAt(s', name) != FreshSlot(s'.relays, s'.file, name);
      } else {
        forall name ensures SlotAt(s', name) == FreshSlot(s'.relays, s'.file, name) {
          UntouchedByRestart(s, op, s', name);
        }
      }
    } else {
      forall name ensures SlotAt(s', name) == FreshSlot(s'.relays, s'.file, name) {
        assert SlotAt(s, name) == FreshSlot(s.relays, s.file, name);
      }
    }
  }

  lemma UntouchedByRestart(s: State, op: Op, s': State, name: string)
    requires AsFresh(s) && op.RestartRelay? && Accepts(s, op) && Follows(s, op, s') && !Blind(s, op)
    ensures SlotAt(s', name) == FreshSlot(s'.relays, s'.file, name)
  {
    SameTopology(s.relays, s'.relays);
    assert SlotAt(s, name) == FreshSlot(s.relays, s.file, name);
    assert SlotAt(s', name) == if Reread(s, op, name) then FreshSlot(s'.relays, s'.file, name) else SlotAt(s, name);
  }

  /** A state, and the operations tried on it with the states they led to. */
  ghost predicate IsRun(states: seq<State>, ops: seq<Op>) {
    && |states| == |ops| + 1
    && forall i :: 0 <= i < |ops| ==>
         if Accepts(states[i], ops[i]) then Follows(states[i], ops[i], states[i + 1])
         else states[i + 1] == states[i]
  }

  /** Over every run of creations, removals, mutations and parkings from a fresh
      start, the live observers, the relay each watches and each recorded cause
      are what a restart on the current file would produce, as long as no
      restart was blind. */
  lemma {:induction false} RunStaysFresh(states: seq<State>, ops: seq<Op>)
    requires IsRun(states, ops) && AsFresh(states[0])
    requires forall i :: 0 <= i < |ops| ==> !Blind(states[i], ops[i])
    ensures AsFresh(states[|ops|])
    decreases |ops|
  {
    hide AsFresh, Follows, Accepts, Blind;
    if ops != [] {
      if Accepts(states[0], ops[0]) {
        FreshAfter(states[0], ops[0], states[1]);
      }
      RunStaysFresh(states[1..], ops[1..]);
    }
  }

  /** In particular when every relay ever configured has an identity. */
  lemma {:induction false} RunStaysFreshWithIdentities(states: seq<State>, ops: seq<Op>)
    requires IsRun(states, ops) && AsFresh(states[0])
    requires forall name :: name in states[0].relays ==> states[0].relays[name]
    requires forall i :: 0 <= i < |ops| && (ops[i].AddRelay? || ops[i].RestartRelay?) ==> ops[i].identity
    ensures AsFresh(states[|ops|])
    decreases |ops|
  {
    if ops != [] {
      if Accepts(states[0], ops[0]) {
        FreshAfter(states[0], ops[0], states[1]);
      }
      RunStaysFreshWithIdentities(states[1..], ops[1..]);
    }
  }

  /** And whatever the restarts were, every run is sound, and the next relay
      created or removed brings the state back to what a restart would produce. */
  lemma {:induction false} TopologyHeals(states: seq<State>, ops: seq<Op>)
    requires IsRun(states, ops) && Sound(states[0]) && ops != []
    ensures Sound(states[|ops|])
    ensures var last := ops[|ops| - 1];
            (last.AddRelay? || last.DropRelay?) && Accepts(states[|ops| - 1], last) ==> AsFresh(states[|ops|])
    decreases |ops|
  {
    hide Sound, Accepts;
    if Accepts(states[0], ops[0]) {
      FollowsSound(states[0], ops[0], states[1]);
    }
    if |ops| > 1 {
      TopologyHeals(states[1..], ops[1..]);
    }
  }
}
