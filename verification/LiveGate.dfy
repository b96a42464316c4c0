/** One observer's published timeline under its liveness gate: connection
    callbacks run on goroutines of their own, and may be anywhere when their
    incarnation is stopped and another started (cmd/lotor/observers.go). */
module LiveGate {
  import opened Common

  /** What the bus carries about this observer. Incarnations are numbered in the
      order they start. */
  datatype Event =
    | Started(inc: nat)
    | Spoke(inc: nat, word: string)
    | Stopped(inc: nat)
    | Down

  /** Where one callback stands: waiting for the gate, holding it, holding it
      having read the flag, or holding it with its word said. */
  datatype Phase = Waiting | Holding | Checked(open: bool) | Done

  datatype Callback = Callback(inc: nat, word: string, phase: Phase)
  {
    predicate HoldsGate() {
      !phase.Waiting?
    }
  }

  /** Where the manager stands in startObserver or stopObserver. */
  datatype Manager =
    | Idle
    | Dialing              // "started" is out, the client not made yet
    | Running
    | Sealing              // inside Close, holding the gate
    | Sealed               // Close returned

  /** `live` is each gate's flag and `connected` the incarnations whose client
      exists; a gate's holder is the manager while Sealing, or a callback. */
  datatype System = System(
    manager: Manager,
    latest: nat,
    live: set<nat>,
    connected: set<nat>,
    callbacks: map<nat, Callback>,
    log: seq<Event>)
  {
    predicate GateFree(inc: nat) {
      && !(manager.Sealing? && inc == latest)
      && forall id :: id in callbacks && callbacks[id].inc == inc ==> !callbacks[id].HoldsGate()
    }

    function Publish(e: Event): System {
      this.(log := log + [e])
    }

    function WithPhase(id: nat, p: Phase): System
      requires id in callbacks
    {
      this.(callbacks := callbacks[id := callbacks[id].(phase := p)])
    }
  }

  datatype Step =
    | Start                              // a new gate, and "started"
    | Connect                            // Dial succeeds: callbacks may exist from here
    | DialFails                          // Dial fails before any client exists
    | NotStarted                         // refused before any gate: "down" alone
    | Lock                               // stopObserver enters Close
    | Seal                               // the flag falls and the gate is let go
    | Stop                               // the run has ended: "stopped"
    | Spawn(id: nat, inc: nat, word: string)  // a callback goroutine, however late
    | Take(id: nat)                      // it takes its gate
    | Check(id: nat)                     // reads the flag
    | Say(id: nat)                       // publishes if the flag was up
    | Release(id: nat)                   // and lets go

  predicate Enabled(s: System, st: Step) {
    match st
    case Start => s.manager.Idle?
    case Connect => s.manager.Dialing?
    case DialFails => s.manager.Dialing?
    case NotStarted => s.manager.Idle?
    case Lock => s.manager.Running? && s.GateFree(s.latest)
    case Seal => s.manager.Sealing?
    case Stop => s.manager.Sealed?
    case Spawn(id, inc, word) => id !in s.callbacks && inc in s.connected
    case Take(id) => id in s.callbacks && s.callbacks[id].phase.Waiting? && s.GateFree(s.callbacks[id].inc)
    case Check(id) => id in s.callbacks && s.callbacks[id].phase.Holding?
    case Say(id) => id in s.callbacks && s.callbacks[id].phase.Checked?
    case Release(id) => id in s.callbacks && s.callbacks[id].phase.Done?
  }

  function Next(s: System, st: Step): System
    requires Enabled(s, st)
  {
    match st
    case Start =>
      s.(manager := Dialing, latest := s.latest + 1, live := s.live + {s.latest + 1})
       .Publish(Started(s.latest + 1))
    case Connect => s.(manager := Running, connected := s.connected + {s.latest})
    case DialFails => s.(manager := Idle).Publish(Down)
    case NotStarted => s.Publish(Down)
    case Lock => s.(manager := Sealing)
    case Seal => s.(manager := Sealed, live := s.live - {s.latest})
    case Stop => s.(manager := Idle).Publish(Stopped(s.latest))
    case Spawn(id, inc, word) => s.(callbacks := s.callbacks[id := Callback(inc, word, Waiting)])
    case Take(id) => s.WithPhase(id, Holding)
    case Check(id) => s.WithPhase(id, Checked(s.callbacks[id].inc in s.live))
    case Say(id) =>
      var cb := s.callbacks[id];
      var said := if cb.phase.open then s.Publish(Spoke(cb.inc, cb.word)) else s;
      said.WithPhase(id, Done)
    case Release(id) => s.(callbacks := s.callbacks - {id})
  }

  const FRESH := System(Idle, 0, {}, {}, map[], [])

  // ----- the language of sealed timelines -----

  /** Reads a log as a run of segments — a bare "down", or started, that
      incarnation's callbacks, then stopped or down — and answers whether one
      is open and the newest incarnation; None when the log is not of that
      form. */
  function Timeline(log: seq<Event>): Option<(bool, nat)> {
    if log == [] then Some((false, 0)) else Extended(Timeline(log[..|log| - 1]), log[|log| - 1])
  }

  function Extended(t: Option<(bool, nat)>, e: Event): Option<(bool, nat)> {
    if t.None? then None
    else
      var (open, latest) := t.value;
      match e
      case Started(i) => if !open && i == latest + 1 then Some((true, i)) else None
      case Spoke(i, _) => if open && i == latest then t else None
      case Stopped(i) => if open && i == latest then Some((false, latest)) else None
      case Down => Some((false, latest))
  }

  /** Both hold one gate. */
  predicate Contend(a: Callback, b: Callback) {
    a.inc == b.inc && a.HoldsGate() && b.HoldsGate()
  }

  ghost predicate Inv(s: System) {
    && Timeline(s.log) == Some((!s.manager.Idle?, s.latest))
    && (!s.manager.Idle? ==> s.latest >= 1)
    && (forall i :: i in s.connected ==> 1 <= i <= s.latest)
    && (forall i :: i in s.live ==> i <= s.latest)
    && (s.manager.Dialing? ==> s.latest !in s.connected && s.latest in s.live)
    // An incarnation that can call back has its gate up exactly while it is the
    // one running.
    && (s.manager.Running? || s.manager.Sealing? ==> s.latest in s.connected)
    && (forall i :: i in s.connected ==> (i in s.live <==> i == s.latest && (s.manager.Running? || s.manager.Sealing?)))
    && (forall id :: id in s.callbacks ==> s.callbacks[id].inc in s.connected)
    // The gate is a mutex.
    && (forall a, b :: a in s.callbacks && b in s.callbacks && Contend(s.callbacks[a], s.callbacks[b]) ==> a == b)
    && (s.manager.Sealing? ==>
          forall id :: id in s.callbacks && s.callbacks[id].inc == s.latest ==> !s.callbacks[id].HoldsGate())
    // So a flag read as up is still up when the word is said.
    && (forall id :: id in s.callbacks && s.callbacks[id].phase == Checked(true) ==> s.callbacks[id].inc in s.live)
  }

  lemma TimelineAppend(log: seq<Event>, e: Event)
    ensures Timeline(log + [e]) == Extended(Timeline(log), e) && log <= log + [e]
  {
    assert (log + [e])[..|log|] == log;
  }

  predicate IsManagers(st: Step) {
    st.Start? || st.Connect? || st.DialFails? || st.NotStarted? || st.Lock? || st.Seal? || st.Stop?
  }

  lemma KeepsManager(s: System, st: Step)
    requires Inv(s) && Enabled(s, st) && IsManagers(st)
    ensures Inv(Next(s, st)) && s.log <= Next(s, st).log
  {
    hide Timeline;
    match st {
      case Start => TimelineAppend(s.log, Started(s.latest + 1));
      case DialFails => TimelineAppend(s.log, Down);
      case NotStarted => TimelineAppend(s.log, Down);
      case Stop => TimelineAppend(s.log, Stopped(s.latest));
      case _ =>
    }
  }

  /** The barrier: a callback that read the flag up still holds the gate, so the
      incarnation it speaks for is the one running. */
  lemma KeepsSay(s: System, id: nat)
    requires Inv(s) && Enabled(s, Say(id))
    ensures Inv(Next(s, Say(id))) && s.log <= Next(s, Say(id)).log
  {
    hide Timeline;
    TimelineAppend(s.log, Spoke(s.callbacks[id].inc, s.callbacks[id].word));
  }

  lemma KeepsCallback(s: System, st: Step)
    requires Inv(s) && Enabled(s, st) && !IsManagers(st) && !st.Say?
    ensures Inv(Next(s, st)) && s.log <= Next(s, st).log
  {
    hide Timeline;
  }

  lemma Keeps(s: System, st: Step)
    requires Inv(s) && Enabled(s, st)
    ensures Inv(Next(s, st)) && s.log <= Next(s, st).log
  {
    hide Inv, Next;
    if IsManagers(st) {
      KeepsManager(s, st);
    } else if st.Say? {
      KeepsSay(s, st.id);
    } else {
      KeepsCallback(s, st);
    }
  }

  predicate EnabledRun(s: System, steps: seq<Step>)
    decreases |steps|
  {
    steps == [] || (Enabled(s, steps[0]) && EnabledRun(Next(s, steps[0]), steps[1..]))
  }

  function Run(s: System, steps: seq<Step>): System
    requires EnabledRun(s, steps)
    decreases |steps|
  {
    if steps == [] then s else Run(Next(s, steps[0]), steps[1..])
  }

  lemma {:induction false} RunKeeps(s: System, steps: seq<Step>)
    requires Inv(s) && EnabledRun(s, steps)
    ensures Inv(Run(s, steps)) && s.log <= Run(s, steps).log
    decreases |steps|
  {
    if steps != [] {
      Keeps(s, steps[0]);
      RunKeeps(Next(s, steps[0]), steps[1..]);
    }
  }

  /** Under every interleaving of callbacks with stops and starts, what the bus
      has carried is a sealed timeline, open exactly while an incarnation is. */
  lemma TimelineIsSealed(steps: seq<Step>)
    requires EnabledRun(FRESH, steps)
    ensures var s := Run(FRESH, steps); Timeline(s.log) == Some((!s.manager.Idle?, s.latest))
  {
    RunKeeps(FRESH, steps);
  }

  // ----- what a gate lets through -----

  /** Nothing but a held gate keeps the manager from sealing: it waits exactly for
      the callbacks of its incarnation that have the gate and have not let go. */
  lemma BarrierWaits(s: System)
    requires s.manager.Running?
    ensures Enabled(s, Lock) <==>
              forall id :: id in s.callbacks && s.callbacks[id].inc == s.latest ==> s.callbacks[id].phase.Waiting?
  {
  }

  /** A goroutine may call back for any incarnation that ever had a client, and
      then waits. */
  lemma AnyoneMayCall(s: System, id: nat, inc: nat, word: string)
    requires id !in s.callbacks
    ensures Enabled(s, Spawn(id, inc, word)) <==> inc in s.connected
    ensures inc in s.connected ==>
              Next(s, Spawn(id, inc, word)) == s.(callbacks := s.callbacks[id := Callback(inc, word, Waiting)])
  {
  }

  /** A callback that gets its gate says its word exactly when its incarnation is
      the one running, and lets go. */
  lemma CallbackSpeaks(s: System, id: nat)
    requires Inv(s) && id in s.callbacks && s.callbacks[id].phase.Waiting?
    requires forall other :: other in s.callbacks && s.callbacks[other].inc == s.callbacks[id].inc ==>
               s.callbacks[other].phase.Waiting?
    requires !s.manager.Sealing? || s.callbacks[id].inc != s.latest
    ensures var cb, steps := s.callbacks[id], [Take(id), Check(id), Say(id), Release(id)];
            && EnabledRun(s, steps)
            && Run(s, steps) == s.(callbacks := s.callbacks - {id},
                                   log := s.log + if cb.inc == s.latest && s.manager.Running?
                                                  then [Spoke(cb.inc, cb.word)] else [])
  {
    hide Enabled, Next, EnabledRun, Run;
    var cb := s.callbacks[id];
    TakesAndChecks(s, id);
    var s2 := At(s, id, Checked(cb.inc in s.live));
    SaysAndReleases(s2, id);
    RunsFour(s, Take(id), Check(id), Say(id), Release(id));
    assert s2.callbacks - {id} == s.callbacks - {id};
    assert cb.inc in s.live <==> cb.inc == s.latest && s.manager.Running? by {
      GateIsUp(s, id);
    }
  }

  lemma GateIsUp(s: System, id: nat)
    requires Inv(s) && id in s.callbacks && (!s.manager.Sealing? || s.callbacks[id].inc != s.latest)
    ensures s.callbacks[id].inc in s.live <==> s.callbacks[id].inc == s.latest && s.manager.Running?
  {
    hide Timeline;
  }

  /** The same system with one callback further on. */
  ghost function At(s: System, id: nat, p: Phase): System
    requires id in s.callbacks
  {
    s.(callbacks := s.callbacks[id := Callback(s.callbacks[id].inc, s.callbacks[id].word, p)])
  }

  lemma TakesAndChecks(s: System, id: nat)
    requires id in s.callbacks && s.callbacks[id].phase.Waiting?
    requires forall other :: other in s.callbacks && s.callbacks[other].inc == s.callbacks[id].inc ==>
               s.callbacks[other].phase.Waiting?
    requires !s.manager.Sealing? || s.callbacks[id].inc != s.latest
    ensures Enabled(s, Take(id)) && Next(s, Take(id)) == At(s, id, Holding)
    ensures Enabled(At(s, id, Holding), Check(id))
    ensures Next(At(s, id, Holding), Check(id)) == At(s, id, Checked(s.callbacks[id].inc in s.live))
  {
  }

  lemma SaysAndReleases(s: System, id: nat)
    requires id in s.callbacks && s.callbacks[id].phase.Checked?
    ensures Enabled(s, Say(id)) && Enabled(Next(s, Say(id)), Release(id))
    ensures Next(Next(s, Say(id)), Release(id))
         == s.(callbacks := s.callbacks - {id},
               log := s.log + if s.callbacks[id].phase.open
                              then [Spoke(s.callbacks[id].inc, s.callbacks[id].word)] else [])
  {
    assert s.log + [] == s.log;
  }

  lemma RunsOne(s: System, a: Step)
    requires Enabled(s, a)
    ensures EnabledRun(s, [a]) && Run(s, [a]) == Next(s, a)
  {
    hide Enabled, Next;
    assert [a][1..] == [];
  }

  lemma RunsTwo(s: System, a: Step, b: Step)
    requires Enabled(s, a) && Enabled(Next(s, a), b)
    ensures EnabledRun(s, [a, b]) && Run(s, [a, b]) == Next(Next(s, a), b)
  {
    hide Enabled, Next;
    RunsOne(Next(s, a), b);
    assert [a, b][1..] == [b];
  }

  lemma RunsFour(s: System, a: Step, b: Step, c: Step, d: Step)
    requires Enabled(s, a) && Enabled(Next(s, a), b) && Enabled(Next(Next(s, a), b), c)
    requires Enabled(Next(Next(Next(s, a), b), c), d)
    ensures EnabledRun(s, [a, b, c, d]) && Run(s, [a, b, c, d]) == Next(Next(Next(Next(s, a), b), c), d)
  {
    hide Enabled, Next;
    var s1 := Next(s, a);
    RunsTwo(Next(s1, b), c, d);
    assert [b, c, d][1..] == [c, d] && [a, b, c, d][1..] == [b, c, d];
    assert EnabledRun(s1, [b, c, d]) && Run(s1, [b, c, d]) == Run(Next(s1, b), [c, d]);
  }

  /** From idle an observer can always be started and stopped: that is told as
      those two events around whatever its callbacks say, and its gate is down
      for good. A dial that fails, or a refusal to start, is told as such. */
  lemma OneLife(s: System)
    requires Inv(s) && s.manager.Idle?
    ensures var inc := s.latest + 1;
            && Enabled(s, Start) && Enabled(Next(s, Start), Connect) && Enabled(Next(s, Start), DialFails)
            && Next(Next(s, Start), DialFails).manager.Idle?
            && Next(Next(s, Start), DialFails).log == s.log + [Started(inc)] + [Down]
            && Enabled(s, NotStarted) && Next(s, NotStarted) == s.(log := s.log + [Down])
            && var up := Next(Next(s, Start), Connect);
               && up.manager.Running? && up.latest == inc && inc in up.connected && up.connected == s.connected + {inc}
               && up.callbacks == s.callbacks && up.log == s.log + [Started(inc)]
               && EnabledRun(up, [Lock, Seal, Stop])
               && var down := Run(up, [Lock, Seal, Stop]);
                  && down.manager.Idle? && down.latest == inc && inc !in down.live
                  && down.connected == up.connected && down.callbacks == s.callbacks
                  && down.log == s.log + [Started(inc)] + [Stopped(inc)]
  {
    hide Timeline;
    var up := Next(Next(s, Start), Connect);
    assert Enabled(up, Lock);
    var t := Next(Next(up, Lock), Seal);
    RunsTwo(Next(up, Lock), Seal, Stop);
    assert [Lock, Seal, Stop][1..] == [Seal, Stop];
    assert Run(up, [Lock, Seal, Stop]) == Run(Next(up, Lock), [Seal, Stop]);
  }

  // ----- what a sealed timeline promises -----

  predicate Mentions(e: Event, inc: nat) {
    !e.Down? && e.inc == inc
  }

  lemma {:induction false} PrefixSealed(log: seq<Event>, n: nat)
    requires Timeline(log).Some? && n <= |log|
    ensures Timeline(log[..n]).Some?
    ensures Timeline(log[..n]).value.1 <= Timeline(log).value.1
    decreases |log| - n
  {
    if n == |log| {
      assert log[..n] == log;
    } else {
      PrefixSealed(log, n + 1);
      assert log[..n + 1][..n] == log[..n];
    }
  }

  /** Nothing from one incarnation appears after its stop, and its callbacks lie
      between its own start and its own stop. */
  lemma NothingAfterStop(log: seq<Event>, inc: nat, stop: nat, later: nat)
    requires Timeline(log).Some? && stop < later < |log| && log[stop] == Stopped(inc)
    ensures !Mentions(log[later], inc)
  {
    PrefixSealed(log, stop + 1);
    assert log[..stop + 1][..stop] == log[..stop];
    ClosedStays(log, inc, stop + 1, later);
    PrefixSealed(log, later + 1);
    assert log[..later + 1][..later] == log[..later];
  }

  /** Once closed, an incarnation is never open again. */
  lemma {:induction false} ClosedStays(log: seq<Event>, inc: nat, a: nat, b: nat)
    requires Timeline(log).Some? && a <= b <= |log|
    requires Timeline(log[..a]).Some? && Timeline(log[..a]).value.1 >= inc
    requires Timeline(log[..a]) != Some((true, inc))
    ensures Timeline(log[..b]).Some? && Timeline(log[..b]).value.1 >= inc
    ensures Timeline(log[..b]) != Some((true, inc))
    decreases b
  {
    if a < b {
      ClosedStays(log, inc, a, b - 1);
      PrefixSealed(log, b);
      assert log[..b][..b - 1] == log[..b - 1];
    }
  }

  /** A word of an incarnation always has that incarnation's start before it. */
  lemma SpeaksAfterStart(log: seq<Event>, at: nat)
    requires Timeline(log).Some? && at < |log| && log[at].Spoke?
    ensures exists i :: 0 <= i < at && log[i] == Started(log[at].inc)
  {
    PrefixSealed(log, at + 1);
    assert log[..at + 1][..at] == log[..at];
    OpenHasStart(log, at);
  }

  lemma {:induction false} OpenHasStart(log: seq<Event>, n: nat)
    requires Timeline(log).Some? && n <= |log|
    requires Timeline(log[..n]).Some? && Timeline(log[..n]).value.0
    ensures exists i :: 0 <= i < n && log[i] == Started(Timeline(log[..n]).value.1)
    decreases n
  {
    if n > 0 {
      assert log[..n][..n - 1] == log[..n - 1];
      if !log[n - 1].Started? {
        OpenHasStart(log, n - 1);
      }
    }
  }
}
