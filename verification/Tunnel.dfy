/** The supervisor of the tunnel process (packages/cli/src/lib/tunnel.ts). */
module Tunnel {
  import opened Prelude

  datatype Config = Config(initialDelay: nat, maxDelay: nat, maxAttempts: nat)

  /** `running` is `exitCode === null`; a child that failed to spawn has an exit code and never emits "exit". */
  datatype Child = Child(id: nat, running: bool, killed: bool)

  datatype Manager = Manager(child: Option<Child>, restartCount: nat, shuttingDown: bool, restartTimer: Option<nat>)

  /** What `spawn` does: starts a process, returns a child that emits "error", or throws. */
  datatype Outcome = Runs | FailsLater | Throws

  datatype Effect = Spawned(id: nat, outcome: Outcome) | Scheduled(delay: nat) | GaveUp | Signalled(id: nat)

  datatype Event = Exit(id: nat) | Timer(outcome: Outcome) | Stop

  function Pow2(n: nat): nat {
    if n == 0 then 1 else 2 * Pow2(n - 1)
  }

  function Delay(c: Config, n: nat): nat {
    if c.initialDelay * Pow2(n) <= c.maxDelay then c.initialDelay * Pow2(n) else c.maxDelay
  }

  // ---------------------------------------------------------------- the manager

  function SpawnStep(m: Manager, id: nat, outcome: Outcome): Manager {
    if outcome == Throws then m else m.(child := Some(Child(id, outcome == Runs, false)))
  }

  function ExitStep(c: Config, m: Manager): (Manager, Option<Effect>) {
    var m := m.(child := None);
    if m.shuttingDown then (m, None)
    else if m.restartCount >= c.maxAttempts then (m, Some(GaveUp))
    else (m.(restartTimer := Some(Delay(c, m.restartCount))), Some(Scheduled(Delay(c, m.restartCount))))
  }

  function TimerStep(m: Manager, id: nat, outcome: Outcome): (Manager, Option<Effect>) {
    var m := m.(restartTimer := None, restartCount := m.restartCount + 1);
    if m.shuttingDown then (m, None) else (SpawnStep(m, id, outcome), Some(Spawned(id, outcome)))
  }

  function StopStep(m: Manager): (Manager, Option<Effect>) {
    var m := m.(shuttingDown := true, restartTimer := None);
    if m.child.Some? && m.child.value.running && !m.child.value.killed
    then (m.(child := Some(m.child.value.(killed := true))), Some(Signalled(m.child.value.id)))
    else (m, None)
  }

  class TunnelManager {
    var child: Option<Child>
    var restartCount: nat
    var shuttingDown: bool
    var restartTimer: Option<nat>
    const config: Config

    function State(): Manager
      reads this
    {
      Manager(child, restartCount, shuttingDown, restartTimer)
    }

    constructor (config: Config)
      ensures this.config == config && State() == Manager(None, 0, false, None)
    {
      this.config := config;
      child, restartCount, shuttingDown, restartTimer := None, 0, false, None;
    }

    /** `id` and `outcome` are the operating system's answer to the spawn. */
    method SpawnAndWire(id: nat, outcome: Outcome)
      modifies this`child
      ensures State() == SpawnStep(old(State()), id, outcome)
    {
      if outcome != Throws {
        child := Some(Child(id, outcome == Runs, false));
      }
    }

    method OnExit() returns (effect: Option<Effect>)
      modifies this
      ensures (State(), effect) == ExitStep(config, old(State()))
    {
      child := None;
      if shuttingDown {
        return None;
      }
      if restartCount >= config.maxAttempts {
        return Some(GaveUp);
      }
      var delay := config.initialDelay * Pow2(restartCount);
      if delay > config.maxDelay {
        delay := config.maxDelay;
      }
      restartTimer := Some(delay);
      return Some(Scheduled(delay));
    }

    method OnTimer(id: nat, outcome: Outcome) returns (effect: Option<Effect>)
      modifies this
      ensures (State(), effect) == TimerStep(old(State()), id, outcome)
    {
      restartTimer := None;
      restartCount := restartCount + 1;
      if shuttingDown {
        return None;
      }
      SpawnAndWire(id, outcome);
      return Some(Spawned(id, outcome));
    }

    method OnStop() returns (effect: Option<Effect>)
      modifies this
      ensures (State(), effect) == StopStep(old(State()))
    {
      shuttingDown := true;
      restartTimer := None;
      if child.Some? && child.value.running && !child.value.killed {
        child := Some(child.value.(killed := true));
        return Some(Signalled(child.value.id));
      }
      return None;
    }
  }

  // ---------------------------------------------------------------- the manager and its processes

  /** `live` are the processes that have not exited; the rest is what the manager has done so far. */
  datatype World = World(m: Manager, live: set<nat>, spawns: nat, delays: seq<nat>, gaveUp: bool, signalled: set<nat>, failed: bool)

  function Apply(w: World, effect: Option<Effect>): World {
    match effect
    case None => w
    case Some(Spawned(id, outcome)) =>
      w.(live := if outcome == Runs then w.live + {id} else w.live, spawns := w.spawns + 1, failed := w.failed || outcome != Runs)
    case Some(Scheduled(delay)) => w.(delays := w.delays + [delay])
    case Some(GaveUp) => w.(gaveUp := true)
    case Some(Signalled(id)) => w.(signalled := w.signalled + {id})
  }

  function Started(outcome: Outcome): World {
    World(SpawnStep(Manager(None, 0, false, None), 0, outcome), if outcome == Runs then {0} else {}, 1, [], false, {}, outcome != Runs)
  }

  /** An exit needs a live process and a firing a pending timer; `stop` may be called at any time. */
  predicate Enabled(w: World, e: Event) {
    match e
    case Exit(id) => id in w.live
    case Timer(_) => w.m.restartTimer.Some?
    case Stop => true
  }

  function Step(c: Config, w: World, e: Event): World {
    var (m, effect) := match e
      case Exit(_) => ExitStep(c, w.m)
      case Timer(outcome) => TimerStep(w.m, w.spawns, outcome)
      case Stop => StopStep(w.m);
    Apply(w.(m := m, live := if e.Exit? then w.live - {e.id} else w.live), effect)
  }

  function Run(c: Config, w: World, events: seq<Event>): World
    decreases |events|
  {
    if events == [] then w else Run(c, Step(c, w, events[0]), events[1..])
  }

  predicate Legal(c: Config, w: World, events: seq<Event>)
    decreases |events|
  {
    events == [] || (Enabled(w, events[0]) && Legal(c, Step(c, w, events[0]), events[1..]))
  }

  // ---------------------------------------------------------------- safety

  function Current(w: World): set<nat> {
    if w.m.child.Some? && w.m.child.value.running then {w.m.child.value.id} else {}
  }

  ghost predicate Safe(c: Config, w: World) {
    && w.live == Current(w)
    && (w.live != {} ==> w.m.restartTimer.None?)
    && w.m.restartCount <= c.maxAttempts
    && w.spawns == w.m.restartCount + 1
    && (w.m.child.Some? ==> w.m.child.value.id < w.spawns)
    && (w.m.child.Some? && w.m.child.value.killed ==> w.m.child.value.id in w.signalled)
    && (w.m.restartTimer.Some? ==>
          !w.m.shuttingDown && w.m.restartCount < c.maxAttempts && w.m.restartTimer == Some(Delay(c, w.m.restartCount)))
    && |w.delays| <= c.maxAttempts
    && (!w.m.shuttingDown ==> |w.delays| == w.m.restartCount + if w.m.restartTimer.Some? then 1 else 0)
    && (forall i :: 0 <= i < |w.delays| ==> w.delays[i] == Delay(c, i))
    && (w.m.shuttingDown ==> w.live <= w.signalled)
    && (w.gaveUp ==> w.live == {} && w.m.restartTimer.None? && w.m.restartCount == c.maxAttempts)
    && (w.live == {} && w.m.restartTimer.None? && !w.m.shuttingDown ==> w.gaveUp || w.failed)
  }

  lemma StepKeepsSafe(c: Config, w: World, e: Event)
    requires Safe(c, w) && Enabled(w, e)
    ensures Safe(c, Step(c, w, e))
  {
  }

  lemma {:induction false} RunIsSafe(c: Config, w: World, events: seq<Event>)
    requires Safe(c, w) && Legal(c, w, events)
    ensures Safe(c, Run(c, w, events))
    decreases |events|
  {
    if events != [] {
      StepKeepsSafe(c, w, events[0]);
      RunIsSafe(c, Step(c, w, events[0]), events[1..]);
    }
  }

  lemma {:induction false} DelaysGrow(c: Config, i: nat, j: nat)
    requires i <= j
    ensures Delay(c, i) <= Delay(c, j) <= c.maxDelay
  {
    if i < j {
      DelaysGrow(c, i, j - 1);
      assert c.initialDelay * Pow2(j) == 2 * (c.initialDelay * Pow2(j - 1));
    }
  }

  /** Every trace after one `start()`. */
  lemma Supervised(c: Config, outcome: Outcome, events: seq<Event>)
    requires Legal(c, Started(outcome), events)
    ensures var w := Run(c, Started(outcome), events);
            && |w.live| <= 1
            && (w.live != {} ==> w.m.restartTimer.None?)
            && w.spawns == w.m.restartCount + 1 <= c.maxAttempts + 1
            && |w.delays| <= c.maxAttempts
            && (w.delays != [] ==> w.delays[0] == if c.initialDelay < c.maxDelay then c.initialDelay else c.maxDelay)
            && (forall i :: 0 < i < |w.delays| ==> w.delays[i] == if 2 * w.delays[i - 1] < c.maxDelay then 2 * w.delays[i - 1] else c.maxDelay)
            && (forall i, j :: 0 <= i <= j < |w.delays| ==> w.delays[i] <= w.delays[j] <= c.maxDelay)
            && (w.m.shuttingDown ==> w.live <= w.signalled)
  {
    RunIsSafe(c, Started(outcome), events);
    var w := Run(c, Started(outcome), events);
    forall i, j | 0 <= i <= j < |w.delays|
      ensures w.delays[i] <= w.delays[j] <= c.maxDelay
    {
      DelaysGrow(c, i, j);
    }
    forall i | 0 < i < |w.delays|
      ensures w.delays[i] == if 2 * w.delays[i - 1] < c.maxDelay then 2 * w.delays[i - 1] else c.maxDelay
    {
      DelayDoubles(c, i);
    }
  }

  lemma DelayDoubles(c: Config, n: nat)
    requires n > 0
    ensures Delay(c, n) == if 2 * Delay(c, n - 1) < c.maxDelay then 2 * Delay(c, n - 1) else c.maxDelay
  {
    assert c.initialDelay * Pow2(n) == 2 * (c.initialDelay * Pow2(n - 1));
  }

  /** The supervisor leaves the tunnel down only when it was stopped, a spawn failed, or it gave up. */
  lemma NeverAbandons(c: Config, outcome: Outcome, events: seq<Event>)
    requires Legal(c, Started(outcome), events)
    ensures var w := Run(c, Started(outcome), events);
            w.live == {} && w.m.restartTimer.None? ==> w.m.shuttingDown || w.failed || w.gaveUp
  {
    RunIsSafe(c, Started(outcome), events);
  }

  // ---------------------------------------------------------------- counting events

  function Exits(events: seq<Event>): nat {
    if events == [] then 0 else (if events[0].Exit? then 1 else 0) + Exits(events[1..])
  }

  function Timers(events: seq<Event>): nat {
    if events == [] then 0 else (if events[0].Timer? then 1 else 0) + Timers(events[1..])
  }

  lemma {:induction false} CountEvents(c: Config, w: World, events: seq<Event>)
    requires Safe(c, w) && Legal(c, w, events)
    ensures var w' := Run(c, w, events);
            && w'.m.restartCount == w.m.restartCount + Timers(events)
            && Exits(events) + |w'.live| <= |w.live| + Timers(events)
            && (!w'.failed ==> !w.failed && Exits(events) + |w'.live| == |w.live| + Timers(events))
    decreases |events|
  {
    if events != [] {
      StepKeepsSafe(c, w, events[0]);
      CountEvents(c, Step(c, w, events[0]), events[1..]);
    }
  }

  /** There are no endless restarts: at most `cap` timers fire and `cap + 1` processes exit. */
  lemma BoundedEvents(c: Config, outcome: Outcome, events: seq<Event>)
    requires Legal(c, Started(outcome), events)
    ensures Timers(events) <= c.maxAttempts && Exits(events) <= c.maxAttempts + 1
    ensures Run(c, Started(outcome), events).m.restartCount == Timers(events)
  {
    RunIsSafe(c, Started(outcome), events);
    CountEvents(c, Started(outcome), events);
  }

  /** It gives up exactly when the first process and all its restarts have exited. */
  lemma GivesUpExactly(c: Config, outcome: Outcome, events: seq<Event>)
    requires Legal(c, Started(outcome), events) && Stop !in events
    ensures Run(c, Started(outcome), events).gaveUp <==> Exits(events) == c.maxAttempts + 1
  {
    RunIsSafe(c, Started(outcome), events);
    CountEvents(c, Started(outcome), events);
    NotStopped(c, Started(outcome), events);
    FailureEndsIt(c, Started(outcome), events);
  }

  lemma {:induction false} NotStopped(c: Config, w: World, events: seq<Event>)
    requires Stop !in events && !w.m.shuttingDown
    ensures !Run(c, w, events).m.shuttingDown
    decreases |events|
  {
    if events != [] {
      NotStopped(c, Step(c, w, events[0]), events[1..]);
    }
  }

  /** A failed spawn is never retried. */
  ghost predicate Dead(w: World) {
    w.failed ==> w.live == {} && w.m.restartTimer.None? && !w.gaveUp
  }

  lemma {:induction false} FailureEndsIt(c: Config, w: World, events: seq<Event>)
    requires Safe(c, w) && Legal(c, w, events) && Dead(w)
    ensures Dead(Run(c, w, events))
    ensures Run(c, w, events).failed ==> Exits(events) <= |w.live| + Timers(events) - if w.failed then 0 else 1
    decreases |events|
  {
    if events != [] {
      StepKeepsSafe(c, w, events[0]);
      FailureEndsIt(c, Step(c, w, events[0]), events[1..]);
    }
  }

  // ---------------------------------------------------------------- after `stop`

  /** Once stopped, no process is spawned and no restart scheduled, and only the live process can still exit. */
  lemma {:induction false} QuietWhenStopped(c: Config, w: World, events: seq<Event>)
    requires Safe(c, w) && w.m.shuttingDown && Legal(c, w, events)
    ensures var w' := Run(c, w, events);
            && w'.spawns == w.spawns && w'.delays == w.delays && w'.m.restartTimer.None?
            && w'.live <= w.live
            && Timers(events) == 0 && Exits(events) <= |w.live|
    decreases |events|
  {
    if events != [] {
      StepKeepsSafe(c, w, events[0]);
      QuietWhenStopped(c, Step(c, w, events[0]), events[1..]);
    }
  }

  lemma {:induction false} RunConcat(c: Config, w: World, a: seq<Event>, b: seq<Event>)
    ensures Run(c, w, a + b) == Run(c, Run(c, w, a), b)
    ensures Legal(c, w, a + b) <==> Legal(c, w, a) && Legal(c, Run(c, w, a), b)
    decreases |a|
  {
    if a == [] {
      assert a + b == b;
    } else {
      assert (a + b)[1..] == a[1..] + b;
      RunConcat(c, Step(c, w, a[0]), a[1..], b);
    }
  }

  /** Whatever happened before `stop()`, nothing is spawned or scheduled after it. */
  lemma NothingAfterStop(c: Config, outcome: Outcome, before: seq<Event>, after: seq<Event>)
    requires Legal(c, Started(outcome), before + [Stop] + after)
    ensures var w, w' := Run(c, Started(outcome), before), Run(c, Started(outcome), before + [Stop] + after);
            && w'.spawns == w.spawns && w'.delays == w.delays && w'.m.restartTimer.None?
            && Timers(after) == 0 && Exits(after) <= 1
  {
    var w := Run(c, Started(outcome), before);
    RunConcat(c, Started(outcome), before + [Stop], after);
    RunConcat(c, Started(outcome), before, [Stop]);
    RunIsSafe(c, Started(outcome), before);
    StepKeepsSafe(c, w, Stop);
    assert Run(c, w, [Stop]) == Step(c, w, Stop);
    QuietWhenStopped(c, Step(c, w, Stop), after);
  }
}
