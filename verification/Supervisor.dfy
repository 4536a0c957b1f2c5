/** The live loop: supervisor, respawn loop, the two watcher tasks, the decoder child,
    and the API calls that retune, pause and stop it (backend/cli.py, backend/wrapper.py,
    backend/rf/control.py).

    Everything runs on one event loop, so the code between two awaits is one atomic step.
    The supervisor, the respawn loop and the stream generator are one task, whose position
    is `pc`; the session watcher and the child watcher are tasks of their own. */
module Supervisor {
  import opened RfControl

  /** Where the main task is suspended. */
  datatype Pc =
    | Top                         // at the head of the supervisor's while loop
    | Paused                      // waiting for the toggle or the stop event
    | Spawning                    // command built, child not yet forked
    | Starting                    // child forked, its watcher not yet created
    | Reading                     // awaiting a line of the child
    | Unwatching(timedOut: bool)  // child watcher cancelled, awaiting it
    | Reaping(timedOut: bool)     // terminate sent, awaiting the child's exit
    | Backoff                     // sleeping before the next spawn
    | Leaving                     // session watcher cancelled, awaiting it
    | Done

  datatype Watch = Off | Waiting | Fired

  datatype State = State(
    config: Config,
    retune: bool,          // controller.retune_event
    toggle: bool,          // controller.live_toggle_event
    stop: bool,            // process-wide stop_event
    sessionStop: bool,     // session_stop of the current session
    sessionWatch: Watch,
    childWatch: Watch,
    pc: Pc,
    built: Tuning,         // what the last command was built from
    alive: set<nat>,       // child processes running
    child: nat,            // the child last forked
    forks: nat,
    terminated: bool)      // SIGTERM sent to `child`

  datatype Action =
    // API calls and signals
    | SetTuning(wanted: Tuning) | SetLive(enabled: bool) | Stop
    // the environment
    | ChildExits(id: nat) | ChildClosesStderr | SilenceTimeout | SpawnFails
    // the program's own steps
    | Begin | WakePaused | Fork | Watched | ReadEof | ChildObeysTerm
    | Unwatched | KillTimeout | Reaped | Retry | Left
    | SessionWatchFires | ChildWatchFires

  predicate Internal(a: Action) {
    a.Begin? || a.WakePaused? || a.Fork? || a.Watched? || a.ReadEof? || a.ChildObeysTerm?
    || a.Unwatched? || a.KillTimeout? || a.Reaped? || a.Retry? || a.Left?
    || a.SessionWatchFires? || a.ChildWatchFires?
  }

  predicate Init(s: State) {
    && s.pc == Top && s.alive == {} && s.forks == 0
    && !s.retune && !s.toggle && !s.stop && !s.sessionStop
    && s.sessionWatch == Off && s.childWatch == Off && !s.terminated
  }

  predicate Enabled(s: State, a: Action) {
    match a
    case SetTuning(_) => true
    case SetLive(_) => true
    case Stop => true
    case ChildExits(id) => id in s.alive
    case ChildClosesStderr => s.pc == Reading
    case SilenceTimeout => s.pc == Reading
    case SpawnFails => s.pc == Spawning
    case Begin => s.pc == Top
    case WakePaused => s.pc == Paused && (s.toggle || s.stop)
    case Fork => s.pc == Spawning
    case Watched => s.pc == Starting
    case ReadEof => s.pc == Reading && s.child !in s.alive
    case ChildObeysTerm => s.terminated && s.child in s.alive
    case Unwatched => s.pc.Unwatching?
    case KillTimeout => s.pc.Reaping? && s.child in s.alive
    case Reaped => s.pc.Reaping? && s.child !in s.alive
    case Retry => s.pc == Backoff
    case Left => s.pc == Leaving
    case SessionWatchFires => s.sessionWatch == Waiting && (s.toggle || s.stop)
    case ChildWatchFires => s.childWatch == Waiting && (s.sessionStop || s.retune)
  }

  /** The check at the head of the respawn loop, then the next command. */
  function LoopHead(s: State): State {
    if s.sessionStop then s.(pc := Leaving)
    else s.(built := s.config.tuning, pc := Spawning, terminated := false)
  }

  /** What follows a child's end: leave the session or sleep. */
  function AfterChild(s: State): State {
    s.(pc := if s.sessionStop then Leaving else Backoff)
  }

  function Next(s: State, a: Action): State
    requires Enabled(s, a)
  {
    match a
    case SetTuning(wanted) => s.(config := s.config.(tuning := wanted), retune := true)
    case SetLive(enabled) =>
      var (config, toggle) := Toggled(s.config, s.toggle, enabled);
      s.(config := config, toggle := toggle)
    case Stop => s.(stop := true)
    case ChildExits(id) => s.(alive := s.alive - {id})
    case ChildClosesStderr => s.(pc := Unwatching(false))
    case SilenceTimeout => s.(pc := Unwatching(true))
    case SpawnFails => AfterChild(s)
    case Begin =>
      if s.stop then s.(pc := Done)
      else if !s.config.liveEnabled then s.(toggle := false, pc := Paused)
      else LoopHead(s.(toggle := false, retune := false, sessionStop := false, sessionWatch := Waiting))
    case WakePaused => s.(pc := Top)
    case Fork => s.(alive := s.alive + {s.forks}, child := s.forks, forks := s.forks + 1, pc := Starting)
    case Watched => s.(childWatch := Waiting, pc := Reading)
    case ReadEof => s.(pc := Unwatching(false))
    case ChildObeysTerm => s.(alive := s.alive - {s.child})
    case Unwatched =>
      s.(childWatch := Off, pc := Reaping(s.pc.timedOut), terminated := s.terminated || s.child in s.alive)
    case KillTimeout => s.(alive := s.alive - {s.child})
    case Reaped =>
      AfterChild(if !s.pc.timedOut && s.retune then s.(retune := false) else s)
    case Retry => LoopHead(s)
    case Left => s.(sessionWatch := Off, pc := Top)
    case SessionWatchFires => s.(sessionStop := true, sessionWatch := Fired)
    case ChildWatchFires =>
      s.(childWatch := Fired, terminated := s.terminated || s.child in s.alive)
  }

  predicate Run(s: State, acts: seq<Action>)
    decreases |acts|
  {
    acts == [] || (Enabled(s, acts[0]) && Run(Next(s, acts[0]), acts[1..]))
  }

  function After(s: State, acts: seq<Action>): State
    requires Run(s, acts)
    decreases |acts|
  {
    if acts == [] then s else After(Next(s, acts[0]), acts[1..])
  }

  // ---- what every reachable state satisfies ----

  /** From the moment a command is built until its child is reaped. */
  predicate CommandInUse(s: State) {
    s.pc.Spawning? || s.pc.Starting? || s.pc.Reading? || s.pc.Unwatching? || s.pc.Reaping?
  }

  predicate InSession(s: State) {
    CommandInUse(s) || s.pc.Backoff?
  }

  /** A command in use is built from the current tuning, or the retune event is set. */
  predicate NoRetuneLost(s: State) {
    CommandInUse(s) ==> s.built == s.config.tuning || s.retune
  }

  /** A session runs only while live is wanted or a toggle is pending, and the supervisor
      waits only while live is unwanted or a toggle is pending. */
  predicate NoToggleLost(s: State) {
    && (InSession(s) ==> s.config.liveEnabled || s.toggle)
    && (s.pc == Paused ==> !s.config.liveEnabled || s.toggle)
  }

  predicate OneChild(s: State) {
    && s.alive <= {s.child}
    && (s.alive != {} ==> s.pc.Starting? || s.pc.Reading? || s.pc.Unwatching? || s.pc.Reaping?)
  }

  predicate Safe(s: State) {
    NoRetuneLost(s) && NoToggleLost(s) && OneChild(s)
  }

  /** The inductive invariant behind `Safe`: which watcher exists where, and that a stop
      request in a session always traces back to a set event. */
  predicate Inv(s: State) {
    && Safe(s)
    && (s.alive != {} ==> s.child < s.forks)
    && (InSession(s) || s.pc == Leaving <==> s.sessionWatch != Off)
    && (s.childWatch != Off ==> s.pc.Reading? || s.pc.Unwatching?)
    && (s.pc.Reading? ==> s.childWatch != Off)
    && (s.childWatch == Fired && s.child in s.alive ==> s.terminated)
    && (s.pc.Reading? && s.childWatch == Fired ==> s.sessionStop || s.retune)
    && (s.sessionWatch == Waiting ==> !s.sessionStop)
    && (s.sessionWatch == Fired ==> s.sessionStop && (s.toggle || s.stop))
    && (s.pc.Spawning? || s.pc.Starting? ==> !s.terminated)
    && (s.pc.Reading? && s.terminated ==> s.childWatch == Fired)
    && (s.pc == Leaving ==> s.sessionStop)
    && (s.pc == Done ==> s.stop)
  }

  predicate FromOutside(a: Action) {
    !Internal(a) && !a.SpawnFails?
  }

  predicate OfWatchers(a: Action) {
    a.SessionWatchFires? || a.ChildWatchFires? || a.ChildObeysTerm? || a.KillTimeout?
  }

  predicate OfChild(a: Action) {
    a.Fork? || a.Watched? || a.ReadEof? || a.Unwatched?
  }

  lemma InvOfRequests(s: State, a: Action)
    requires Inv(s) && Enabled(s, a) && (a.SetTuning? || a.SetLive? || a.Stop?)
    ensures Inv(Next(s, a))
  {
  }

  lemma InvOfEnvironment(s: State, a: Action)
    requires Inv(s) && Enabled(s, a) && (a.ChildExits? || a.ChildClosesStderr? || a.SilenceTimeout?)
    ensures Inv(Next(s, a))
  {
  }

  lemma InvOfWatchers(s: State, a: Action)
    requires Inv(s) && Enabled(s, a) && OfWatchers(a)
    ensures Inv(Next(s, a))
  {
  }

  lemma InvOfChild(s: State, a: Action)
    requires Inv(s) && Enabled(s, a) && OfChild(a)
    ensures Inv(Next(s, a))
  {
  }

  lemma InvOfSupervisor(s: State, a: Action)
    requires Inv(s) && Enabled(s, a) && (a.Begin? || a.WakePaused? || a.Left?)
    ensures Inv(Next(s, a))
  {
  }

  lemma InvOfRespawn(s: State, a: Action)
    requires Inv(s) && Enabled(s, a) && (a.Retry? || a.Reaped? || a.SpawnFails?)
    ensures Inv(Next(s, a))
  {
  }

  lemma InvStep(s: State, a: Action)
    requires Inv(s) && Enabled(s, a)
    ensures Inv(Next(s, a))
  {
    if a.SetTuning? || a.SetLive? || a.Stop? {
      InvOfRequests(s, a);
    } else if FromOutside(a) {
      InvOfEnvironment(s, a);
    } else if OfWatchers(a) {
      InvOfWatchers(s, a);
    } else if OfChild(a) {
      InvOfChild(s, a);
    } else if a.Begin? || a.WakePaused? || a.Left? {
      InvOfSupervisor(s, a);
    } else {
      InvOfRespawn(s, a);
    }
  }

  /** Over every interleaving of API calls, environment events and program steps, no retune,
      pause or resume is lost and at most one child is alive. */
  lemma {:induction false} EveryReachableStateIsSafe(s: State, acts: seq<Action>)
    requires Init(s) || Inv(s)
    requires Run(s, acts)
    ensures Inv(After(s, acts)) && Safe(After(s, acts))
    decreases |acts|
  {
    if acts == [] {
    } else {
      InvStep(s, acts[0]);
      EveryReachableStateIsSafe(Next(s, acts[0]), acts[1..]);
    }
  }

  /** Every spawn, wherever it happens in a run: no other child is alive, the session has not
      been told to stop, and the command carries the tuning of that very moment. */
  lemma SpawnIsClean(s: State, acts: seq<Action>, a: Action)
    requires Init(s) && Run(s, acts)
    requires Enabled(After(s, acts), a)
    requires !After(s, acts).pc.Spawning? && Next(After(s, acts), a).pc.Spawning?
    ensures var before, after := After(s, acts), Next(After(s, acts), a);
            && after.alive == {}
            && !after.sessionStop
            && after.built == before.config.tuning == after.config.tuning
            && (before.config.liveEnabled || before.toggle)
            && (a == Begin ==> !after.retune)
  {
    EveryReachableStateIsSafe(s, acts);
    CleanSpawn(After(s, acts), a);
  }

  lemma CleanSpawn(s: State, a: Action)
    requires Inv(s) && Enabled(s, a) && !s.pc.Spawning? && Next(s, a).pc.Spawning?
    ensures Next(s, a).alive == {} && !Next(s, a).sessionStop
    ensures Next(s, a).built == s.config.tuning == Next(s, a).config.tuning
    ensures s.config.liveEnabled || s.toggle
    ensures a == Begin ==> !Next(s, a).retune
  {
    assert a == Begin || a == Retry;
  }

  // ---- settling ----

  ghost predicate Quiescent(s: State) {
    forall a | Internal(a) :: !Enabled(s, a)
  }

  /** A state that has settled does what was last asked for. */
  predicate ServesLatestRequest(s: State) {
    && (s.pc == Done <==> s.stop)
    && (s.pc == Paused <==> !s.stop && !s.config.liveEnabled)
    && (s.pc == Reading <==> !s.stop && s.config.liveEnabled)
    && (s.pc == Reading ==> s.built == s.config.tuning && s.alive == {s.child} && !s.retune)
    && (s.pc != Reading ==> s.alive == {})
  }

  lemma QuiescentServesLatestRequest(s: State)
    requires Inv(s) && Quiescent(s)
    ensures ServesLatestRequest(s)
  {
    assert s.pc.Done? || s.pc.Paused? || s.pc.Reading? by {
      assert !Enabled(s, Begin) && !Enabled(s, Fork) && !Enabled(s, Watched) && !Enabled(s, Retry) && !Enabled(s, Left);
      assert !Enabled(s, Unwatched) && !Enabled(s, KillTimeout) && !Enabled(s, Reaped);
    }
    assert !Enabled(s, WakePaused) && !Enabled(s, ReadEof) && !Enabled(s, ChildObeysTerm);
    assert !Enabled(s, SessionWatchFires) && !Enabled(s, ChildWatchFires);
  }

  /** The child in hand is on its way out. */
  predicate Doomed(s: State) {
    s.retune || s.sessionStop
  }

  function PcRank(s: State): nat {
    match s.pc
    case Done => 0
    case Paused => if s.toggle || s.stop then 6 else 1
    case Top => 5
    case Leaving => 6
    case Backoff => if s.sessionStop then 7 else if s.retune then 18 else 7
    case Reaping(timedOut) => (if timedOut && s.retune then 19 else 8) + (if s.child in s.alive then 1 else 0)
    case Unwatching(timedOut) => (if timedOut && s.retune then 21 else 10) + (if s.child in s.alive then 1 else 0)
                                 + (if s.childWatch == Waiting then 1 else 0)
    case Reading =>
      if s.child !in s.alive then 13 + (if s.childWatch == Waiting then 1 else 0)
      else if s.terminated then 14
      else if Doomed(s) then 15
      else 2
    case Starting => if Doomed(s) || s.child !in s.alive then 16 else 3
    case Spawning => if Doomed(s) then 17 else 4
  }

  /** Bounds the number of program steps left before the loop settles. */
  function Rank(s: State): nat {
    PcRank(s) + if s.sessionWatch == Waiting && (s.toggle || s.stop) then 30 else 0
  }

  lemma RankDecreases(s: State, a: Action)
    requires Inv(s) && Internal(a) && Enabled(s, a)
    ensures Rank(Next(s, a)) < Rank(s)
  {
  }

  /** No lost wake-up: once requests and outside events cease, the program takes at most
      53 more steps of its own, and where it then rests it serves the latest request. */
  lemma SettlesOnLatestRequest(s: State, before: seq<Action>, own: seq<Action>)
    requires Init(s) && Run(s, before)
    requires Run(After(s, before), own)
    requires forall i | 0 <= i < |own| :: Internal(own[i])
    ensures |own| <= 53
    ensures Quiescent(After(After(s, before), own)) ==> ServesLatestRequest(After(After(s, before), own))
  {
    EveryReachableStateIsSafe(s, before);
    StepsBoundedByRank(After(s, before), own);
    EveryReachableStateIsSafe(After(s, before), own);
    if Quiescent(After(After(s, before), own)) {
      QuiescentServesLatestRequest(After(After(s, before), own));
    }
  }

  /** And it never blocks short of that: from every reachable state the program's own steps lead to rest. */
  lemma {:induction false} CanSettle(s: State) returns (own: seq<Action>)
    requires Inv(s)
    ensures Run(s, own) && forall i | 0 <= i < |own| :: Internal(own[i])
    ensures ServesLatestRequest(After(s, own))
    decreases Rank(s)
  {
    if Quiescent(s) {
      QuiescentServesLatestRequest(s);
      own := [];
    } else {
      var a :| Internal(a) && Enabled(s, a);
      RankDecreases(s, a);
      InvStep(s, a);
      var rest := CanSettle(Next(s, a));
      own := [a] + rest;
      assert own[1..] == rest;
    }
  }

  lemma {:induction false} StepsBoundedByRank(s: State, own: seq<Action>)
    requires Inv(s) && Run(s, own)
    requires forall i | 0 <= i < |own| :: Internal(own[i])
    ensures |own| + Rank(After(s, own)) <= Rank(s)
    decreases |own|
  {
    if own == [] {
    } else {
      assert Internal(own[0]);
      RankDecreases(s, own[0]);
      InvStep(s, own[0]);
      StepsBoundedByRank(Next(s, own[0]), own[1..]);
    }
  }

  // ---- a child is left alone unless something happened ----

  /** What may end a child: a tune request, a change of live, a stop, a silence, or the child itself. */
  predicate Disturbs(s: State, a: Action) {
    || a.SetTuning? || (a.SetLive? && a.enabled != s.config.liveEnabled) || a.Stop?
    || a.SilenceTimeout? || a.ChildExits? || a.ChildClosesStderr?
  }

  predicate OpensSession(s: State, a: Action)
    requires Enabled(s, a)
  {
    a.Begin? && Next(s, a).pc == Spawning
  }

  /** Something disturbed the run since its last session began; `already`, or before it starts. */
  predicate Disturbed(s: State, acts: seq<Action>, already: bool)
    requires Run(s, acts)
    decreases |acts|
  {
    if acts == [] then already
    else Disturbed(Next(s, acts[0]), acts[1..], !OpensSession(s, acts[0]) && (already || Disturbs(s, acts[0])))
  }

  predicate Terminates(s: State, a: Action)
    requires Enabled(s, a)
  {
    (!s.terminated && Next(s, a).terminated) || a.KillTimeout?
  }

  /** A session in which nothing is pending and no child is on its way out. */
  predicate Calm(s: State) {
    && !s.retune && !s.toggle && !s.stop && !s.sessionStop && !s.terminated
    && s.childWatch != Fired && s.sessionWatch == Waiting && s.config.liveEnabled
    && (s.pc == Spawning || s.pc == Starting || s.pc == Reading || s.pc == Backoff)
    && (s.pc == Starting || s.pc == Reading ==> s.alive == {s.child})
  }

  /** Calm, or not in a session and with nothing pending. */
  predicate AtEase(s: State) {
    || Calm(s)
    || (s.pc == Top && s.alive == {} && !s.stop && !s.toggle && !s.retune && !s.terminated)
    || (s.pc == Paused && s.alive == {} && !s.stop && !s.toggle && !s.retune && !s.terminated && !s.config.liveEnabled)
  }

  lemma CalmStep(s: State, a: Action)
    requires Inv(s) && Calm(s) && Enabled(s, a) && !Disturbs(s, a)
    ensures Calm(Next(s, a)) && !Terminates(s, a)
    ensures s.pc == Reading ==> Next(s, a).pc == Reading && Next(s, a).child == s.child
  {
  }

  lemma AtEaseStep(s: State, a: Action)
    requires Inv(s) && AtEase(s) && Enabled(s, a) && !Disturbs(s, a)
    ensures AtEase(Next(s, a)) && !Terminates(s, a)
  {
    if Calm(s) {
      CalmStep(s, a);
    }
  }

  lemma SessionsOpenCalm(s: State, a: Action)
    requires Inv(s) && Enabled(s, a) && OpensSession(s, a)
    ensures Calm(Next(s, a))
  {
  }

  lemma {:induction false} AtEaseUnlessDisturbed(s: State, acts: seq<Action>, already: bool)
    requires Inv(s) && (!already ==> AtEase(s)) && Run(s, acts)
    ensures Inv(After(s, acts)) && (!Disturbed(s, acts, already) ==> AtEase(After(s, acts)))
    decreases |acts|
  {
    if acts == [] {
    } else {
      InvStep(s, acts[0]);
      if OpensSession(s, acts[0]) {
        SessionsOpenCalm(s, acts[0]);
      } else if !already && !Disturbs(s, acts[0]) {
        AtEaseStep(s, acts[0]);
      }
      AtEaseUnlessDisturbed(Next(s, acts[0]), acts[1..],
                            !OpensSession(s, acts[0]) && (already || Disturbs(s, acts[0])));
    }
  }

  /** Whenever a child gets SIGTERM or SIGKILL, in any run, then since its session began there was a tune
      request, a pause or resume that changed something, a stop, a silence, or an end of the child's own. */
  lemma TerminationHasCause(s: State, acts: seq<Action>, a: Action)
    requires Init(s) && Run(s, acts) && Enabled(After(s, acts), a) && Terminates(After(s, acts), a)
    ensures Disturbed(s, acts, false) || Disturbs(After(s, acts), a)
  {
    AtEaseUnlessDisturbed(s, acts, false);
    if !Disturbed(s, acts, false) && !Disturbs(After(s, acts), a) {
      AtEaseStep(After(s, acts), a);
    }
  }

  /** Requests for what is already so, and the program's own steps, change nothing where the loop rests: a
      child that is reading goes on reading, a pause stays a pause. */
  lemma {:induction false} RepeatedRequestChangesNothing(s: State, acts: seq<Action>)
    requires Inv(s) && Quiescent(s) && Run(s, acts)
    requires forall i | 0 <= i < |acts| :: Internal(acts[i]) || acts[i] == SetLive(s.config.liveEnabled)
    ensures After(s, acts) == s
    ensures s.config.liveEnabled && !s.stop ==> After(s, acts).pc == Reading && After(s, acts).alive == {s.child}
    decreases |acts|
  {
    QuiescentServesLatestRequest(s);
    if acts == [] {
    } else {
      assert !Internal(acts[0]);
      assert Next(s, acts[0]) == s;
      RepeatedRequestChangesNothing(s, acts[1..]);
    }
  }
}
