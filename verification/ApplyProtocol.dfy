/**
 * How the agent applies pushed configs and commands (`client.rs`), and brings a core back after
 * its own restart (`restore_last_config` in `main.rs`), on top of the process manager.
 */
module ApplyProtocol {
  import opened Prelude
  import opened CoreProcess

  datatype Snapshot = Snapshot(config: string, version: string)

  /**
   * One core as the agent sees it.  `hot` tells sing-box, whose reload does not restart, from
   * mihomo.  `byCommand` records whether a Start or Restart command launched the core since a
   * config was last applied or restored.
   */
  datatype Agent = Agent(hot: bool, minimal: string, core: Core, snapshot: Option<Snapshot>, byCommand: bool)

  datatype Swap = Swap(elsewhere: string, present: bool)

  datatype PushIo = PushIo(
    manager: bool, swap: Option<Swap>, start: StartIo, written: bool, accepted: bool, saved: bool)

  datatype Push = Push(config: string, version: string, restart: bool, io: PushIo)

  /** The pushed version is the one already recorded as applied. */
  predicate Skipped(a: Agent, p: Push) {
    !p.restart && p.version != "" && a.snapshot.Some? && a.snapshot.value.version == p.version
  }

  predicate Restarts(a: Agent, p: Push) { p.restart || !a.hot }

  function Swapped(s: Core, swap: Option<Swap>): Core {
    if swap.None? then s else Moved(s, swap.value.elsewhere, swap.value.present)
  }

  /** `handle_config_push` */
  function HandlePush(a: Agent, p: Push): (bool, Agent) {
    if Skipped(a, p) then (true, a)
    else if !p.io.manager then (false, a)
    else
      var core := Swapped(a.core, p.io.swap);
      var (ok, applied) :=
        if Restarts(a, p) then Restart(core, p.config, p.io.start)
        else Reload(core, p.config, p.io.written, p.io.accepted);
      if !ok then (false, a.(core := applied))
      else
        (true, a.(core := applied, byCommand := false,
                  snapshot := if p.io.saved then Some(Snapshot(p.config, p.version)) else a.snapshot))
  }

  datatype Command =
    | StartCommand(manager: bool, waitFails: bool, io: StartIo)
    | StopCommand(manager: bool)
    | RestartCommand(manager: bool, io: StartIo)

  /** `handle_core_command`: a start or restart launches the minimal config. */
  function HandleCommand(a: Agent, c: Command): (bool, Agent) {
    if !c.manager then (c.StopCommand?, a)
    else
      match c
      case StartCommand(_, waitFails, io) =>
        var (running, polled) := IsRunning(a.core, waitFails);
        if running then (true, a.(core := polled))
        else
          var (ok, core) := Start(polled, a.minimal, io);
          (ok, a.(core := core, byCommand := ok || a.byCommand))
      case StopCommand(_) => (true, a.(core := Stop(a.core)))
      case RestartCommand(_, io) =>
        var (ok, core) := Restart(a.core, a.minimal, io);
        (ok, a.(core := core, byCommand := ok || a.byCommand))
  }

  /** The agent dies and comes back: every core with a snapshot is started from it. */
  function RestartAgent(a: Agent, survives: bool, manager: bool, io: StartIo): Agent {
    var core := Crashed(a.core, survives);
    if a.snapshot.None? || !manager then a.(core := core)
    else
      var (ok, started) := Start(core, a.snapshot.value.config, io);
      a.(core := started, byCommand := !ok && a.byCommand)
  }

  datatype Event =
    | Pushed(push: Push)
    | Commanded(command: Command)
    | Polled(waitFails: bool)
    | CoreExits(pid: Pid)
    | OtherStarts(pid: Pid, exe: string)
    | AgentRestarts(survives: bool, manager: bool, io: StartIo)

  function Next(a: Agent, e: Event): Agent {
    match e
    case Pushed(p) => HandlePush(a, p).1
    case Commanded(c) => HandleCommand(a, c).1
    case Polled(waitFails) => a.(core := IsRunning(a.core, waitFails).1)
    case CoreExits(pid) => a.(core := Step(a.core, Exit(pid)))
    case OtherStarts(pid, exe) => a.(core := Step(a.core, Other(pid, exe)))
    case AgentRestarts(survives, manager, io) => RestartAgent(a, survives, manager, io)
  }

  function Run(a: Agent, events: seq<Event>): Agent {
    if events == [] then a else Next(Run(a, events[..|events| - 1]), events[|events| - 1])
  }

  // ----- what a running core runs

  /** A live core runs the minimal config if a command launched it, and the persisted snapshot's config otherwise. */
  ghost predicate RunsKnownConfig(a: Agent) {
    forall p :: IsCore(a.core, p) ==>
      if a.byCommand then a.core.live[p].config == a.minimal
      else a.snapshot.Some? && a.core.live[p].config == a.snapshot.value.config
  }

  ghost predicate Sound(a: Agent) { Tracked(a.core) && RunsKnownConfig(a) }

  /** Saves succeed, `try_wait` works, and nothing stops a core while an orphan of a crash is about. */
  ghost predicate Orderly(a: Agent, e: Event) {
    match e
    case Pushed(p) =>
      Skipped(a, p) || (
        && p.io.saved
        && (p.io.swap.Some? ==> NoOrphan(a.core))
        && (Restarts(a, p) ==> NoOrphan(a.core) && CleanStart(a.core, p.io.start)))
    case Commanded(StartCommand(_, waitFails, io)) => !waitFails && CleanStart(a.core, io)
    case Commanded(StopCommand(_)) => NoOrphan(a.core)
    case Commanded(RestartCommand(_, io)) => NoOrphan(a.core) && CleanStart(a.core, io)
    case Polled(waitFails) => !waitFails
    case CoreExits(_) => true
    case OtherStarts(pid, _) => FreePid(a.core, pid)
    case AgentRestarts(survives, _, io) =>
      Guarded(a.core, Crash(survives)) && CleanStart(Crashed(a.core, survives), io)
  }

  lemma SwappedKeeps(s: Core, swap: Option<Swap>)
    requires Tracked(s) && (swap.Some? ==> NoOrphan(s))
    ensures Tracked(Swapped(s, swap)) && Swapped(s, swap).live.Keys == s.live.Keys
    ensures Swapped(s, swap).process == s.process
    ensures forall p :: IsCore(s, p) <==> IsCore(Swapped(s, swap), p)
    ensures forall p :: p in s.live ==> Swapped(s, swap).live[p].config == s.live[p].config
    ensures NoOrphan(s) ==> NoOrphan(Swapped(s, swap))
  {
    if swap.Some? {
      WorldKeeps(s, Replace(swap.value.elsewhere, swap.value.present));
      forall p: Pid | Orphan(Swapped(s, swap), p)
        ensures Orphan(s, p)
      {
      }
    }
  }

  lemma FailedStartAddsNothing(s: Core, config: string, io: StartIo)
    requires CleanStart(s, io) && !Start(s, config, io).0
    ensures forall p :: IsCore(Start(s, config, io).1, p) ==>
      IsCore(s, p) && Start(s, config, io).1.live[p] == s.live[p]
  {
  }

  lemma RestartFacts(s: Core, config: string, io: StartIo)
    requires Tracked(s) && NoOrphan(s) && CleanStart(s, io)
    ensures Tracked(Restart(s, config, io).1)
    ensures forall p :: IsCore(Restart(s, config, io).1, p) ==>
      Restart(s, config, io).0 && Restart(s, config, io).1.live[p].config == config
  {
    hide Tracked, Start, Stop;
    StopLeavesNone(s);
    StopFrees(s, io);
    StartLeavesOneCore(Stop(s), config, io);
    var (ok, s') := Restart(s, config, io);
    if ok {
      forall p: Pid | IsCore(s', p)
        ensures s'.live[p].config == config
      {
        assert !Orphan(s', p);
      }
    } else {
      FailedStartAddsNothing(Stop(s), config, io);
    }
  }

  lemma StopFrees(s: Core, io: StartIo)
    requires CleanStart(s, io)
    ensures CleanStart(Stop(s), io)
  {
  }

  lemma PushKeeps(a: Agent, p: Push)
    requires Sound(a) && Orderly(a, Pushed(p))
    ensures Sound(HandlePush(a, p).1)
  {
    if !Skipped(a, p) && p.io.manager {
      SwappedKeeps(a.core, p.io.swap);
      var core := Swapped(a.core, p.io.swap);
      if Restarts(a, p) {
        RestartFacts(core, p.config, p.io.start);
        hide Tracked, Restart, Swapped;
      } else {
        ReloadKeeps(core, p.config, p.io.written, p.io.accepted);
        hide Tracked, Reload, Swapped;
      }
    }
  }

  lemma StartKeeps(s: Core, config: string, io: StartIo)
    requires Tracked(s) && CleanStart(s, io)
    ensures var (ok, s') := Start(s, config, io);
      && Tracked(s')
      && (forall p :: IsCore(s', p) ==>
            if ok then s'.live[p].config == config else IsCore(s, p) && s'.live[p] == s.live[p])
  {
    StartLeavesOneCore(s, config, io);
    var (ok, s') := Start(s, config, io);
    if ok {
      hide Start, Tracked;
      forall p: Pid | IsCore(s', p)
        ensures s'.live[p].config == config
      {
        assert !Orphan(s', p);
      }
    } else {
      FailedStartAddsNothing(s, config, io);
    }
  }

  lemma CommandKeeps(a: Agent, c: Command)
    requires Sound(a) && Orderly(a, Commanded(c))
    ensures Sound(HandleCommand(a, c).1)
  {
    if c.manager {
      match c {
        case StartCommand(_, waitFails, io) =>
          PollKeeps(a.core);
          var polled := IsRunning(a.core, false).1;
          assert CleanStart(polled, io) && polled.live == a.core.live;
          StartKeeps(polled, a.minimal, io);
          hide Tracked, Start, IsRunning;
        case StopCommand(_) =>
          StopLeavesNone(a.core);
          hide Tracked, Stop;
        case RestartCommand(_, io) =>
          RestartFacts(a.core, a.minimal, io);
          hide Tracked, Restart;
      }
    }
  }

  lemma AgentRestartKeeps(a: Agent, survives: bool, manager: bool, io: StartIo)
    requires Sound(a) && Orderly(a, AgentRestarts(survives, manager, io))
    ensures Sound(RestartAgent(a, survives, manager, io))
  {
    WorldKeeps(a.core, Crash(survives));
    var core := Crashed(a.core, survives);
    assert forall p :: IsCore(core, p) ==> IsCore(a.core, p) && core.live[p] == a.core.live[p];
    hide Crashed;
    if a.snapshot.Some? && manager {
      StartKeeps(core, a.snapshot.value.config, io);
      hide Tracked, Start;
    }
  }

  lemma NextKeeps(a: Agent, e: Event)
    requires Sound(a) && Orderly(a, e)
    ensures Sound(Next(a, e))
  {
    match e {
      case Pushed(p) => PushKeeps(a, p);
      case Commanded(c) => CommandKeeps(a, c);
      case Polled(waitFails) => PollKeeps(a.core);
      case CoreExits(pid) => WorldKeeps(a.core, Exit(pid));
      case OtherStarts(pid, exe) => WorldKeeps(a.core, Other(pid, exe));
      case AgentRestarts(survives, manager, io) => AgentRestartKeeps(a, survives, manager, io);
    }
  }

  ghost predicate AllOrderly(a: Agent, events: seq<Event>) {
    forall i :: 0 <= i < |events| ==> Orderly(Run(a, events[..i]), events[i])
  }

  /**
   * In every orderly run of pushes, commands, polls, core exits and agent crashes, at most one
   * core is alive, and it runs the persisted config, or the minimal one just when a Start or
   * Restart command launched it since the last apply.
   */
  lemma {:induction false} AgentRunKeeps(a: Agent, events: seq<Event>)
    requires Sound(a) && AllOrderly(a, events)
    ensures Sound(Run(a, events))
  {
    hide Sound, Next;
    if events != [] {
      var front := events[..|events| - 1];
      forall i | 0 <= i < |front|
        ensures Orderly(Run(a, front[..i]), front[i])
      {
        assert front[..i] == events[..i];
      }
      AgentRunKeeps(a, front);
      assert events[..|front|] == front;
      NextKeeps(Run(a, front), events[|events| - 1]);
    }
  }

  /** The same without any guard on orphans, where the OS takes the core down with the agent. */
  ghost predicate OrderlyWhenBound(a: Agent, e: Event) {
    match e
    case Pushed(p) =>
      Skipped(a, p) || (
        && p.io.saved
        && (Restarts(a, p) ==> CleanStart(a.core, p.io.start)))
    case Commanded(StartCommand(_, waitFails, io)) => !waitFails && CleanStart(a.core, io)
    case Commanded(StopCommand(_)) => true
    case Commanded(RestartCommand(_, io)) => CleanStart(a.core, io)
    case Polled(waitFails) => !waitFails
    case CoreExits(_) => true
    case OtherStarts(pid, _) => FreePid(a.core, pid)
    case AgentRestarts(survives, _, io) => !survives && CleanStart(Crashed(a.core, survives), io)
  }

  lemma StartKeepsNoOrphan(s: Core, config: string, io: StartIo)
    requires Tracked(s) && NoOrphan(s) && CleanStart(s, io)
    ensures NoOrphan(Start(s, config, io).1)
  {
    StartLeavesOneCore(s, config, io);
    if !Start(s, config, io).0 {
      FailedStartKeepsNoOrphan(s, config, io);
    }
  }

  lemma RestartKeepsNoOrphan(s: Core, config: string, io: StartIo)
    requires Tracked(s) && NoOrphan(s) && CleanStart(s, io)
    ensures NoOrphan(Restart(s, config, io).1)
  {
    StopLeavesNone(s);
    StopFrees(s, io);
    StartKeepsNoOrphan(Stop(s), config, io);
  }

  lemma NoOrphanNext(a: Agent, e: Event)
    requires Sound(a) && NoOrphan(a.core) && OrderlyWhenBound(a, e)
    ensures Orderly(a, e) && NoOrphan(Next(a, e).core)
  {
    match e {
      case Pushed(p) =>
        if !Skipped(a, p) && p.io.manager {
          SwappedKeeps(a.core, p.io.swap);
          var core := Swapped(a.core, p.io.swap);
          if Restarts(a, p) {
            RestartKeepsNoOrphan(core, p.config, p.io.start);
          } else {
            ReloadKeeps(core, p.config, p.io.written, p.io.accepted);
            var reloaded := Reload(core, p.config, p.io.written, p.io.accepted).1;
            forall q: Pid
              ensures !Orphan(reloaded, q)
            {
              assert !Orphan(core, q) && reloaded.process == core.process;
            }
          }
        }
      case Commanded(c) =>
        NoOrphanCommand(a, c);
      case Polled(waitFails) =>
        assert forall p :: Orphan(Next(a, e).core, p) ==> Orphan(a.core, p);
      case CoreExits(pid) =>
        assert forall p :: Orphan(Next(a, e).core, p) ==> Orphan(a.core, p);
      case OtherStarts(pid, exe) =>
        assert forall p :: Orphan(Next(a, e).core, p) ==> Orphan(a.core, p);
      case AgentRestarts(survives, manager, io) =>
        var core := Crashed(a.core, survives);
        assert forall p :: Orphan(core, p) ==> Orphan(a.core, p);
        WorldKeeps(a.core, Crash(survives));
        if a.snapshot.Some? && manager {
          StartKeepsNoOrphan(core, a.snapshot.value.config, io);
        }
    }
  }

  lemma NoOrphanCommand(a: Agent, c: Command)
    requires Sound(a) && NoOrphan(a.core) && OrderlyWhenBound(a, Commanded(c))
    ensures NoOrphan(HandleCommand(a, c).1.core)
  {
    if c.manager {
      match c {
        case StartCommand(_, waitFails, io) =>
          PollKeeps(a.core);
          var polled := IsRunning(a.core, false).1;
          assert forall p :: Orphan(polled, p) ==> Orphan(a.core, p);
          StartKeepsNoOrphan(polled, a.minimal, io);
        case StopCommand(_) =>
          StopLeavesNone(a.core);
        case RestartCommand(_, io) =>
          RestartKeepsNoOrphan(a.core, a.minimal, io);
      }
    }
  }

  lemma {:induction false} AgentBoundRunKeeps(a: Agent, events: seq<Event>)
    requires Sound(a) && NoOrphan(a.core)
    requires forall i :: 0 <= i < |events| ==> OrderlyWhenBound(Run(a, events[..i]), events[i])
    ensures Sound(Run(a, events)) && NoOrphan(Run(a, events).core)
  {
    hide Sound, Next, OrderlyWhenBound;
    if events != [] {
      var front := events[..|events| - 1];
      forall i | 0 <= i < |front|
        ensures OrderlyWhenBound(Run(a, front[..i]), front[i])
      {
        assert front[..i] == events[..i];
      }
      AgentBoundRunKeeps(a, front);
      assert events[..|front|] == front;
      NoOrphanNext(Run(a, front), events[|events| - 1]);
      NextKeeps(Run(a, front), events[|events| - 1]);
    }
  }

  // ----- what commands, pushes and restarts of the agent bring about

  /** A Stop command always succeeds, and no core is left alive. */
  lemma StopCommandStops(a: Agent)
    requires Tracked(a.core) && NoOrphan(a.core)
    ensures var (ok, after) := HandleCommand(a, StopCommand(true));
      && ok && (forall p :: !IsCore(after.core, p))
      && after.core.process.None? && after.core.pidfile.None? && after == a.(core := after.core)
    ensures HandleCommand(a, StopCommand(false)) == (true, a)
  {
    StopLeavesNone(a.core);
    StopEffect(a.core);
    hide Stop, Tracked, NoOrphan;
  }

  /**
   * A Start command succeeds if and only if the held core is alive already, in which case nothing
   * changes, or one comes up; then it is a new one on the minimal config.
   */
  lemma StartCommandStarts(a: Agent, waitFails: bool, io: StartIo)
    ensures var (ok, after) := HandleCommand(a, StartCommand(true, waitFails, io));
      var running := a.core.process.Some? && a.core.process.value in a.core.live && !waitFails;
      && (ok <==> running || (a.core.present && ComesUp(io)))
      && (running ==> after == a)
      && (ok && !running ==> Launched(a, after, a.minimal, io) && after.byCommand)
      && (!ok ==> after.byCommand == a.byCommand)
      && after.snapshot == a.snapshot
    ensures HandleCommand(a, StartCommand(false, waitFails, io)) == (false, a)
  {
    PollEffect(a.core, waitFails);
    var polled := IsRunning(a.core, waitFails).1;
    StartSucceedsExactly(polled, a.minimal, io);
    hide IsRunning, Start;
  }

  /** The core of `io` is alive, held, and runs a config. */
  predicate Launched(a: Agent, after: Agent, config: string, io: StartIo) {
    && after.core.process == Some(io.pid) && io.pid in after.core.live
    && after.core.live[io.pid] == Process(a.core.binary, config, true)
    && after.core.configFile == Some(config) && after.core.guard && after.core.started
  }

  /** A Restart command succeeds if and only if a new core comes up, on the minimal config; the old one is gone. */
  lemma RestartCommandRestarts(a: Agent, io: StartIo)
    ensures var (ok, after) := HandleCommand(a, RestartCommand(true, io));
      && (ok <==> a.core.present && ComesUp(io))
      && (ok ==> Launched(a, after, a.minimal, io) && after.byCommand)
      && (!ok ==> after.core.process.None? && after.byCommand == a.byCommand)
      && (a.core.process.Some? && a.core.process.value != io.pid ==> a.core.process.value !in after.core.live)
      && after.snapshot == a.snapshot
    ensures HandleCommand(a, RestartCommand(false, io)) == (false, a)
  {
    RestartSucceedsExactly(a.core, a.minimal, io);
    hide Restart;
  }

  lemma RestartSucceedsExactly(s: Core, config: string, io: StartIo)
    ensures var (ok, s') := Restart(s, config, io);
      && (ok <==> s.present && ComesUp(io))
      && (ok ==>
            && s'.process == Some(io.pid) && s'.guard && s'.started && s'.configFile == Some(config)
            && io.pid in s'.live && s'.live[io.pid] == Process(s.binary, config, true))
      && (!ok ==> s'.process.None? && !s'.guard)
      && (s.process.Some? && s.process.value != io.pid ==> s.process.value !in s'.live)
  {
    StopEffect(s);
    StartSucceedsExactly(Stop(s), config, io);
  }

  /** Only a push of the recorded, non-empty version that asks for no restart is skipped, and it changes nothing. */
  lemma SkippedExactly(a: Agent, p: Push)
    ensures p.restart || p.version == "" || a.snapshot.None? || a.snapshot.value.version != p.version ==> !Skipped(a, p)
    ensures !p.restart && p.version != "" && a.snapshot.Some? && a.snapshot.value.version == p.version ==>
      HandlePush(a, p) == (true, a)
  {
  }

  /**
   * What a push that is not skipped brings about.  Without a reload, or on request, it succeeds if and
   * only if a new core comes up on the pushed config; a reload keeps the core and gives it the config.
   * Success, and only success, records the snapshot if it can be saved.
   */
  lemma PushTakesEffect(a: Agent, p: Push)
    requires p.restart || p.version == "" || a.snapshot.None? || a.snapshot.value.version != p.version
    ensures var (ok, after) := HandlePush(a, p);
      var present := if p.io.swap.Some? then p.io.swap.value.present else a.core.present;
      && (ok <==> p.io.manager && if p.restart || !a.hot then present && ComesUp(p.io.start)
                                  else p.io.written && p.io.accepted)
      && (ok && (p.restart || !a.hot) ==> Launched(a, after, p.config, p.io.start))
      && (ok && !p.restart && a.hot ==>
            && after.core.process == a.core.process && after.core.configFile == Some(p.config)
            && after.core.live.Keys == a.core.live.Keys
            && (forall q :: IsCore(a.core, q) ==> IsCore(after.core, q) && after.core.live[q].config == p.config))
      && (ok ==> !after.byCommand)
      && after.snapshot == (if ok && p.io.saved then Some(Snapshot(p.config, p.version)) else a.snapshot)
      && (!ok ==> after.byCommand == a.byCommand)
      && (!p.io.manager ==> after == a)
      && (!ok && p.io.manager && (p.restart || !a.hot) ==> after.core.process.None? && !after.core.guard)
      && (!ok && p.io.manager && !p.restart && a.hot ==>
            && after.core.process == a.core.process && after.core.live.Keys == a.core.live.Keys
            && after.core.configFile == if p.io.written then Some(p.config) else a.core.configFile)
  {
    SkippedExactly(a, p);
    RestartSucceedsExactly(Swapped(a.core, p.io.swap), p.config, p.io.start);
    hide Restart;
  }

  /** An agent that comes back starts its core from the snapshot; it is held and alive exactly if it comes up. */
  lemma AgentRestartRestores(a: Agent, survives: bool, io: StartIo)
    requires a.snapshot.Some?
    ensures var after := RestartAgent(a, survives, true, io);
      && (a.core.present && ComesUp(io) ==> Launched(a, after, a.snapshot.value.config, io) && !after.byCommand)
      && (!(a.core.present && ComesUp(io)) ==> after.core.process.None? && after.byCommand == a.byCommand)
      && after.snapshot == a.snapshot
  {
    StartSucceedsExactly(Crashed(a.core, survives), a.snapshot.value.config, io);
    hide Start;
  }

  /** What one event does to an agent. */
  predicate Does(before: Agent, e: Event, after: Agent) {
    match e
    case Pushed(p) => after == HandlePush(before, p).1
    case Commanded(c) => after == HandleCommand(before, c).1
    case Polled(waitFails) => after == before.(core := IsRunning(before.core, waitFails).1)
    case CoreExits(pid) => after == before.(core := before.core.(live := before.core.live - {pid}))
    case OtherStarts(pid, exe) =>
      after == before.(core := before.core.(live := before.core.live[pid := Process(exe, "", false)]))
    case AgentRestarts(survives, manager, io) => after == RestartAgent(before, survives, manager, io)
  }

  /** A run is its events one after another, each doing what its handler does and no more. */
  lemma RunIsItsEvents(a: Agent, events: seq<Event>, e: Event)
    ensures Run(a, []) == a && Does(Run(a, events), e, Run(a, events + [e]))
  {
    assert (events + [e])[..|events|] == events;
  }

  // ----- skipped pushes

  /** Versions are content hashes: a non-empty version stands for one config. */
  ghost predicate VersionsNameConfigs(meaning: string -> string, events: seq<Event>) {
    forall i :: 0 <= i < |events| && events[i].Pushed? && events[i].push.version != "" ==>
      events[i].push.config == meaning(events[i].push.version)
  }

  ghost predicate SnapshotNamed(meaning: string -> string, a: Agent) {
    a.snapshot.Some? && a.snapshot.value.version != "" ==> a.snapshot.value.config == meaning(a.snapshot.value.version)
  }

  lemma {:induction false} SnapshotStaysNamed(meaning: string -> string, a: Agent, events: seq<Event>)
    requires SnapshotNamed(meaning, a) && VersionsNameConfigs(meaning, events)
    ensures SnapshotNamed(meaning, Run(a, events))
  {
    hide Restart, Reload, Start, IsRunning, Stop, Crashed, Moved;
    if events != [] {
      SnapshotStaysNamed(meaning, a, events[..|events| - 1]);
    }
  }

  /**
   * A skipped push is harmless exactly when the core is up and not on the minimal config: after any
   * orderly run, the pushed config is what some core runs if and only if a core is alive and (no
   * command launched it, or the minimal config happens to be the pushed one).
   */
  lemma SkippedPush(meaning: string -> string, a: Agent, events: seq<Event>, p: Push)
    requires Sound(a) && AllOrderly(a, events)
    requires SnapshotNamed(meaning, a) && VersionsNameConfigs(meaning, events + [Pushed(p)])
    requires Skipped(Run(a, events), p)
    ensures HandlePush(Run(a, events), p) == (true, Run(a, events))
    ensures var now := Run(a, events);
      (exists q :: IsCore(now.core, q) && now.core.live[q].config == p.config) <==>
      (exists q :: IsCore(now.core, q)) && (!now.byCommand || now.minimal == p.config)
  {
    AgentRunKeeps(a, events);
    assert (events + [Pushed(p)])[|events|] == Pushed(p);
    forall i | 0 <= i < |events|
      ensures events[i] == (events + [Pushed(p)])[i]
    {
    }
    SnapshotStaysNamed(meaning, a, events);
    hide Run, Tracked;
  }

  /** The same push, with its snapshot saved. */
  function Saved(p: Push): Push { p.(io := p.io.(saved := true)) }

  /**
   * A push that is applied but whose snapshot cannot be saved keeps the invariant if and only if no
   * core is alive to run it, or it pushes the config that is persisted already.
   */
  lemma UnsavedPush(a: Agent, p: Push)
    requires Sound(a) && Orderly(a, Pushed(Saved(p)))
    requires !Skipped(a, p) && !p.io.saved && HandlePush(a, p).0
    ensures var after := HandlePush(a, p).1;
      Sound(after) <==>
        (forall q :: !IsCore(after.core, q)) || (a.snapshot.Some? && a.snapshot.value.config == p.config)
  {
    PushKeeps(a, Saved(p));
    SameCore(a, p);
    hide HandlePush, Tracked, Orderly;
    var after, saved := HandlePush(a, p).1, HandlePush(a, Saved(p)).1;
    assert forall q :: IsCore(saved.core, q) ==> after.core.live[q].config == p.config;
  }

  lemma SameCore(a: Agent, p: Push)
    requires !Skipped(a, p) && HandlePush(a, p).0
    ensures var after, saved := HandlePush(a, p).1, HandlePush(a, Saved(p)).1;
      && after.core == saved.core && !after.byCommand && !saved.byCommand
      && saved.snapshot == Some(Snapshot(p.config, p.version))
      && (!p.io.saved ==> after.snapshot == a.snapshot)
  {
    hide Restart, Reload, Swapped;
  }

  // ----- the agent itself

  class Session {
    const hot: bool
    const minimal: string
    const manager: Manager
    var snapshot: Option<Snapshot>
    var byCommand: bool

    constructor (hot: bool, minimal: string, manager: Manager, snapshot: Option<Snapshot>)
      ensures this.hot == hot && this.minimal == minimal && this.manager == manager
      ensures this.snapshot == snapshot && !byCommand
    {
      this.hot, this.minimal, this.manager := hot, minimal, manager;
      this.snapshot, byCommand := snapshot, false;
    }

    function State(): Agent
      reads this, manager, manager.system
    {
      Agent(hot, minimal, manager.State(), snapshot, byCommand)
    }

    /** What `ensure_core_build` does to running processes: their executable is no longer the managed path. */
    method SwapBinary(swap: Option<Swap>)
      modifies manager.system
      ensures manager.State() == Swapped(old(manager.State()), swap)
    {
      if swap.Some? {
        var system := manager.system;
        system.present := swap.value.present;
        system.live := map q | q in system.live ::
          if system.live[q].exe == manager.binary then system.live[q].(exe := swap.value.elsewhere) else system.live[q];
      }
    }

    method HandleConfigPush(p: Push) returns (ok: bool)
      modifies this, manager, manager.system
      ensures (ok, State()) == HandlePush(old(State()), p)
    {
      hide Restart, Reload, Swapped;
      if !p.restart && p.version != "" {
        if snapshot.Some? && snapshot.value.version == p.version {
          return true;
        }
      }
      if !p.io.manager {
        return false;
      }
      SwapBinary(p.io.swap);
      if p.restart || !hot {
        ok := manager.RestartCore(p.config, p.io.start);
      } else {
        ok := manager.ReloadCore(p.config, p.io.written, p.io.accepted);
      }
      if !ok {
        return;
      }
      byCommand := false;
      if p.io.saved {
        snapshot := Some(Snapshot(p.config, p.version));
      }
    }

    method HandleCoreCommand(c: Command) returns (ok: bool)
      modifies this, manager, manager.system
      ensures (ok, State()) == HandleCommand(old(State()), c)
    {
      hide Restart, Start, Stop, IsRunning;
      if !c.manager {
        return c.StopCommand?;
      }
      match c {
        case StartCommand(_, waitFails, io) =>
          var running := manager.Poll(waitFails);
          if running {
            return true;
          }
          ok := manager.StartCore(minimal, io);
          byCommand := ok || byCommand;
        case StopCommand(_) =>
          manager.StopCore();
          ok := true;
        case RestartCommand(_, io) =>
          ok := manager.RestartCore(minimal, io);
          byCommand := ok || byCommand;
      }
    }

    /** The first thing a freshly started agent does; its manager holds nothing yet. */
    method RestoreLastConfig(managerReady: bool, io: StartIo)
      requires manager.process.None? && !manager.guard && !manager.started
      modifies this, manager, manager.system
      ensures State() == RestartAgent(old(State()), true, managerReady, io)
    {
      if snapshot.Some? && managerReady {
        var running := manager.Poll(false);
        if !running {
          var ok := manager.StartCore(snapshot.value.config, io);
          byCommand := !ok && byCommand;
        }
      }
    }
  }
}
