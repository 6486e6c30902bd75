/**
 * The process manager of a core and its pidfile (`manager/singbox.rs`, `manager/mihomo.rs`,
 * `lifecycle.rs`), together with the processes it deals with.
 */
module CoreProcess {
  import opened Prelude

  type Pid = nat

  /** A live process; `ours` marks one this agent (or an earlier run of it) started as the core. */
  datatype Process = Process(exe: string, config: string, ours: bool)

  datatype PidFile = Record(pid: Pid, exe: string) | Garbage

  /** The manager's fields, what they refer to, and every process the agent has killed, as it then was. */
  datatype Core = Core(
    binary: string, present: bool,
    live: map<Pid, Process>, pidfile: Option<PidFile>, configFile: Option<string>,
    process: Option<Pid>, guard: bool, started: bool, kills: seq<Process>)

  /** What the system does during a start; `waitFails` is an error of `try_wait` itself. */
  datatype StartIo = StartIo(
    written: bool, killed: bool, spawned: bool, pid: Pid, exits: bool, waitFails: bool, pidfileWritten: bool)

  /** `reap_stale`: the pidfile is removed in every case but a missing one, and only a process
      with the managed executable is killed. */
  function ReapStale(s: Core, killed: bool): Core {
    match s.pidfile
    case None => s
    case Some(Garbage) => s.(pidfile := None)
    case Some(Record(pid, _)) =>
      if pid in s.live && s.live[pid].exe == s.binary && killed
      then s.(pidfile := None, live := s.live - {pid}, kills := s.kills + [s.live[pid]])
      else s.(pidfile := None)
  }

  function Start(s: Core, config: string, io: StartIo): (bool, Core) {
    if !s.present || s.process.Some? || !io.written then (false, s)
    else
      var s1 := ReapStale(s.(configFile := Some(config)), io.killed);
      if !io.spawned || io.exits then (false, s1)
      else
        var s2 := s1.(live := s1.live[io.pid := Process(s.binary, config, true)]);
        if io.waitFails then (false, s2)
        else
          (true, s2.(pidfile := if io.pidfileWritten then Some(Record(io.pid, s.binary)) else s2.pidfile,
                     guard := true, process := Some(io.pid), started := true))
  }

  function Stop(s: Core): Core {
    var s1 :=
      if s.process.None? then s
      else
        var pid := s.process.value;
        s.(process := None, started := false, live := s.live - {pid},
           kills := if pid in s.live then s.kills + [s.live[pid]] else s.kills);
    s1.(guard := false, pidfile := None)
  }

  function Restart(s: Core, config: string, io: StartIo): (bool, Core) {
    Start(Stop(s), config, io)
  }

  /** `start_time` keeps its value when the child is found to have exited. */
  function IsRunning(s: Core, waitFails: bool): (bool, Core) {
    if s.process.None? then (false, s)
    else if s.process.value in s.live && !waitFails then (true, s)
    else (false, s.(process := None, guard := false, pidfile := None))
  }

  /** sing-box's `reload`: write the config, and have the running core take it. */
  function Reload(s: Core, config: string, written: bool, accepted: bool): (bool, Core) {
    if !written then (false, s)
    else if !accepted then (false, s.(configFile := Some(config)))
    else
      (true, s.(configFile := Some(config),
                live := map p | p in s.live ::
                  if s.live[p].ours then s.live[p].(config := config) else s.live[p]))
  }

  // ----- the environment

  datatype Action =
    | DoStart(config: string, io: StartIo)
    | DoStop
    | DoRestart(config: string, io: StartIo)
    | DoReload(config: string, written: bool, accepted: bool)
    | DoPoll(waitFails: bool)
    | Exit(pid: Pid)                       // any process exits
    | Other(pid: Pid, exe: string)         // another program starts
    | Replace(elsewhere: string, present: bool)  // the binary is moved away or replaced
    | Crash(survives: bool)                // the agent dies; its child survives unless the OS binds them

  function Moved(s: Core, elsewhere: string, present: bool): Core {
    s.(present := present,
       live := map p | p in s.live ::
         if s.live[p].exe == s.binary then s.live[p].(exe := elsewhere) else s.live[p])
  }

  function Crashed(s: Core, survives: bool): Core {
    s.(process := None, guard := false, started := false,
       live := if s.process.Some? && !survives then s.live - {s.process.value} else s.live)
  }

  function Step(s: Core, a: Action): Core {
    match a
    case DoStart(config, io) => Start(s, config, io).1
    case DoStop => Stop(s)
    case DoRestart(config, io) => Restart(s, config, io).1
    case DoReload(config, written, accepted) => Reload(s, config, written, accepted).1
    case DoPoll(waitFails) => IsRunning(s, waitFails).1
    case Exit(pid) => s.(live := s.live - {pid})
    case Other(pid, exe) => s.(live := s.live[pid := Process(exe, "", false)])
    case Replace(elsewhere, present) => Moved(s, elsewhere, present)
    case Crash(survives) => Crashed(s, survives)
  }

  // ----- what holds

  ghost predicate IsCore(s: Core, p: Pid) { p in s.live && s.live[p].ours }

  /** A core of ours that no manager holds. */
  ghost predicate Orphan(s: Core, p: Pid) { IsCore(s, p) && s.process != Some(p) }

  ghost predicate NoOrphan(s: Core) { forall p :: !Orphan(s, p) }

  /**
   * The manager's invariant: a held process implies guard, start time and a pidfile naming it, and
   * any other live core is one a pidfile names and whose executable is still the managed one.
   */
  ghost predicate Tracked(s: Core) {
    && (s.process.Some? ==> s.guard && s.started && s.pidfile == Some(Record(s.process.value, s.binary)))
    && (s.process.Some? && s.process.value in s.live ==> s.live[s.process.value].ours)
    && (forall p :: Orphan(s, p) ==>
          s.process.None? && s.pidfile.Some? && s.pidfile.value.Record? && s.pidfile.value.pid == p
          && s.live[p].exe == s.binary)
  }

  /** Every kill was of a core of ours, or of a process running the managed executable. */
  ghost predicate KillsJustified(s: Core) {
    forall k :: k in s.kills ==> k.ours || k.exe == s.binary
  }

  /** The kernel hands out process numbers that are free; a child not yet waited for keeps its number. */
  predicate FreePid(s: Core, pid: Pid) { pid !in s.live && s.process != Some(pid) }

  /** The system calls of a start that cannot be undone do their work. */
  predicate CleanStart(s: Core, io: StartIo) {
    io.killed && !io.waitFails && io.pidfileWritten && FreePid(s, io.pid)
  }

  /** New processes get free numbers; nothing else is asked of an action. */
  predicate Lawful(s: Core, a: Action) {
    match a
    case DoStart(_, io) => io.pid !in ReapStale(s, io.killed).live
    case DoRestart(_, io) => io.pid !in Stop(s).live
    case Other(pid, _) => FreePid(s, pid)
    case _ => true
  }

  /** When a start keeps track: an orphan is killed, and a core that comes up is held and recorded. */
  ghost predicate StartGuard(s: Core, io: StartIo) {
    s.present && s.process.None? && io.written ==>
      && (NoOrphan(s) || io.killed)
      && (io.spawned && !io.exits ==> !io.waitFails && io.pidfileWritten)
  }

  /** When an action keeps the invariant; `StepKeeps` shows that each guard is exact. */
  ghost predicate Guarded(s: Core, a: Action) {
    match a
    case DoStart(_, io) => StartGuard(s, io)
    case DoStop => NoOrphan(s)
    case DoRestart(_, io) => NoOrphan(s) && StartGuard(Stop(s), io)
    case DoReload(_, _, _) => true
    case DoPoll(waitFails) => !(waitFails && s.process.Some? && s.process.value in s.live)
    case Exit(_) => true
    case Other(_, _) => true
    case Replace(elsewhere, _) => NoOrphan(s) || elsewhere == s.binary
    case Crash(survives) =>
      survives && s.process.Some? && s.process.value in s.live ==> s.live[s.process.value].exe == s.binary
  }

  function Run(s: Core, actions: seq<Action>): Core {
    if actions == [] then s else Step(Run(s, actions[..|actions| - 1]), actions[|actions| - 1])
  }

  /** At most one core is ever alive. */
  lemma AtMostOneCore(s: Core, p: Pid, q: Pid)
    requires Tracked(s) && IsCore(s, p) && IsCore(s, q)
    ensures p == q
  {
    assert s.process == Some(p) || Orphan(s, p);
    assert s.process == Some(q) || Orphan(s, q);
  }

  /** A successful start leaves exactly the new core alive, also after a crash that left an orphan. */
  lemma StartLeavesOneCore(s: Core, config: string, io: StartIo)
    requires Tracked(s) && CleanStart(s, io)
    ensures Tracked(Start(s, config, io).1)
    ensures var (ok, s') := Start(s, config, io);
      ok ==> s'.process == Some(io.pid) && NoOrphan(s') && IsCore(s', io.pid) && s'.live[io.pid].config == config
  {
    var s1 := ReapStale(s.(configFile := Some(config)), io.killed);
    if s.process.None? {
      forall p
        ensures !IsCore(s1, p)
      {
        assert IsCore(s, p) ==> Orphan(s, p);
      }
    }
  }

  /** The system calls of a start that decide whether it succeeds. */
  predicate ComesUp(io: StartIo) { io.written && io.spawned && !io.exits && !io.waitFails }

  /** Exactly when a start succeeds, and what it leaves: a live child of the managed executable, held and recorded. */
  lemma StartSucceedsExactly(s: Core, config: string, io: StartIo)
    ensures var (ok, s') := Start(s, config, io);
      && (ok <==> s.present && s.process.None? && ComesUp(io))
      && (ok ==>
            && s'.process == Some(io.pid) && s'.guard && s'.started && s'.configFile == Some(config)
            && io.pid in s'.live && s'.live[io.pid] == Process(s.binary, config, true)
            && (io.pidfileWritten ==> s'.pidfile == Some(Record(io.pid, s.binary))))
      && (!ok ==> s'.process == s.process && s'.guard == s.guard && s'.started == s.started)
      && (!s.present || s.process.Some? || !io.written ==> s' == s)
  {
  }

  lemma StopLeavesNone(s: Core)
    requires Tracked(s) && NoOrphan(s)
    ensures Tracked(Stop(s)) && NoOrphan(Stop(s)) && Stop(s).process.None?
    ensures forall p :: !IsCore(Stop(s), p)
  {
    forall p
      ensures !IsCore(Stop(s), p)
    {
      assert !Orphan(s, p);
    }
  }

  /** A stop kills the held child and nothing else, and forgets everything about it. */
  lemma StopEffect(s: Core)
    ensures var s' := Stop(s);
      && s'.process.None? && !s'.guard && s'.pidfile.None?
      && (s.process.Some? ==> !s'.started && s'.live == s.live - {s.process.value})
      && (s.process.None? ==> s'.started == s.started && s'.live == s.live)
      && s'.configFile == s.configFile && s'.present == s.present
  {
  }

  /** A poll that finds the child gone forgets it, but for the start time; otherwise it changes nothing. */
  lemma PollEffect(s: Core, waitFails: bool)
    ensures var (running, s') := IsRunning(s, waitFails);
      && (running <==> s.process.Some? && s.process.value in s.live && !waitFails)
      && (running || s.process.None? ==> s' == s)
      && (!running && s.process.Some? ==>
            s' == s.(process := None, guard := false, pidfile := None) && s'.started == s.started)
  {
  }

  /** The reaper kills the process the pidfile names if its executable is the managed one, and only that. */
  lemma ReapEffect(s: Core, killed: bool)
    ensures var s' := ReapStale(s, killed);
      && s'.pidfile.None? && s' == s.(pidfile := None, live := s'.live, kills := s'.kills)
      && (forall p :: p in s.live && !(s.pidfile.Some? && s.pidfile.value.Record? && s.pidfile.value.pid == p) ==>
            p in s'.live && s'.live[p] == s.live[p])
      && (s.pidfile.Some? && s.pidfile.value.Record? && s.pidfile.value.pid in s.live ==>
            var p := s.pidfile.value.pid;
            (p !in s'.live <==> s.live[p].exe == s.binary && killed) && (p in s'.live ==> s'.live[p] == s.live[p]))
      && s'.live.Keys <= s.live.Keys
  {
  }

  /** Stopping keeps track of every core if and only if there is no orphan: it always forgets the pidfile. */
  lemma StopKeepsTrack(s: Core)
    requires Tracked(s)
    ensures Tracked(Stop(s)) <==> NoOrphan(s)
  {
    if NoOrphan(s) {
      StopLeavesNone(s);
    } else {
      var p :| Orphan(s, p);
      assert Orphan(Stop(s), p);
    }
  }

  /** So a restart after a crash is clean if and only if the crash left no orphan; otherwise two cores are alive. */
  lemma RestartLeavesOneCore(s: Core, config: string, io: StartIo)
    requires Tracked(s) && CleanStart(s, io) && Restart(s, config, io).0
    ensures NoOrphan(Restart(s, config, io).1) <==> NoOrphan(s)
    ensures IsCore(Restart(s, config, io).1, io.pid)
  {
    if NoOrphan(s) {
      StopLeavesNone(s);
      StartLeavesOneCore(Stop(s), config, io);
    } else {
      var p :| Orphan(s, p);
      assert Orphan(Stop(s), p);
      assert Orphan(Restart(s, config, io).1, p);
    }
  }

  /** From an empty machine, a start, a death of the agent that its core survives, and a restart: two cores. */
  lemma TwoCoresExample()
    ensures var empty := Core("core", true, map[], None, None, None, false, false, []);
      var first := StartIo(true, true, true, 1, false, false, true);
      var second := StartIo(true, true, true, 2, false, false, true);
      var end := Run(empty, [DoStart("a", first), Crash(true), DoRestart("b", second)]);
      Tracked(empty) && IsCore(end, 1) && IsCore(end, 2)
  {
    var empty := Core("core", true, map[], None, None, None, false, false, []);
    var first := StartIo(true, true, true, 1, false, false, true);
    var second := StartIo(true, true, true, 2, false, false, true);
    var all := [DoStart("a", first), Crash(true), DoRestart("b", second)];
    assert all[..2] == [DoStart("a", first), Crash(true)] && all[..2][..1] == [DoStart("a", first)];
    assert all[..2][..1][..0] == [];
    var up := Step(empty, DoStart("a", first));
    assert Run(empty, [DoStart("a", first)]) == up && up.live == map[1 := Process("core", "a", true)];
    var orphaned := Step(up, Crash(true));
    assert Run(empty, all[..2]) == orphaned && orphaned.live == up.live && orphaned.process.None?;
    assert Run(empty, all) == Step(orphaned, DoRestart("b", second));
    hide Run;
  }

  /** The reaper leaves a core alive only if it is an orphan it could not kill, and the pidfile is gone. */
  lemma ReapLeaves(s: Core, config: string, killed: bool)
    requires Tracked(s) && s.process.None?
    ensures var s1 := ReapStale(s.(configFile := Some(config)), killed);
      && s1.pidfile.None? && s1.process.None? && s1.live == ReapStale(s, killed).live && s1.binary == s.binary
      && (forall p :: IsCore(s1, p) <==> Orphan(s, p) && !killed)
  {
    var s1 := ReapStale(s.(configFile := Some(config)), killed);
    forall p
      ensures IsCore(s1, p) <==> Orphan(s, p) && !killed
    {
      assert IsCore(s, p) <==> Orphan(s, p);
    }
  }

  /** Whether a start keeps track of every core, whatever its system calls do. */
  lemma StartKeepsTrack(s: Core, config: string, io: StartIo)
    requires Tracked(s) && io.pid !in ReapStale(s, io.killed).live
    ensures Tracked(Start(s, config, io).1) <==> StartGuard(s, io)
  {
    if s.present && s.process.None? && io.written {
      ReapLeaves(s, config, io.killed);
      var s1, after := ReapStale(s.(configFile := Some(config)), io.killed), Start(s, config, io).1;
      var up := io.spawned && !io.exits;
      hide ReapStale;
      forall p: Pid
        ensures IsCore(after, p) <==> IsCore(s1, p) || (up && p == io.pid)
      {
      }
      if !NoOrphan(s) && !io.killed {
        var p :| Orphan(s, p);
        assert IsCore(s1, p) && Orphan(after, p);
      } else {
        assert up && io.waitFails ==> Orphan(after, io.pid);
      }
    }
  }

  /** An error of `try_wait` in a poll loses the core if and only if it is alive; in a start, if it comes up. */
  lemma WaitErrorLosesTheCore(s: Core, config: string, io: StartIo, waitFails: bool)
    requires Tracked(s)
    ensures Tracked(IsRunning(s, waitFails).1) <==>
      !(waitFails && s.process.Some? && s.process.value in s.live)
    ensures s.process.Some? && s.process.value in s.live && waitFails ==>
      Orphan(IsRunning(s, waitFails).1, s.process.value)
    ensures io.waitFails && io.pid !in ReapStale(s, io.killed).live && (NoOrphan(s) || io.killed) ==>
      (Tracked(Start(s, config, io).1) <==>
       !(s.present && s.process.None? && io.written && io.spawned && !io.exits))
  {
    var polled := IsRunning(s, waitFails).1;
    forall p: Pid
      ensures IsCore(polled, p) <==> IsCore(s, p)
    {
    }
    if s.process.Some? && s.process.value in s.live && waitFails {
      assert Orphan(polled, s.process.value) && polled.pidfile.None?;
    } else {
      assert forall p: Pid :: Orphan(polled, p) ==> Orphan(s, p);
    }
    if io.pid !in ReapStale(s, io.killed).live {
      StartKeepsTrack(s, config, io);
    }
    hide Start, ReapStale, Tracked;
  }

  /** A stop with an orphan about loses it for good: no start repairs that. */
  lemma RestartKeepsTrack(s: Core, config: string, io: StartIo)
    requires Tracked(s) && io.pid !in Stop(s).live
    ensures Tracked(Restart(s, config, io).1) <==> NoOrphan(s) && StartGuard(Stop(s), io)
  {
    if NoOrphan(s) {
      StopLeavesNone(s);
      assert ReapStale(Stop(s), io.killed) == Stop(s);
      StartKeepsTrack(Stop(s), config, io);
    } else {
      var p :| Orphan(s, p);
      assert Orphan(Stop(s), p) && Stop(s).pidfile.None?;
      assert Orphan(Restart(s, config, io).1, p);
      assert Restart(s, config, io).1.pidfile.Some? ==> Restart(s, config, io).1.process.Some?;
    }
  }

  lemma ReloadKeeps(s: Core, config: string, written: bool, accepted: bool)
    requires Tracked(s)
    ensures var (ok, s') := Reload(s, config, written, accepted);
      && Tracked(s')
      && (forall p :: IsCore(s', p) <==> IsCore(s, p))
      && (forall p :: IsCore(s', p) ==> s'.live[p].config == if ok then config else s.live[p].config)
  {
    var s' := Reload(s, config, written, accepted).1;
    forall p: Pid | Orphan(s', p)
      ensures Orphan(s, p)
    {
    }
  }

  /** A reload writes the config file first, and succeeds exactly when the core accepts it. */
  lemma ReloadEffect(s: Core, config: string, written: bool, accepted: bool)
    ensures var (ok, s') := Reload(s, config, written, accepted);
      && (ok <==> written && accepted)
      && s'.configFile == (if written then Some(config) else s.configFile)
      && s' == s.(configFile := s'.configFile, live := s'.live) && s'.live.Keys == s.live.Keys
      && (forall p :: p in s.live && !s.live[p].ours ==> s'.live[p] == s.live[p])
  {
  }

  /** The guards are exact: an action keeps the invariant if and only if its guard holds. */
  lemma StepKeeps(s: Core, a: Action)
    requires Tracked(s) && Lawful(s, a)
    ensures Tracked(Step(s, a)) <==> Guarded(s, a)
  {
    hide Start, Stop, ReapStale, StartGuard, Reload, IsRunning, Tracked, NoOrphan;
    match a {
      case DoStart(config, io) =>
        StartKeepsTrack(s, config, io);
      case DoStop =>
        StopKeepsTrack(s);
      case DoRestart(config, io) =>
        RestartKeepsTrack(s, config, io);
      case DoReload(config, written, accepted) =>
        ReloadKeeps(s, config, written, accepted);
      case DoPoll(waitFails) =>
        PollKeepsTrack(s, waitFails);
      case _ =>
        WorldKeeps(s, a);
    }
  }

  /** What the rest of the machine does, and the death of the agent. */
  lemma WorldKeeps(s: Core, a: Action)
    requires Tracked(s) && Lawful(s, a) && (a.Exit? || a.Other? || a.Replace? || a.Crash?)
    ensures Tracked(Step(s, a)) <==> Guarded(s, a)
  {
    var after := Step(s, a);
    forall p: Pid | Orphan(after, p)
      ensures Orphan(s, p) || (a.Crash? && a.survives && s.process == Some(p))
    {
    }
    if a.Replace? && !NoOrphan(s) {
      var p :| Orphan(s, p);
      assert Orphan(after, p) && after.live[p].exe == a.elsewhere;
    } else if a.Crash? && !Guarded(s, a) {
      assert Orphan(after, s.process.value);
    }
  }

  lemma PollKeepsTrack(s: Core, waitFails: bool)
    requires Tracked(s)
    ensures Tracked(IsRunning(s, waitFails).1) <==> Guarded(s, DoPoll(waitFails))
  {
    WaitErrorLosesTheCore(s, "", StartIo(false, false, false, 0, false, false, false), waitFails);
  }

  lemma PollKeeps(s: Core)
    requires Tracked(s)
    ensures Tracked(IsRunning(s, false).1)
    ensures IsRunning(s, false).0 <==> s.process.Some? && s.process.value in s.live
  {
    PollKeepsTrack(s, false);
  }

  ghost predicate HeldIsOurs(s: Core) {
    s.process.Some? && s.process.value in s.live ==> s.live[s.process.value].ours
  }

  lemma StartKills(s: Core, config: string, io: StartIo)
    requires HeldIsOurs(s)
    ensures var after := Start(s, config, io).1;
      && HeldIsOurs(after) && after.binary == s.binary
      && (after.kills == s.kills || exists k :: after.kills == s.kills + [k] && k.exe == s.binary)
  {
  }

  lemma StopKills(s: Core)
    requires HeldIsOurs(s)
    ensures Stop(s).binary == s.binary && HeldIsOurs(Stop(s))
    ensures Stop(s).kills == s.kills || exists k :: Stop(s).kills == s.kills + [k] && k.ours
  {
  }

  /** No action kills anything but a core of ours or a process of the managed executable, guarded or not. */
  lemma KillsStayJustified(s: Core, a: Action)
    requires HeldIsOurs(s) && KillsJustified(s) && (a.Other? ==> FreePid(s, a.pid))
    ensures HeldIsOurs(Step(s, a)) && KillsJustified(Step(s, a)) && s.kills <= Step(s, a).kills
  {
    StopKills(s);
    if a.DoStart? || a.DoRestart? {
      StartKills(s, a.config, a.io);
      StartKills(Stop(s), a.config, a.io);
    }
    hide Start, Stop;
  }

  /**
   * Over every run at all, orphans, failing system calls and swapped binaries included, nothing is
   * killed but cores of ours and processes running the managed executable.
   */
  lemma {:induction false} NothingElseIsKilled(s: Core, actions: seq<Action>)
    requires HeldIsOurs(s) && KillsJustified(s)
    requires forall i :: 0 <= i < |actions| && actions[i].Other? ==> FreePid(Run(s, actions[..i]), actions[i].pid)
    ensures HeldIsOurs(Run(s, actions)) && KillsJustified(Run(s, actions))
    ensures s.kills <= Run(s, actions).kills
  {
    hide HeldIsOurs, KillsJustified, Step;
    if actions != [] {
      var front := actions[..|actions| - 1];
      forall i | 0 <= i < |front| && front[i].Other?
        ensures FreePid(Run(s, front[..i]), front[i].pid)
      {
        assert front[..i] == actions[..i] && front[i] == actions[i];
      }
      NothingElseIsKilled(s, front);
      assert actions[..|front|] == front;
      KillsStayJustified(Run(s, front), actions[|actions| - 1]);
    }
  }

  /** A process that a call of the manager ends was a core of ours or ran the managed executable, and is on record. */
  lemma EveryDeathIsAKill(s: Core, a: Action, p: Pid)
    requires HeldIsOurs(s) && (a.DoStart? || a.DoStop? || a.DoRestart? || a.DoReload? || a.DoPoll?)
    requires p in s.live && p !in Step(s, a).live
    ensures (s.live[p].ours || s.live[p].exe == s.binary) && s.live[p] in Step(s, a).kills
  {
    if a.DoStart? {
      StartDeaths(s, a.config, a.io, p);
    } else if a.DoRestart? {
      StartDeaths(Stop(s), a.config, a.io, p);
      StopDeaths(s, p);
    } else if a.DoStop? {
      StopDeaths(s, p);
    }
    hide Start, Stop;
  }

  lemma StopDeaths(s: Core, p: Pid)
    requires HeldIsOurs(s) && p in s.live && p !in Stop(s).live
    ensures s.live[p].ours && s.live[p] in Stop(s).kills
  {
  }

  lemma StartDeaths(s: Core, config: string, io: StartIo, p: Pid)
    ensures var s' := Start(s, config, io).1;
      && s.kills <= s'.kills
      && (p in s.live && p !in s'.live ==> s.live[p].exe == s.binary && s.live[p] in s'.kills)
  {
  }

  /** What one action does; the agent that comes back after a crash holds nothing. */
  ghost predicate Does(before: Core, a: Action, after: Core) {
    match a
    case DoStart(config, io) => after == Start(before, config, io).1
    case DoStop => after == Stop(before)
    case DoRestart(config, io) => after == Restart(before, config, io).1
    case DoReload(config, written, accepted) => after == Reload(before, config, written, accepted).1
    case DoPoll(waitFails) => after == IsRunning(before, waitFails).1
    case Exit(pid) => after == before.(live := before.live - {pid})
    case Other(pid, exe) => after == before.(live := before.live[pid := Process(exe, "", false)])
    case Replace(elsewhere, present) =>
      && after == before.(present := present, live := after.live) && after.live.Keys == before.live.Keys
      && forall p :: p in before.live ==>
        after.live[p] == before.live[p].(
          exe := if before.live[p].exe == before.binary then elsewhere else before.live[p].exe)
    case Crash(survives) =>
      && after == before.(process := None, guard := false, started := false, live := after.live)
      && after.live ==
        if before.process.Some? && !survives then before.live - {before.process.value} else before.live
  }

  /** A run is its actions one after another. */
  lemma RunIsItsActions(s: Core, actions: seq<Action>, a: Action)
    ensures Run(s, []) == s && Does(Run(s, actions), a, Run(s, actions + [a]))
  {
    assert (actions + [a])[..|actions|] == actions;
    hide Start, Stop, Restart, Reload, IsRunning;
  }

  ghost predicate AllLawful(s: Core, actions: seq<Action>) {
    forall i :: 0 <= i < |actions| ==> Lawful(Run(s, actions[..i]), actions[i])
  }

  ghost predicate AllGuarded(s: Core, actions: seq<Action>) {
    forall i :: 0 <= i < |actions| ==> Guarded(Run(s, actions[..i]), actions[i])
  }

  ghost predicate TrackedAt(s: Core, actions: seq<Action>, i: nat)
    requires i <= |actions|
  {
    Tracked(Run(s, actions[..i]))
  }

  /** One more action: the invariant holds before it, and after it if and only if its guard does. */
  lemma TrackedNext(s: Core, actions: seq<Action>, i: nat)
    requires i < |actions| && AllLawful(s, actions) && TrackedAt(s, actions, i)
    ensures TrackedAt(s, actions, i + 1) <==> Guarded(Run(s, actions[..i]), actions[i])
  {
    hide Tracked, Guarded, Step, Lawful;
    assert Lawful(Run(s, actions[..i]), actions[i]);
    var next := actions[..i + 1];
    assert next[..|next| - 1] == actions[..i] && next[|next| - 1] == actions[i];
    StepKeeps(Run(s, actions[..i]), actions[i]);
  }

  lemma {:induction false} TrackedUpTo(s: Core, actions: seq<Action>, n: nat)
    requires n <= |actions| && Tracked(s) && AllLawful(s, actions)
    requires forall i :: 0 <= i < n ==> Guarded(Run(s, actions[..i]), actions[i])
    ensures TrackedAt(s, actions, n)
  {
    hide Tracked, Guarded, AllLawful;
    assert actions[..0] == [];
    if n > 0 {
      TrackedUpTo(s, actions, n - 1);
      TrackedNext(s, actions, n - 1);
    }
  }

  /** The invariant holds all through a run if and only if every action in it is guarded. */
  lemma TrackedThroughout(s: Core, actions: seq<Action>)
    requires Tracked(s) && AllLawful(s, actions)
    ensures (forall i :: 0 <= i <= |actions| ==> TrackedAt(s, actions, i)) <==> AllGuarded(s, actions)
  {
    hide Tracked, Guarded, AllLawful, TrackedAt;
    if AllGuarded(s, actions) {
      forall i | 0 <= i <= |actions|
        ensures TrackedAt(s, actions, i)
      {
        TrackedUpTo(s, actions, i);
      }
    }
    if forall i :: 0 <= i <= |actions| ==> TrackedAt(s, actions, i) {
      forall i | 0 <= i < |actions|
        ensures Guarded(Run(s, actions[..i]), actions[i])
      {
        assert TrackedAt(s, actions, i) && TrackedAt(s, actions, i + 1);
        TrackedNext(s, actions, i);
      }
    }
  }

  /** Over every guarded run there is at most one live core, and the manager knows it. */
  lemma RunKeeps(s: Core, actions: seq<Action>)
    requires Tracked(s) && AllLawful(s, actions) && AllGuarded(s, actions)
    ensures Tracked(Run(s, actions))
    ensures forall p, q :: IsCore(Run(s, actions), p) && IsCore(Run(s, actions), q) ==> p == q
  {
    TrackedThroughout(s, actions);
    assert TrackedAt(s, actions, |actions|) && actions[..|actions|] == actions;
    forall p, q | IsCore(Run(s, actions), p) && IsCore(Run(s, actions), q)
      ensures p == q
    {
      AtMostOneCore(Run(s, actions), p, q);
    }
  }

  /** An action under which the OS takes the child down with the agent leaves no orphan behind. */
  ghost predicate Bound(s: Core, a: Action) {
    && (a.Crash? ==> !a.survives)
    && (a.DoStart? || a.DoRestart? ==> CleanStart(s, a.io))
    && (a.DoPoll? ==> !a.waitFails)
    && (a.Other? ==> FreePid(s, a.pid))
  }

  /** The weaker invariant that suffices there: the executable of the held child no longer matters. */
  lemma BoundStepKeeps(s: Core, a: Action)
    requires Tracked(s) && NoOrphan(s) && Bound(s, a)
    ensures Tracked(Step(s, a)) && NoOrphan(Step(s, a))
  {
    match a {
      case DoStart(config, io) =>
        StartLeavesOneCore(s, config, io);
        if !Start(s, config, io).0 {
          FailedStartKeepsNoOrphan(s, config, io);
        }
      case DoStop =>
        StopLeavesNone(s);
      case DoRestart(config, io) =>
        StopLeavesNone(s);
        StartLeavesOneCore(Stop(s), config, io);
        if !Start(Stop(s), config, io).0 {
          FailedStartKeepsNoOrphan(Stop(s), config, io);
        }
      case DoReload(config, written, accepted) =>
        ReloadKeeps(s, config, written, accepted);
        assert forall p :: Orphan(Step(s, a), p) ==> Orphan(s, p);
      case DoPoll(waitFails) =>
        PollKeeps(s);
        assert forall p :: Orphan(Step(s, a), p) ==> Orphan(s, p);
      case Exit(pid) =>
        assert forall p :: Orphan(Step(s, a), p) ==> Orphan(s, p);
      case Other(pid, exe) =>
        assert forall p :: Orphan(Step(s, a), p) ==> Orphan(s, p);
      case Replace(elsewhere, present) =>
        assert forall p :: Orphan(Step(s, a), p) ==> Orphan(s, p);
      case Crash(survives) =>
        assert forall p :: Orphan(Step(s, a), p) ==> Orphan(s, p);
    }
  }

  lemma FailedStartKeepsNoOrphan(s: Core, config: string, io: StartIo)
    requires NoOrphan(s) && CleanStart(s, io) && !Start(s, config, io).0
    ensures NoOrphan(Start(s, config, io).1)
  {
    forall p
      ensures !Orphan(Start(s, config, io).1, p)
    {
      assert !Orphan(s, p);
    }
  }

  ghost predicate AllBound(s: Core, actions: seq<Action>) {
    forall i :: 0 <= i < |actions| ==> Bound(Run(s, actions[..i]), actions[i])
  }

  /**
   * Where the OS binds the child to the agent, every run keeps to one core, stops and restarts after
   * crashes included.
   */
  lemma {:induction false} BoundRunKeeps(s: Core, actions: seq<Action>)
    requires Tracked(s) && NoOrphan(s) && AllBound(s, actions)
    ensures Tracked(Run(s, actions)) && NoOrphan(Run(s, actions))
  {
    if actions != [] {
      var front := actions[..|actions| - 1];
      forall i | 0 <= i < |front|
        ensures Bound(Run(s, front[..i]), front[i])
      {
        assert front[..i] == actions[..i];
      }
      BoundRunKeeps(s, front);
      assert actions[..|front|] == front;
      BoundStepKeeps(Run(s, front), actions[|actions| - 1]);
    }
  }

  // ----- the manager

  /** The machine's processes and files, which outlive the agent. */
  class System {
    var live: map<Pid, Process>
    var pidfile: Option<PidFile>
    var configFile: Option<string>
    var present: bool
    var kills: seq<Process>

    constructor (s: Core)
      ensures live == s.live && pidfile == s.pidfile && configFile == s.configFile
      ensures present == s.present && kills == s.kills
    {
      live, pidfile, configFile, present, kills := s.live, s.pidfile, s.configFile, s.present, s.kills;
    }

    method Terminate(pid: Pid)
      requires pid in live
      modifies this`live, this`kills
      ensures live == old(live) - {pid} && kills == old(kills) + [old(live)[pid]]
    {
      kills := kills + [live[pid]];
      live := live - {pid};
    }
  }

  class Manager {
    const binary: string
    const system: System
    var process: Option<Pid>
    var guard: bool
    var started: bool

    constructor (binary: string, system: System)
      ensures this.binary == binary && this.system == system && process == None && !guard && !started
    {
      this.binary, this.system := binary, system;
      process, guard, started := None, false, false;
    }

    function State(): Core
      reads this, system
    {
      Core(
        binary, system.present, system.live, system.pidfile, system.configFile,
        process, guard, started, system.kills)
    }

    method Reap(killed: bool)
      modifies system
      ensures State() == ReapStale(old(State()), killed)
    {
      if system.pidfile.None? {
        return;
      }
      if system.pidfile.value.Record? {
        var pid := system.pidfile.value.pid;
        if pid in system.live && system.live[pid].exe == binary && killed {
          system.Terminate(pid);
        }
      }
      system.pidfile := None;
    }

    method StartCore(config: string, io: StartIo) returns (ok: bool)
      modifies this, system
      ensures (ok, State()) == Start(old(State()), config, io)
    {
      if !system.present || process.Some? || !io.written {
        return false;
      }
      system.configFile := Some(config);
      Reap(io.killed);
      if !io.spawned || io.exits {
        return false;
      }
      system.live := system.live[io.pid := Process(binary, config, true)];
      if io.waitFails {
        return false;
      }
      if io.pidfileWritten {
        system.pidfile := Some(Record(io.pid, binary));
      }
      guard := true;
      process := Some(io.pid);
      started := true;
      return true;
    }

    method StopCore()
      modifies this, system
      ensures State() == Stop(old(State()))
    {
      if process.Some? {
        var pid := process.value;
        process := None;
        if pid in system.live {
          system.Terminate(pid);
        }
        started := false;
      }
      guard := false;
      system.pidfile := None;
      assert State().live == Stop(old(State())).live;
    }

    method RestartCore(config: string, io: StartIo) returns (ok: bool)
      modifies this, system
      ensures (ok, State()) == Restart(old(State()), config, io)
    {
      StopCore();
      ok := StartCore(config, io);
    }

    method ReloadCore(config: string, written: bool, accepted: bool) returns (ok: bool)
      modifies system
      ensures (ok, State()) == Reload(old(State()), config, written, accepted)
    {
      if !written {
        return false;
      }
      system.configFile := Some(config);
      if !accepted {
        return false;
      }
      system.live := map p | p in system.live ::
        if system.live[p].ours then system.live[p].(config := config) else system.live[p];
      return true;
    }

    method Poll(waitFails: bool) returns (running: bool)
      modifies this, system
      ensures (running, State()) == IsRunning(old(State()), waitFails)
    {
      if process.None? {
        return false;
      }
      if process.value in system.live && !waitFails {
        return true;
      }
      process := None;
      guard := false;
      system.pidfile := None;
      return false;
    }
  }
}
