/** Runs of upgrades and rollbacks of all components on one machine. */
module UpgradeRuns {
  import opened Prelude
  import opened FileTree
  import opened Backups
  import opened Upgrade
  import opened UpgradeTheorems
  import opened RollbackTheorems

  /** A backup that only component `d` reads. */
  predicate BackupOf(d: Component, n: string) {
    IsBackupOf(n, d.Binary()) || (d.WithWeb() && IsBackupOf(n, WEB_DIST))
  }

  /** Everything that belongs to component `d` is the same on both machines. */
  ghost predicate SameFor(d: Component, a: Machine, b: Machine) {
    && Get(a.binaries, d) == Get(b.binaries, d)
    && (d in a.active <==> d in b.active)
    && (d.WithWeb() ==> a.web == b.web)
    && (forall n :: BackupOf(d, n) ==> Get(a.backups, n) == Get(b.backups, n))
  }

  lemma BackupsHaveOneOwner(c: Component, d: Component, n: string)
    requires c != d && BackupOf(d, n)
    ensures !BackupOf(c, n)
  {
    NamesHaveNoDots(c);
    NamesHaveNoDots(d);
    assert |Hub.Binary()| == 15 && |Agent.Binary()| == 17 && |Cli.Binary()| == 11;
    assert c.Binary() != d.Binary();
    forall a, b | a in {c.Binary(), WEB_DIST} && b in {d.Binary(), WEB_DIST} && a != b
      ensures !(IsBackupOf(n, a) && IsBackupOf(n, b))
    {
      if IsBackupOf(n, a) && IsBackupOf(n, b) {
        OneOwner(n, a, b);
      }
    }
  }

  lemma UpgradeTouchesOwnBackups(w: World, c: Component, h: Site, io: UpgradeIo, n: string)
    requires !BackupOf(c, n)
    ensures Get(UpgradeCommand(w, c, h, io).0.backups, n) == Get(h.backups, n)
  {
    hide UpgradeCommand, BackUpBoth, Pruned;
    var b := BackUpBoth(c, h, Before(w, h, io), io).backups;
    UpgradeBackups(w, c, h, io);
    BackUpTouchesOwn(c, h, Before(w, h, io), io, n);
    PruneKeepsOthers(b, io.pruneBinary.listing, c.Binary(), io.pruneBinary.stuck, n);
    if c.WithWeb() {
      var b2 := Pruned(b, io.pruneBinary.listing, c.Binary(), io.pruneBinary.stuck);
      PruneKeepsOthers(b2, io.pruneWeb.listing, WEB_DIST, io.pruneWeb.stuck, n);
    }
  }

  lemma BackUpTouchesOwn(c: Component, h: Site, current: Query, io: UpgradeIo, n: string)
    requires !BackupOf(c, n)
    ensures Get(BackUpBoth(c, h, current, io).backups, n) == Get(h.backups, n)
  {
    hide BackupExisting;
    BackupNameMatches(c.Binary(), Label(current, io));
    BackupNameMatches(WEB_DIST, Label(current, io));
    BackupFacts(h.backups, h.binary, BinaryBackup(c, current, io), io.now, io.backupBinary);
    var b1 := BackupExisting(h.backups, h.binary, BinaryBackup(c, current, io), io.now, io.backupBinary).1;
    BackupFacts(b1, h.web, WebBackup(current, io), io.now, io.backupWeb);
  }

  /** What a component sees after a command of its own is what the command leaves. */
  lemma StepIsCommand(w: World, m: Machine, c: Component, up: UpgradeIo, back: RollbackIo)
    ensures Step(w, m, UpgradeOp(c, up)).View(c) == UpgradeCommand(w, c, m.View(c), up).0
    ensures Step(w, m, RollbackOp(c, back)).View(c) == RollbackCommand(c, m.View(c), back).1
  {
    hide UpgradeCommand, RollbackCommand;
  }

  /** A run is its commands one after another. */
  lemma RunIsItsCommands(w: World, m: Machine, ops: seq<Op>, op: Op)
    ensures Run(w, m, []) == m
    ensures op.UpgradeOp? ==>
      Run(w, m, ops + [op]).View(op.c) == UpgradeCommand(w, op.c, Run(w, m, ops).View(op.c), op.up).0
    ensures op.RollbackOp? ==>
      Run(w, m, ops + [op]).View(op.c) == RollbackCommand(op.c, Run(w, m, ops).View(op.c), op.back).1
  {
    assert (ops + [op])[..|ops|] == ops;
    hide UpgradeCommand, RollbackCommand;
  }

  lemma StepSparesOthers(w: World, m: Machine, op: Op, d: Component)
    requires op.c != d
    ensures SameFor(d, Step(w, m, op), m)
  {
    hide UpgradeCommand, RollbackCommand, BackUpBoth, PruneAfter;
    var c, h := op.c, m.View(op.c);
    match op {
      case UpgradeOp(_, io) =>
        UpgradeBackups(w, c, h, io);
        forall n | BackupOf(d, n)
          ensures Get(Step(w, m, op).backups, n) == Get(m.backups, n)
        {
          BackupsHaveOneOwner(c, d, n);
          UpgradeTouchesOwnBackups(w, c, h, io, n);
        }
      case RollbackOp(_, io) =>
        RollbackFacts(c, h, io);
    }
  }

  /**
   * However many upgrades and rollbacks of other components run, in any order and failing in any
   * way, a component keeps its binary, its web console, its service and every one of its backups.
   */
  lemma {:induction false} RunSparesOthers(w: World, m: Machine, ops: seq<Op>, d: Component)
    requires forall op :: op in ops ==> op.c != d
    ensures SameFor(d, Run(w, m, ops), m)
  {
    if ops != [] {
      var front := ops[..|ops| - 1];
      RunSparesOthers(w, m, front, d);
      StepSparesOthers(w, Run(w, m, front), ops[|ops| - 1], d);
    }
  }

  /** The version a live binary is known to have. */
  function KnownRank(w: World, m: Machine, c: Component): Option<real> {
    if c in m.binaries && VersionOf(w, m.binaries[c]).Some? then w.rank(VersionOf(w, m.binaries[c]).value) else None
  }

  /** Every op is an upgrade, and no recovery fails. */
  ghost predicate RecoverableUpgrades(w: World, m: Machine, ops: seq<Op>) {
    forall i :: 0 <= i < |ops| ==>
      ops[i].UpgradeOp? && !RecoveryLost(w, ops[i].c, Run(w, m, ops[..i]).View(ops[i].c), ops[i].up)
  }

  /** Over any run of upgrades whose recoveries work, no component's known version is ever lowered. */
  lemma {:induction false} VersionsNeverLowered(w: World, m: Machine, ops: seq<Op>, c: Component)
    requires RecoverableUpgrades(w, m, ops) && KnownRank(w, m, c).Some?
    ensures KnownRank(w, Run(w, m, ops), c).Some?
    ensures KnownRank(w, m, c).value <= KnownRank(w, Run(w, m, ops), c).value
  {
    hide UpgradeCommand, RollbackCommand, VersionOf, RecoveryLost;
    if ops != [] {
      var front, op := ops[..|ops| - 1], ops[|ops| - 1];
      forall i | 0 <= i < |front|
        ensures front[..i] == ops[..i]
      {
      }
      VersionsNeverLowered(w, m, front, c);
      var before := Run(w, m, front);
      if op.c == c {
        NeverLowered(w, c, before.View(c), op.up);
      } else {
        StepSparesOthers(w, before, op, c);
        assert Get(Step(w, before, op).binaries, c) == Get(before.binaries, c);
      }
    }
  }

  // ----- a stale label, concretely

  const EXAMPLE_WORLD := World(
    (bytes: string) => if bytes == "old" then Some("1.0.0") else None,
    (v: string) => if v == "1.0.0" then Some(1.0) else if v == "2.0.0" then Some(2.0) else None)

  /** The console's backup directory still holds a file of an earlier upgrade from the same version. */
  const STALE_SITE := Site(
    Some(File("old")), Some(Dir(map["index.html" := File("old")])),
    map[BackupName(WEB_DIST, "1.0.0") := Backup(Dir(map["gone.js" := File("older")]), 0)], false, None)

  const CLEAN_COPY := CopyIo(false, false, None)
  const CLEAN_REMOVE := RemoveIo(false, None)
  const CLEAN_SERVICE := ServiceIo(true, true, true)

  /** Everything works, except that the new binary cannot be moved into place. */
  const MOVE_FAILS := UpgradeIo(
    false, Writes(true, true, true, true, true, true, true), Some("2.0.0"), true, Some(Release("new", map[])),
    true, "", 1, CLEAN_COPY, CLEAN_COPY, true, true,
    ReplaceIo(false, false, true, CLEAN_REMOVE, true, CLEAN_COPY, true, CLEAN_SERVICE),
    RecoverIo(CLEAN_REMOVE, CLEAN_COPY, CLEAN_REMOVE, CLEAN_COPY, CLEAN_SERVICE),
    PruneIo([], map[]), PruneIo([], map[]))

  /** The upgrade reports that it rolled back, yet the console is not the one from before. */
  lemma StaleLabelExample()
    ensures var (post, e) := UpgradeCommand(EXAMPLE_WORLD, Hub, STALE_SITE, MOVE_FAILS);
      Report(e) == RolledBack && post.web != STALE_SITE.web
  {
    hide UpgradeCommand;
    var stale, live := Dir(map["gone.js" := File("older")]), STALE_SITE.web.value;
    var current := Before(EXAMPLE_WORLD, STALE_SITE, MOVE_FAILS);
    assert current == Known("1.0.0");
    assert WebBackup(current, MOVE_FAILS) == BackupName(WEB_DIST, "1.0.0");
    BackupNamesDiffer(Hub, current, MOVE_FAILS);
    assert Stored(STALE_SITE.backups, Some(WebBackup(current, MOVE_FAILS))) == Some(stale);
    assert Overlay(live, Some(stale)).Some?;
    SucceedsOrRollsBack(EXAMPLE_WORLD, Hub, STALE_SITE, MOVE_FAILS);
    var p := ["gone.js"];
    assert p[1..] == [];
    assert At(Some(stale), p) == Some(Leaf("older"));
    assert At(Some(live), p).None?;
    assert !Covered(stale, live);
    UpgradeIsTruthful(EXAMPLE_WORLD, Hub, STALE_SITE, MOVE_FAILS);
  }

  // ----- failing status writes and backup copies, concretely

  /** An agent at version 1.0.0, running, with nothing backed up yet. */
  const AGENT_SITE := Site(Some(File("old")), None, map[], true, None)

  /** Everything works except, as the arguments say, two of the status writes and the backup copy. */
  function ExampleUpgrade(replacing: bool, completed: bool, backup: CopyIo): UpgradeIo {
    UpgradeIo(
      true, Writes(true, true, true, replacing, true, completed, true), Some("2.0.0"), true,
      Some(Release("new", map[])), true, "", 1, backup, CLEAN_COPY, true, true,
      ReplaceIo(true, true, true, CLEAN_REMOVE, true, CLEAN_COPY, true, CLEAN_SERVICE),
      RecoverIo(CLEAN_REMOVE, CLEAN_COPY, CLEAN_REMOVE, CLEAN_COPY, CLEAN_SERVICE),
      PruneIo([], map[]), PruneIo([], map[]))
  }

  const NEW_WORLD := World(
    (bytes: string) => if bytes == "old" then Some("1.0.0") else if bytes == "new" then Some("2.0.0") else None,
    EXAMPLE_WORLD.rank)

  lemma ExampleGetsGoing(io: UpgradeIo)
    requires exists replacing, completed, backup :: io == ExampleUpgrade(replacing, completed, backup)
    ensures ReachesBackups(NEW_WORLD, AGENT_SITE, io)
    ensures !io.backupBinary.fails ==> Underway(NEW_WORLD, Agent, AGENT_SITE, io)
    ensures Replaces(NEW_WORLD, Agent, AGENT_SITE, io)
  {
    assert Before(NEW_WORLD, AGENT_SITE, io) == Known("1.0.0");
    assert Stored(AGENT_SITE.backups, Some(BinaryBackup(Agent, Known("1.0.0"), io))) == None;
    assert Overlay(File("old"), None) == Some(File("old"));
    hide BinaryBackup, Overlay;
  }

  /** The upgrade fails with nothing replaced, and the service that was running stays stopped. */
  lemma StoppedServiceExample()
    ensures var (post, e) := UpgradeCommand(NEW_WORLD, Agent, AGENT_SITE, ExampleUpgrade(false, true, CLEAN_COPY));
      Report(e) == Failed && post.binary == AGENT_SITE.binary && AGENT_SITE.active && !post.active
  {
    var io := ExampleUpgrade(false, true, CLEAN_COPY);
    ExampleGetsGoing(io);
    UpgradeIsTruthful(NEW_WORLD, Agent, AGENT_SITE, io);
    hide UpgradeCommand, Underway, Recovers;
  }

  /** The upgrade is reported as failed although the new version is live and running. */
  lemma LostReportExample()
    ensures var (post, e) := UpgradeCommand(NEW_WORLD, Agent, AGENT_SITE, ExampleUpgrade(true, false, CLEAN_COPY));
      Report(e) == Failed && post.binary == Some(File("new")) && post.active
  {
    var io := ExampleUpgrade(true, false, CLEAN_COPY);
    ExampleGetsGoing(io);
    UpgradeIsTruthful(NEW_WORLD, Agent, AGENT_SITE, io);
    hide UpgradeCommand, Underway, Recovers;
  }

  /** A backup copy breaks off; the upgrade leaves the binary alone, but the next rollback installs the fragment. */
  lemma SpoiledRollbackExample()
    ensures var io := ExampleUpgrade(true, true, CopyIo(true, true, Some(File("ol"))));
      var name := BackupName(Agent.Binary(), "1.0.0");
      var back := RollbackIo(
        Some([name]), None, true, true, CLEAN_REMOVE, CLEAN_COPY, CLEAN_REMOVE, CLEAN_COPY, CLEAN_SERVICE);
      var mid := UpgradeCommand(NEW_WORLD, Agent, AGENT_SITE, io).0;
      mid.binary == AGENT_SITE.binary &&
      RollbackCommand(Agent, mid, back).0 && RollbackCommand(Agent, mid, back).1.binary == Some(File("ol"))
  {
    var io := ExampleUpgrade(true, true, CopyIo(true, true, Some(File("ol"))));
    var name := BackupName(Agent.Binary(), "1.0.0");
    var back := RollbackIo(
      Some([name]), None, true, true, CLEAN_REMOVE, CLEAN_COPY, CLEAN_REMOVE, CLEAN_COPY, CLEAN_SERVICE);
    ExampleGetsGoing(io);
    assert BinaryBackup(Agent, Before(NEW_WORLD, AGENT_SITE, io), io) == name;
    AbortedBackups(NEW_WORLD, Agent, AGENT_SITE, io);
    FailedBackUpFacts(NEW_WORLD, Agent, AGENT_SITE, io);
    var mid := UpgradeCommand(NEW_WORLD, Agent, AGENT_SITE, io).0;
    assert mid.backups == map[name := Backup(File("ol"), 1)];
    BackupNameMatches(Agent.Binary(), "1.0.0");
    hide UpgradeCommand, BackUpBoth, ReachesBackups, BackupName, IsBackupOf, RollbackCommand, Pick;
    LatestIsNewest(mid.backups, [name], Agent.Binary());
    RollbackStopsAtTheFirstError(Agent, mid, back);
    RollbackAfterAbortedUpgrade(NEW_WORLD, Agent, AGENT_SITE, io, back);
  }
}
