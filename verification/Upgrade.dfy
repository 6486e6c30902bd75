/**
 * Transactional upgrade and copy-based rollback (`upgrade.rs`).
 *
 * Every system call that can fail is an input: an `UpgradeIo` or `RollbackIo` says how each
 * of them ends, including what a failed copy or removal leaves behind.  The functions below
 * give the state after a command for any such input; class `Target` (module Installation)
 * performs the same commands by changing its fields.
 */
module Upgrade {
  import opened Prelude
  import opened FileTree
  import opened Backups

  datatype Component = Hub | Agent | Cli {
    function Binary(): string {
      match this
      case Hub => "proxy-panel-hub"
      case Agent => "proxy-panel-agent"
      case Cli => "proxy-panel"
    }

    predicate HasUnit() { !Cli? }

    predicate WithWeb() { Hub? }
  }

  const WEB_DIST := "web-dist"

  datatype Outcome = Running | Succeeded | Failed | RolledBack

  /** What a command for one component sees and changes. */
  datatype Site = Site(
    binary: Option<Tree>, web: Option<Tree>, backups: BackupDir, active: bool, status: Option<Outcome>)

  /** Fixed facts: what a binary prints for `--version`, and the semantic-version order. */
  datatype World = World(reports: string -> Option<string>, rank: string -> Option<real>)

  /** How a copy ends; one that fails, or meets a file/directory clash, leaves `left` if it got to its destination. */
  datatype CopyIo = CopyIo(fails: bool, touched: bool, left: Option<Tree>)

  datatype RemoveIo = RemoveIo(fails: bool, left: Option<Tree>)

  datatype ServiceIo = ServiceIo(restart: bool, stable: bool, activeAfterFailure: bool)

  datatype ReplaceIo = ReplaceIo(
    moved: bool, moveOk: bool, chmod: bool, removeWeb: RemoveIo, parentDir: bool, moveWeb: CopyIo,
    query: bool, service: ServiceIo)

  datatype RecoverIo = RecoverIo(
    removeBinary: RemoveIo, copyBinary: CopyIo, removeWeb: RemoveIo, copyWeb: CopyIo, service: ServiceIo)

  datatype Release = Release(binary: string, web: map<string, Tree>)

  /** Whether each write of the status file succeeds. */
  datatype Writes = Writes(
    resolving: bool, skipped: bool, preparing: bool, replacing: bool, rollback: bool, completed: bool, finish: bool)

  datatype PruneIo = PruneIo(listing: seq<string>, stuck: BackupDir)

  datatype UpgradeIo = UpgradeIo(
    statusFile: bool, writes: Writes, target: Option<string>, query: bool, release: Option<Release>,
    backupDir: bool, stamp: string, now: int, backupBinary: CopyIo, backupWeb: CopyIo,
    probe: bool, stops: bool, replace: ReplaceIo, recover: RecoverIo, pruneBinary: PruneIo, pruneWeb: PruneIo)

  datatype RollbackIo = RollbackIo(
    listing: Option<seq<string>>, webListing: Option<seq<string>>, probe: bool, stops: bool,
    removeBinary: RemoveIo, copyBinary: CopyIo, removeWeb: RemoveIo, copyWeb: CopyIo, service: ServiceIo)

  /** How `perform_upgrade` returned; the last five are its `Err` returns. */
  datatype Ended =
    | Completed          // the new version is live and verified
    | AlreadyThere       // the live version already was the target
    | Aborted            // gave up before touching the service or a live file
    | StoppedOnly        // the status write after stopping the service failed
    | Restored           // replacing failed, recovery worked
    | RecoveryFailed     // replacing failed, recovery too
    | Unreported         // everything worked except the last status write

  function Report(e: Ended): Outcome {
    match e
    case Completed => Succeeded
    case AlreadyThere => Succeeded
    case Restored => RolledBack
    case _ => Failed
  }

  // ----- single steps

  function CopyTo(src: Tree, dst: Option<Tree>, io: CopyIo): (bool, Option<Tree>) {
    var r := Overlay(src, dst);
    if io.fails || r.None? then (false, if io.touched then io.left else dst) else (true, r)
  }

  /** `remove_path` */
  function Remove(path: Option<Tree>, io: RemoveIo): (bool, Option<Tree>) {
    if path.Some? && io.fails then (false, io.left) else (true, None)
  }

  /** `restore_path` */
  function RestorePath(dst: Option<Tree>, backup: Option<Tree>, rm: RemoveIo, cp: CopyIo): (bool, Option<Tree>) {
    var (removed, rest) := Remove(dst, rm);
    if !removed then (false, rest)
    else if backup.None? then (true, None)
    else CopyTo(backup.value, None, cp)
  }

  /** The tree stored under a backup name. */
  function Stored(backups: BackupDir, name: Option<string>): Option<Tree> {
    if name.Some? && name.value in backups then Some(backups[name.value].tree) else None
  }

  function Keep(backups: BackupDir, name: string, t: Option<Tree>, now: int): BackupDir {
    Put(backups, name, if t.Some? then Some(Backup(t.value, now)) else None)
  }

  /** `backup_existing`: success, the backup directory, and the backup made, if there was anything to back up. */
  function BackupExisting(backups: BackupDir, source: Option<Tree>, name: string, now: int, io: CopyIo)
    : (bool, BackupDir, Option<string>)
  {
    if source.None? then (true, backups, None)
    else
      var (ok, t) := CopyTo(source.value, Stored(backups, Some(name)), io);
      (ok, if ok || io.touched then Keep(backups, name, t, now) else backups, if ok then Some(name) else None)
  }

  /** `systemd_restart` then `systemd_wait_stable` */
  function Bounce(h: Site, wasActive: bool, io: ServiceIo): (bool, Site) {
    if !wasActive then (true, h)
    else if io.restart && io.stable then (true, h.(active := true))
    else (false, h.(active := io.activeAfterFailure))
  }

  function VersionOf(w: World, binary: Tree): Option<string> {
    if binary.File? then w.reports(binary.bytes) else None
  }

  datatype Query = Absent | Unknown | Known(version: string)

  /** `installed_version_strict` */
  function Installed(w: World, binary: Option<Tree>, runs: bool): Query {
    if binary.None? then Absent
    else if !runs || VersionOf(w, binary.value).None? then Unknown
    else Known(VersionOf(w, binary.value).value)
  }

  predicate SameVersion(w: World, a: string, b: string) {
    w.rank(a).Some? && w.rank(a) == w.rank(b)
  }

  datatype Decision = Proceed | Skip | Refuse

  function PlanUpgrade(w: World, current: Query, target: string): Decision {
    match current
    case Unknown => Refuse
    case Absent => Proceed
    case Known(v) =>
      if w.rank(v).None? || w.rank(target).None? then Refuse
      else if SameVersion(w, v, target) then Skip
      else if w.rank(v).value > w.rank(target).value then Refuse
      else Proceed
  }

  function Note(h: Site, io: UpgradeIo, written: bool, o: Outcome): (bool, Site) {
    if !io.statusFile then (true, h)
    else if written then (true, h.(status := Some(o)))
    else (false, h)
  }

  // ----- upgrade

  function ReplaceAndVerify(
    w: World, c: Component, h: Site, rel: Release, target: string, wasActive: bool, io: ReplaceIo): (bool, Site)
  {
    var moves := io.moved && !(h.binary.Some? && h.binary.value.Dir?);
    var h1 := if moves then h.(binary := Some(File(rel.binary))) else h;
    if !moves || !io.moveOk || !io.chmod then (false, h1)
    else
      var (webOk, h2) :=
        if !c.WithWeb() then (true, h1)
        else
          var (removed, rest) := Remove(h1.web, io.removeWeb);
          if !removed || !io.parentDir then (false, h1.(web := rest))
          else
            var (moved, web) := CopyTo(Dir(rel.web), None, io.moveWeb);
            (moved, h1.(web := web));
      if !webOk then (false, h2)
      else
        var actual := Installed(w, h2.binary, io.query);
        if !actual.Known? || !SameVersion(w, actual.version, target) then (false, h2)
        else Bounce(h2, wasActive, io.service)
  }

  function Recover(
    c: Component, h: Site, binaryBackup: Option<string>, webBackup: Option<string>, wasActive: bool, io: RecoverIo)
    : (bool, Site)
  {
    var (binaryOk, binary) := RestorePath(h.binary, Stored(h.backups, binaryBackup), io.removeBinary, io.copyBinary);
    var h1 := h.(binary := binary);
    var (webOk, web) :=
      if c.WithWeb() then RestorePath(h1.web, Stored(h1.backups, webBackup), io.removeWeb, io.copyWeb)
      else (true, h1.web);
    var (serviceOk, h2) := Bounce(h1.(web := web), wasActive, io.service);
    (binaryOk && webOk && serviceOk, h2)
  }

  function PruneAfter(c: Component, backups: BackupDir, io: UpgradeIo): BackupDir {
    var b := Pruned(backups, io.pruneBinary.listing, c.Binary(), io.pruneBinary.stuck);
    if c.WithWeb() then Pruned(b, io.pruneWeb.listing, WEB_DIST, io.pruneWeb.stuck) else b
  }

  /** From the moment the service has been stopped. */
  function ReplaceOrRecover(
    w: World, c: Component, h: Site, rel: Release, target: string,
    binaryBackup: Option<string>, webBackup: Option<string>, wasActive: bool, io: UpgradeIo): (Site, Ended)
  {
    var (replaced, h1) := ReplaceAndVerify(w, c, h, rel, target, wasActive, io.replace);
    if replaced then
      var (reported, h2) := Note(h1.(backups := PruneAfter(c, h1.backups, io)), io, io.writes.completed, Running);
      (h2, if reported then Completed else Unreported)
    else
      var h2 := Note(h1, io, io.writes.rollback, Running).1;
      var (recovered, h3) := Recover(c, h2, binaryBackup, webBackup, wasActive, io.recover);
      (h3, if recovered then Restored else RecoveryFailed)
  }

  /** From the moment both backups exist. */
  function Swap(
    w: World, c: Component, h: Site, rel: Release, target: string,
    binaryBackup: Option<string>, webBackup: Option<string>, io: UpgradeIo): (Site, Ended)
  {
    var wasActive := c.HasUnit() && io.probe && h.active;
    var h1 := if wasActive && io.stops then h.(active := false) else h;
    var (noted, h2) := Note(h1, io, io.writes.replacing, Running);
    if !noted then (h2, StoppedOnly)
    else ReplaceOrRecover(w, c, h2, rel, target, binaryBackup, webBackup, wasActive, io)
  }

  function Label(current: Query, io: UpgradeIo): string {
    if current.Known? then current.version else io.stamp
  }

  function BinaryBackup(c: Component, current: Query, io: UpgradeIo): string {
    BackupName(c.Binary(), Label(current, io))
  }

  function WebBackup(current: Query, io: UpgradeIo): string {
    BackupName(WEB_DIST, Label(current, io))
  }

  /** What the two backups leave: success, the backup directory, and the backups made. */
  datatype BackedUp = BackedUp(ok: bool, backups: BackupDir, binary: Option<string>, web: Option<string>)

  function BackUpBoth(c: Component, h: Site, current: Query, io: UpgradeIo): BackedUp {
    var (binaryOk, b1, binary) :=
      BackupExisting(h.backups, h.binary, BinaryBackup(c, current, io), io.now, io.backupBinary);
    if !binaryOk || !c.WithWeb() then BackedUp(binaryOk, b1, binary, None)
    else
      var (webOk, b2, web) := BackupExisting(b1, h.web, WebBackup(current, io), io.now, io.backupWeb);
      BackedUp(webOk, b2, binary, web)
  }

  /** From a decision to go ahead. */
  function BackUpAndSwap(w: World, c: Component, h: Site, current: Query, target: string, io: UpgradeIo)
    : (Site, Ended)
  {
    var (noted, h1) := Note(h, io, io.writes.preparing, Running);
    if !noted || io.release.None? || !io.backupDir then (h1, Aborted)
    else
      var b := BackUpBoth(c, h1, current, io);
      var h2 := h1.(backups := b.backups);
      if !b.ok then (h2, Aborted) else Swap(w, c, h2, io.release.value, target, b.binary, b.web, io)
  }

  function PerformUpgrade(w: World, c: Component, h: Site, io: UpgradeIo): (Site, Ended) {
    var (noted, h1) := Note(h, io, io.writes.resolving, Running);
    if !noted || io.target.None? then (h1, Aborted)
    else
      var current := Installed(w, h1.binary, io.query);
      match PlanUpgrade(w, current, io.target.value)
      case Refuse => (h1, Aborted)
      case Skip =>
        var (skipped, h2) := Note(h1, io, io.writes.skipped, Running);
        (h2, if skipped then AlreadyThere else Aborted)
      case Proceed => BackUpAndSwap(w, c, h1, current, io.target.value, io)
  }

  function UpgradeCommand(w: World, c: Component, h: Site, io: UpgradeIo): (Site, Ended) {
    var (h1, ended) := PerformUpgrade(w, c, h, io);
    (Note(h1, io, io.writes.finish, Report(ended)).1, ended)
  }

  // ----- rollback

  function Newest(backups: BackupDir, listing: Option<seq<string>>, component: string): Option<string> {
    if listing.None? then None else Latest(backups, listing.value, component)
  }

  /** The command's success, and the machine it leaves behind either way. */
  function RollbackCommand(c: Component, h: Site, io: RollbackIo): (bool, Site) {
    var binaryBackup := Newest(h.backups, io.listing, c.Binary());
    var webBackup := if c.WithWeb() then Newest(h.backups, io.webListing, WEB_DIST) else None;
    if c.Cli? || binaryBackup.None? || (c.WithWeb() && webBackup.None?) then (false, h)
    else
      var wasActive := c.HasUnit() && io.probe && h.active;
      var h1 := if wasActive && io.stops then h.(active := false) else h;
      var (binaryOk, binary) :=
        RestorePath(h1.binary, Stored(h1.backups, binaryBackup), io.removeBinary, io.copyBinary);
      var h2 := h1.(binary := binary);
      if !binaryOk then (false, h2)
      else
        var (webOk, web) :=
          if c.WithWeb() then RestorePath(h2.web, Stored(h2.backups, webBackup), io.removeWeb, io.copyWeb)
          else (true, h2.web);
        var h3 := h2.(web := web);
        if !webOk then (false, h3) else Bounce(h3, wasActive, io.service)
  }

  // ----- runs of commands for all components

  /** All components share the backup directory and the status file; only the Hub has a web console. */
  datatype Machine = Machine(
    binaries: map<Component, Tree>, web: Option<Tree>, backups: BackupDir, active: set<Component>,
    status: Option<Outcome>)
  {
    function View(c: Component): Site {
      Site(Get(binaries, c), web, backups, c in active, status)
    }

    function Absorb(c: Component, s: Site): Machine {
      Machine(Put(binaries, c, s.binary), s.web, s.backups, if s.active then active + {c} else active - {c}, s.status)
    }
  }

  datatype Op = UpgradeOp(c: Component, up: UpgradeIo) | RollbackOp(c: Component, back: RollbackIo)

  function Step(w: World, m: Machine, op: Op): Machine {
    match op
    case UpgradeOp(c, io) => m.Absorb(c, UpgradeCommand(w, c, m.View(c), io).0)
    case RollbackOp(c, io) => m.Absorb(c, RollbackCommand(c, m.View(c), io).1)
  }

  function Run(w: World, m: Machine, ops: seq<Op>): Machine {
    if ops == [] then m else Step(w, Run(w, m, ops[..|ops| - 1]), ops[|ops| - 1])
  }
}
