/**
 * The upgrade and rollback commands in the form they have in `upgrade.rs`: methods that change
 * files, backups, the service and the status file one step at a time.  Each is proved to leave
 * exactly the state its function in module `Upgrade` gives, whatever its system calls do, so
 * every theorem about those functions is a theorem about these methods.
 */
module Installation {
  import opened Prelude
  import opened FileTree
  import opened Backups
  import opened Upgrade

  class Target {
    const c: Component
    var binary: Option<Tree>
    var web: Option<Tree>
    var backups: BackupDir
    var active: bool
    var status: Option<Outcome>

    constructor (c: Component, s: Site)
      ensures this.c == c && State() == s
    {
      this.c := c;
      binary, web, backups, active, status := s.binary, s.web, s.backups, s.active, s.status;
    }

    function State(): Site
      reads this
    {
      Site(binary, web, backups, active, status)
    }

    method WriteStatus(io: UpgradeIo, written: bool, o: Outcome) returns (ok: bool)
      modifies this`status
      ensures (ok, State()) == Note(old(State()), io, written, o)
    {
      if !io.statusFile {
        return true;
      }
      if written {
        status := Some(o);
      }
      return written;
    }

    method BackUp(source: Option<Tree>, name: string, now: int, io: CopyIo) returns (ok: bool, kept: Option<string>)
      modifies this`backups
      ensures (ok, backups, kept) == BackupExisting(old(backups), source, name, now, io)
    {
      if source.None? {
        return true, None;
      }
      var (copied, t) := CopyTo(source.value, Stored(backups, Some(name)), io);
      if copied || io.touched {
        backups := Keep(backups, name, t, now);
      }
      return copied, if copied then Some(name) else None;
    }

    method RestoreBinary(backup: Option<Tree>, rm: RemoveIo, cp: CopyIo) returns (ok: bool)
      modifies this`binary
      ensures (ok, binary) == RestorePath(old(binary), backup, rm, cp)
    {
      var (removed, rest) := Remove(binary, rm);
      binary := rest;
      if !removed || backup.None? {
        return removed;
      }
      var (copied, t) := CopyTo(backup.value, None, cp);
      binary := t;
      return copied;
    }

    method RestoreWeb(backup: Option<Tree>, rm: RemoveIo, cp: CopyIo) returns (ok: bool)
      modifies this`web
      ensures (ok, web) == RestorePath(old(web), backup, rm, cp)
    {
      var (removed, rest) := Remove(web, rm);
      web := rest;
      if !removed || backup.None? {
        return removed;
      }
      var (copied, t) := CopyTo(backup.value, None, cp);
      web := t;
      return copied;
    }

    method RestartService(wasActive: bool, io: ServiceIo) returns (ok: bool)
      modifies this`active
      ensures (ok, State()) == Bounce(old(State()), wasActive, io)
    {
      if !wasActive {
        return true;
      }
      ok := io.restart && io.stable;
      active := ok || io.activeAfterFailure;
    }

    method Replace(w: World, rel: Release, target: string, wasActive: bool, io: ReplaceIo) returns (ok: bool)
      modifies this`binary, this`web, this`active
      ensures (ok, State()) == ReplaceAndVerify(w, c, old(State()), rel, target, wasActive, io)
    {
      if !io.moved || (binary.Some? && binary.value.Dir?) {
        return false;
      }
      binary := Some(File(rel.binary));
      if !io.moveOk || !io.chmod {
        return false;
      }
      if c.WithWeb() {
        var (removed, rest) := Remove(web, io.removeWeb);
        web := rest;
        if !removed || !io.parentDir {
          return false;
        }
        var (moved, t) := CopyTo(Dir(rel.web), None, io.moveWeb);
        web := t;
        if !moved {
          return false;
        }
      }
      var actual := Installed(w, binary, io.query);
      if !actual.Known? || !SameVersion(w, actual.version, target) {
        return false;
      }
      ok := RestartService(wasActive, io.service);
    }

    /** Every part of the recovery is tried, whatever happens to the others. */
    method RecoverAll(binaryBackup: Option<string>, webBackup: Option<string>, wasActive: bool, io: RecoverIo)
      returns (ok: bool)
      modifies this`binary, this`web, this`active
      ensures (ok, State()) == Recover(c, old(State()), binaryBackup, webBackup, wasActive, io)
    {
      ok := RestoreBinary(Stored(backups, binaryBackup), io.removeBinary, io.copyBinary);
      if c.WithWeb() {
        var restored := RestoreWeb(Stored(backups, webBackup), io.removeWeb, io.copyWeb);
        ok := ok && restored;
      }
      var restarted := RestartService(wasActive, io.service);
      ok := ok && restarted;
    }

    method Prune(io: UpgradeIo)
      modifies this`backups
      ensures backups == PruneAfter(c, old(backups), io)
    {
      backups := PruneBackupsIn(backups, io.pruneBinary.listing, c.Binary(), io.pruneBinary.stuck);
      if c.WithWeb() {
        backups := PruneBackupsIn(backups, io.pruneWeb.listing, WEB_DIST, io.pruneWeb.stuck);
      }
    }

    method ReplaceFiles(
      w: World, rel: Release, target: string, binaryBackup: Option<string>, webBackup: Option<string>,
      wasActive: bool, io: UpgradeIo) returns (e: Ended)
      modifies this
      ensures (State(), e) ==
        ReplaceOrRecover(w, c, old(State()), rel, target, binaryBackup, webBackup, wasActive, io)
    {
      hide ReplaceAndVerify, Recover, PruneAfter;
      var ok := Replace(w, rel, target, wasActive, io.replace);
      if !ok {
        var _ := WriteStatus(io, io.writes.rollback, Running);
        ok := RecoverAll(binaryBackup, webBackup, wasActive, io.recover);
        return if ok then Restored else RecoveryFailed;
      }
      Prune(io);
      ok := WriteStatus(io, io.writes.completed, Running);
      return if ok then Completed else Unreported;
    }

    method SwapFiles(
      w: World, rel: Release, target: string, binaryBackup: Option<string>, webBackup: Option<string>, io: UpgradeIo)
      returns (e: Ended)
      modifies this
      ensures (State(), e) == Swap(w, c, old(State()), rel, target, binaryBackup, webBackup, io)
    {
      hide ReplaceOrRecover;
      var wasActive := c.HasUnit() && io.probe && active;
      if wasActive && io.stops {
        active := false;
      }
      var ok := WriteStatus(io, io.writes.replacing, Running);
      if !ok {
        return StoppedOnly;
      }
      e := ReplaceFiles(w, rel, target, binaryBackup, webBackup, wasActive, io);
    }

    method Perform(w: World, io: UpgradeIo) returns (e: Ended)
      modifies this
      ensures (State(), e) == PerformUpgrade(w, c, old(State()), io)
    {
      hide Swap, BackupExisting;
      var ok := WriteStatus(io, io.writes.resolving, Running);
      if !ok || io.target.None? {
        return Aborted;
      }
      var current := Installed(w, binary, io.query);
      var decision := PlanUpgrade(w, current, io.target.value);
      if decision.Refuse? {
        return Aborted;
      }
      if decision.Skip? {
        ok := WriteStatus(io, io.writes.skipped, Running);
        return if ok then AlreadyThere else Aborted;
      }
      ok := WriteStatus(io, io.writes.preparing, Running);
      if !ok || io.release.None? || !io.backupDir {
        return Aborted;
      }
      var binaryBackup, webBackup := None, None;
      ok, binaryBackup := BackUp(binary, BinaryBackup(c, current, io), io.now, io.backupBinary);
      if !ok {
        return Aborted;
      }
      if c.WithWeb() {
        ok, webBackup := BackUp(web, WebBackup(current, io), io.now, io.backupWeb);
        if !ok {
          return Aborted;
        }
      }
      e := SwapFiles(w, io.release.value, io.target.value, binaryBackup, webBackup, io);
    }

    method DoUpgrade(w: World, io: UpgradeIo) returns (e: Ended)
      modifies this
      ensures (State(), e) == UpgradeCommand(w, c, old(State()), io)
    {
      hide PerformUpgrade;
      e := Perform(w, io);
      var _ := WriteStatus(io, io.writes.finish, Report(e));
    }

    method DoRollback(io: RollbackIo) returns (ok: bool)
      requires io.listing.Some? ==> Lists(io.listing.value, backups)
      requires io.webListing.Some? ==> Lists(io.webListing.value, backups)
      modifies this
      ensures (ok, State()) == RollbackCommand(c, old(State()), io)
    {
      hide Latest;
      if c.Cli? || io.listing.None? {
        return false;
      }
      var binaryBackup := FindLatestBackupIn(backups, io.listing.value, c.Binary());
      if binaryBackup.None? {
        return false;
      }
      var webBackup := None;
      if c.WithWeb() {
        if io.webListing.None? {
          return false;
        }
        webBackup := FindLatestBackupIn(backups, io.webListing.value, WEB_DIST);
        if webBackup.None? {
          return false;
        }
      }
      var wasActive := c.HasUnit() && io.probe && active;
      if wasActive && io.stops {
        active := false;
      }
      ok := RestoreBinary(Stored(backups, binaryBackup), io.removeBinary, io.copyBinary);
      if !ok {
        return;
      }
      if c.WithWeb() {
        ok := RestoreWeb(Stored(backups, webBackup), io.removeWeb, io.copyWeb);
        if !ok {
          return;
        }
      }
      ok := RestartService(wasActive, io.service);
    }
  }

  /** `systemd_wait_stable`: thirty probes a second apart, three successes in a row. */
  method WaitStable(probes: seq<bool>) returns (ok: bool)
    requires |probes| >= 30
    ensures ok <==> exists i :: 2 <= i < 30 && probes[i - 2] && probes[i - 1] && probes[i]
  {
    var stable := 0;
    for i := 0 to 30
      invariant 0 <= stable < 3 && stable <= i
      invariant forall j :: i - stable <= j < i ==> probes[j]
      invariant i > stable ==> !probes[i - stable - 1]
      invariant forall j :: 2 <= j < i ==> !(probes[j - 2] && probes[j - 1] && probes[j])
    {
      if probes[i] {
        stable := stable + 1;
        if stable == 3 {
          assert probes[i - 2] && probes[i - 1] && probes[i];
          return true;
        }
      } else {
        stable := 0;
      }
    }
    return false;
  }
}
