/** What `upgrade` and `rollback` promise, for every way the system calls can end. */
module UpgradeTheorems {
  import opened Prelude
  import opened FileTree
  import opened Backups
  import opened Upgrade

  predicate WasActive(c: Component, h: Site, io: UpgradeIo) {
    c.HasUnit() && io.probe && h.active
  }

  /** The release's binary reports the target version. */
  predicate Reports(w: World, rel: Release, target: string) {
    w.reports(rel.binary).Some? && SameVersion(w, w.reports(rel.binary).value, target)
  }

  /** The release is live and reports the target version. */
  predicate IsLive(w: World, c: Component, h: Site, rel: Release, target: string, post: Site) {
    && post.binary == Some(File(rel.binary))
    && Reports(w, rel, target)
    && post.web == if c.WithWeb() then Some(Dir(rel.web)) else h.web
  }

  predicate CleanService(io: ServiceIo) { io.restart && io.stable }

  predicate CleanRecover(io: RecoverIo) {
    && !io.removeBinary.fails && !io.copyBinary.fails && !io.removeWeb.fails && !io.copyWeb.fails
    && CleanService(io.service)
  }

  predicate CleanReplace(io: ReplaceIo) {
    && io.moved && io.moveOk && io.chmod && !io.removeWeb.fails && io.parentDir && !io.moveWeb.fails && io.query
    && CleanService(io.service)
  }

  /** A path that is there cannot fail to be removed, nor a backup that is there to be copied back. */
  predicate RestoreWorks(dst: Option<Tree>, backup: Option<Tree>, rm: RemoveIo, cp: CopyIo) {
    !(dst.Some? && rm.fails) && (backup.Some? ==> !cp.fails)
  }

  /** What it takes to replace the files, see the target version and have the service back. */
  predicate ReplaceWorks(
    w: World, c: Component, h: Site, rel: Release, target: string, wasActive: bool, io: ReplaceIo)
  {
    && io.moved && (h.binary.Some? ==> h.binary.value.File?) && io.moveOk && io.chmod
    && (c.WithWeb() ==> !(h.web.Some? && io.removeWeb.fails) && io.parentDir && !io.moveWeb.fails)
    && io.query && Reports(w, rel, target)
    && (wasActive ==> CleanService(io.service))
  }

  predicate RecoverWorks(
    c: Component, h: Site, binaryBackup: Option<string>, webBackup: Option<string>, wasActive: bool, io: RecoverIo)
  {
    && RestoreWorks(h.binary, Stored(h.backups, binaryBackup), io.removeBinary, io.copyBinary)
    && (c.WithWeb() ==> RestoreWorks(h.web, Stored(h.backups, webBackup), io.removeWeb, io.copyWeb))
    && (wasActive ==> CleanService(io.service))
  }

  lemma ReplaceFacts(w: World, c: Component, h: Site, rel: Release, target: string, wasActive: bool, io: ReplaceIo)
    ensures var (ok, post) := ReplaceAndVerify(w, c, h, rel, target, wasActive, io);
      && post.backups == h.backups && post.status == h.status
      && (!c.WithWeb() ==> post.web == h.web)
      && (ok ==> IsLive(w, c, h, rel, target, post) && post.active == (wasActive || h.active))
      && (ok <==> ReplaceWorks(w, c, h, rel, target, wasActive, io))
      && (!wasActive ==> post.active == h.active)
  {
    CopyToAbsent(Dir(rel.web));
  }

  lemma RestoreFacts(dst: Option<Tree>, backup: Option<Tree>, rm: RemoveIo, cp: CopyIo)
    ensures RestorePath(dst, backup, rm, cp).0 ==> RestorePath(dst, backup, rm, cp).1 == backup
    ensures RestorePath(dst, backup, rm, cp).0 <==> RestoreWorks(dst, backup, rm, cp)
  {
    if backup.Some? {
      CopyToAbsent(backup.value);
    }
  }

  lemma RecoverFacts(
    c: Component, h: Site, binaryBackup: Option<string>, webBackup: Option<string>, wasActive: bool, io: RecoverIo)
    ensures var (ok, post) := Recover(c, h, binaryBackup, webBackup, wasActive, io);
      && post.backups == h.backups && post.status == h.status
      && (!c.WithWeb() ==> post.web == h.web)
      && (ok ==>
            && post.binary == Stored(h.backups, binaryBackup)
            && (c.WithWeb() ==> post.web == Stored(h.backups, webBackup))
            && post.active == (wasActive || h.active))
      && (ok <==> RecoverWorks(c, h, binaryBackup, webBackup, wasActive, io))
  {
    RestoreFacts(h.binary, Stored(h.backups, binaryBackup), io.removeBinary, io.copyBinary);
    RestoreFacts(h.web, Stored(h.backups, webBackup), io.removeWeb, io.copyWeb);
  }

  lemma ReplaceOrRecoverFacts(
    w: World, c: Component, h: Site, rel: Release, target: string,
    binaryBackup: Option<string>, webBackup: Option<string>, wasActive: bool, io: UpgradeIo)
    ensures var (post, e) := ReplaceOrRecover(w, c, h, rel, target, binaryBackup, webBackup, wasActive, io);
      && !e.AlreadyThere? && !e.Aborted? && !e.StoppedOnly?
      && (!c.WithWeb() ==> post.web == h.web)
      && post.backups == (if e.Completed? || e.Unreported? then PruneAfter(c, h.backups, io) else h.backups)
      && post.status in {h.status, Some(Running)} && (!io.statusFile ==> post.status == h.status)
      && (e.Completed? || e.Unreported? ==>
            IsLive(w, c, h, rel, target, post) && post.active == (wasActive || h.active))
      && (e.Restored? ==>
            && post.binary == Stored(h.backups, binaryBackup)
            && (c.WithWeb() ==> post.web == Stored(h.backups, webBackup))
            && post.active == (wasActive || h.active))
      && (e.RecoveryFailed? ==> !CleanRecover(io.recover))
  {
    hide ReplaceAndVerify, Recover, PruneAfter;
    ReplaceFacts(w, c, h, rel, target, wasActive, io.replace);
    var h1 := ReplaceAndVerify(w, c, h, rel, target, wasActive, io.replace).1;
    RecoverFacts(c, Note(h1, io, io.writes.rollback, Running).1, binaryBackup, webBackup, wasActive, io.recover);
  }

  /** What each ending of `Swap` says about the machine it started from. */
  ghost predicate SwapContract(
    w: World, c: Component, h: Site, rel: Release, target: string,
    binaryBackup: Option<string>, webBackup: Option<string>, io: UpgradeIo, post: Site, e: Ended)
  {
    && !e.AlreadyThere? && !e.Aborted?
    && (!c.WithWeb() ==> post.web == h.web)
    && post.backups == (if e.Completed? || e.Unreported? then PruneAfter(c, h.backups, io) else h.backups)
    && post.status in {h.status, Some(Running)} && (!io.statusFile ==> post.status == h.status)
    && (e.Completed? || e.Unreported? ==> IsLive(w, c, h, rel, target, post) && post.active == h.active)
    && (e.StoppedOnly? ==>
          && post.binary == h.binary && post.web == h.web
          && (post.active == h.active <==> !(WasActive(c, h, io) && io.stops)))
    && (e.Restored? ==>
          && post.binary == Stored(h.backups, binaryBackup)
          && (c.WithWeb() ==> post.web == Stored(h.backups, webBackup))
          && post.active == h.active)
    && (e.RecoveryFailed? ==> !CleanRecover(io.recover))
  }

  lemma SwapFacts(
    w: World, c: Component, h: Site, rel: Release, target: string,
    binaryBackup: Option<string>, webBackup: Option<string>, io: UpgradeIo)
    ensures var (post, e) := Swap(w, c, h, rel, target, binaryBackup, webBackup, io);
      SwapContract(w, c, h, rel, target, binaryBackup, webBackup, io, post, e)
  {
    hide ReplaceOrRecover, PruneAfter, CleanRecover;
    var wasActive := WasActive(c, h, io);
    var h1 := if wasActive && io.stops then h.(active := false) else h;
    var h2 := Note(h1, io, io.writes.replacing, Running).1;
    ReplaceOrRecoverFacts(w, c, h2, rel, target, binaryBackup, webBackup, wasActive, io);
  }

  /** A backup is made unless its copy fails or meets a clash with what is stored under its name. */
  predicate BackupWorks(source: Option<Tree>, name: string, backups: BackupDir, io: CopyIo) {
    source.Some? ==> !io.fails && Overlay(source.value, Stored(backups, Some(name))).Some?
  }

  lemma BackupFacts(backups: BackupDir, source: Option<Tree>, name: string, now: int, io: CopyIo)
    ensures var (ok, after, kept) := BackupExisting(backups, source, name, now, io);
      && (forall n :: n != name ==> Get(after, n) == Get(backups, n))
      && (source.None? ==> ok && after == backups && kept.None?)
      && (source.Some? && ok ==>
            && kept == Some(name) && name in after && after[name].modified == now
            && Some(after[name].tree) == Overlay(source.value, Stored(backups, Some(name))))
      && (ok <==> BackupWorks(source, name, backups, io))
  {
  }

  lemma BackupNamesDiffer(c: Component, current: Query, io: UpgradeIo)
    ensures BinaryBackup(c, current, io) != WebBackup(current, io)
  {
    assert BinaryBackup(c, current, io)[0] == 'p' && WebBackup(current, io)[0] == 'w';
  }

  function Before(w: World, h: Site, io: UpgradeIo): Query {
    Installed(w, h.binary, io.query)
  }

  /** A web backup already stored under this upgrade's label, if any, has no path the live tree lacks. */
  ghost predicate WebLabelClean(c: Component, h: Site, current: Query, io: UpgradeIo) {
    var stale := Stored(h.backups, Some(WebBackup(current, io)));
    c.WithWeb() && h.web.Some? && stale.Some? ==> Covered(stale.value, h.web.value)
  }

  /** Where an upgrade that is not skipped or refused leaves a machine. */
  ghost predicate GoAheadContract(
    w: World, c: Component, h: Site, current: Query, target: string, io: UpgradeIo, post: Site, e: Ended)
  {
    && !e.AlreadyThere?
    && (e.Completed? || e.Unreported? ==>
          io.release.Some? && IsLive(w, c, h, io.release.value, target, post) && post.active == h.active)
    && (e.Aborted? ==> post.binary == h.binary && post.web == h.web && post.active == h.active)
    && (e.StoppedOnly? ==>
          && post.binary == h.binary && post.web == h.web
          && (post.active == h.active <==> !(WasActive(c, h, io) && io.stops)))
    && (e.Restored? ==>
          && post.binary == h.binary && post.active == h.active
          && (post.web == h.web <==> WebLabelClean(c, h, current, io)))
    && (e.RecoveryFailed? ==> !CleanRecover(io.recover))
  }

  /** Both backups hold what is live; the web backup exactly so when its label was clean. */
  lemma BackUpBothFacts(c: Component, h: Site, current: Query, io: UpgradeIo)
    requires h.binary.Some? ==> h.binary.value.File?
    requires BackUpBoth(c, h, current, io).ok
    ensures var b := BackUpBoth(c, h, current, io);
      && Stored(b.backups, b.binary) == h.binary
      && (b.binary.Some? <==> h.binary.Some?)
      && (c.WithWeb() ==> (Stored(b.backups, b.web) == h.web <==> WebLabelClean(c, h, current, io)))
  {
    hide BackupExisting;
    BackupNamesDiffer(c, current, io);
    var name, webName := BinaryBackup(c, current, io), WebBackup(current, io);
    BackupFacts(h.backups, h.binary, name, io.now, io.backupBinary);
    var (_, b1, binary) := BackupExisting(h.backups, h.binary, name, io.now, io.backupBinary);
    if c.WithWeb() {
      BackupFacts(b1, h.web, webName, io.now, io.backupWeb);
      var (_, b2, web) := BackupExisting(b1, h.web, webName, io.now, io.backupWeb);
      assert Get(b1, webName) == Get(h.backups, webName) && Get(b2, name) == Get(b1, name);
      if h.web.Some? {
        var stale := Stored(h.backups, Some(webName));
        assert Stored(b2, web) == Overlay(h.web.value, stale);
        if stale.Some? {
          OverlayIsExact(h.web.value, stale.value);
        } else {
          CopyToAbsent(h.web.value);
        }
      }
    }
  }

  lemma GoAheadFacts(w: World, c: Component, h: Site, current: Query, target: string, io: UpgradeIo)
    requires h.binary.Some? ==> h.binary.value.File?
    ensures var (post, e) := BackUpAndSwap(w, c, h, current, target, io);
      GoAheadContract(w, c, h, current, target, io, post, e)
  {
    hide Swap, BackUpBoth;
    var h1 := Note(h, io, io.writes.preparing, Running).1;
    var b := BackUpBoth(c, h1, current, io);
    if io.release.Some? && b.ok {
      BackUpBothFacts(c, h1, current, io);
      SwapFacts(w, c, h1.(backups := b.backups), io.release.value, target, b.binary, b.web, io);
    }
  }

  ghost predicate TrueByEnding(w: World, c: Component, h: Site, io: UpgradeIo, post: Site, e: Ended) {
    var current := Before(w, h, io);
    && (Report(e) == Succeeded || e.Unreported? ==>
          if io.target.None? then false
          else if e.AlreadyThere?
          then post == h.(status := post.status) && current.Known? && SameVersion(w, current.version, io.target.value)
          else
            io.release.Some? && IsLive(w, c, h, io.release.value, io.target.value, post) && post.active == h.active)
    && (Report(e) == RolledBack ==>
          && post.binary == h.binary && post.active == h.active
          && (post.web == h.web <==> WebLabelClean(c, h, current, io)))
    && (Report(e) == Failed && !e.RecoveryFailed? && !e.Unreported? ==>
          && post.binary == h.binary && post.web == h.web
          && (post.active == h.active <==> !(e.StoppedOnly? && WasActive(c, h, io) && io.stops)))
    && (e.RecoveryFailed? ==> !CleanRecover(io.recover))
  }

  lemma PerformIsTrue(w: World, c: Component, h: Site, io: UpgradeIo)
    ensures TrueByEnding(w, c, h, io, PerformUpgrade(w, c, h, io).0, PerformUpgrade(w, c, h, io).1)
  {
    hide BackUpAndSwap, WebLabelClean;
    var (noted, h1) := Note(h, io, io.writes.resolving, Running);
    if noted && io.target.Some? && PlanUpgrade(w, Before(w, h, io), io.target.value).Proceed? {
      GoAheadIsTrue(w, c, h, h1, io);
    }
  }

  lemma GoAheadIsTrue(w: World, c: Component, h: Site, h1: Site, io: UpgradeIo)
    requires h1 == h.(status := h1.status)
    requires io.target.Some? && PlanUpgrade(w, Before(w, h, io), io.target.value).Proceed?
    ensures var (post, e) := BackUpAndSwap(w, c, h1, Before(w, h, io), io.target.value, io);
      TrueByEnding(w, c, h, io, post, e)
  {
    hide BackUpAndSwap, Covered, SameVersion;
    var current := Before(w, h, io);
    GoAheadFacts(w, c, h1, current, io.target.value, io);
    assert WebLabelClean(c, h1, current, io) == WebLabelClean(c, h, current, io);
    var (post, e) := BackUpAndSwap(w, c, h1, current, io.target.value, io);
    assert e.Completed? || e.Unreported? ==> IsLive(w, c, h, io.release.value, io.target.value, post);
  }

  // ----- when each ending happens

  predicate Noted(io: UpgradeIo, written: bool) { io.statusFile ==> written }

  predicate BinaryBackupWorks(w: World, c: Component, h: Site, io: UpgradeIo) {
    BackupWorks(h.binary, BinaryBackup(c, Before(w, h, io), io), h.backups, io.backupBinary)
  }

  predicate WebBackupWorks(w: World, c: Component, h: Site, io: UpgradeIo) {
    c.WithWeb() ==> BackupWorks(h.web, WebBackup(Before(w, h, io), io), h.backups, io.backupWeb)
  }

  /** The upgrade is wanted, and gets as far as making its backups. */
  predicate ReachesBackups(w: World, h: Site, io: UpgradeIo) {
    && io.target.Some? && PlanUpgrade(w, Before(w, h, io), io.target.value).Proceed?
    && Noted(io, io.writes.resolving) && Noted(io, io.writes.preparing)
    && io.release.Some? && io.backupDir
  }

  /** The upgrade gets as far as stopping the service. */
  predicate Underway(w: World, c: Component, h: Site, io: UpgradeIo) {
    ReachesBackups(w, h, io) && BinaryBackupWorks(w, c, h, io) && WebBackupWorks(w, c, h, io)
  }

  predicate Replaces(w: World, c: Component, h: Site, io: UpgradeIo)
    requires io.release.Some? && io.target.Some?
  {
    ReplaceWorks(w, c, h, io.release.value, io.target.value, WasActive(c, h, io), io.replace)
  }

  /** Whether the recovery works on what the failed replacement left. */
  predicate Recovers(w: World, c: Component, h: Site, io: UpgradeIo)
    requires io.release.Some? && io.target.Some?
  {
    var b, wasActive := BackUpBoth(c, h, Before(w, h, io), io), WasActive(c, h, io);
    var left := ReplaceAndVerify(
      w, c, h.(backups := b.backups), io.release.value, io.target.value, wasActive, io.replace).1;
    RecoverWorks(c, left, b.binary, b.web, wasActive, io.recover)
  }

  /** The status write after stopping the service fails: nothing is replaced and nothing recovered. */
  predicate StopsShort(w: World, c: Component, h: Site, io: UpgradeIo) {
    Underway(w, c, h, io) && !Noted(io, io.writes.replacing)
  }

  /** The new version is live and verified, and only the last status write fails. */
  predicate ReportLost(w: World, c: Component, h: Site, io: UpgradeIo) {
    && Underway(w, c, h, io) && Noted(io, io.writes.replacing) && Replaces(w, c, h, io)
    && !Noted(io, io.writes.completed)
  }

  predicate RecoveryLost(w: World, c: Component, h: Site, io: UpgradeIo) {
    && Underway(w, c, h, io) && Noted(io, io.writes.replacing) && !Replaces(w, c, h, io)
    && !Recovers(w, c, h, io)
  }

  lemma BackUpBothWorks(w: World, c: Component, h: Site, io: UpgradeIo)
    ensures BackUpBoth(c, h, Before(w, h, io), io).ok <==>
      BinaryBackupWorks(w, c, h, io) && WebBackupWorks(w, c, h, io)
  {
    hide BackupExisting, Overlay;
    var current := Before(w, h, io);
    var name, webName := BinaryBackup(c, current, io), WebBackup(current, io);
    BackupNamesDiffer(c, current, io);
    BackupFacts(h.backups, h.binary, name, io.now, io.backupBinary);
    var b1 := BackupExisting(h.backups, h.binary, name, io.now, io.backupBinary).1;
    assert Get(b1, webName) == Get(h.backups, webName);
    BackupFacts(b1, h.web, webName, io.now, io.backupWeb);
  }

  /** What a replacement does to files does not depend on the service or the status file. */
  lemma ReplaceLeaves(
    w: World, c: Component, h: Site, h': Site, rel: Release, target: string, wasActive: bool, io: ReplaceIo)
    requires h' == h.(active := h'.active, status := h'.status)
    ensures var left, left' := ReplaceAndVerify(w, c, h, rel, target, wasActive, io).1,
                               ReplaceAndVerify(w, c, h', rel, target, wasActive, io).1;
      left.binary == left'.binary && left.web == left'.web && left.backups == left'.backups
  {
    hide CopyTo, Remove, Installed, SameVersion;
  }

  lemma ReplaceOrRecoverEndings(
    w: World, c: Component, h: Site, rel: Release, target: string,
    binaryBackup: Option<string>, webBackup: Option<string>, wasActive: bool, io: UpgradeIo)
    ensures var e := ReplaceOrRecover(w, c, h, rel, target, binaryBackup, webBackup, wasActive, io).1;
      var left := ReplaceAndVerify(w, c, h, rel, target, wasActive, io.replace).1;
      e == if ReplaceWorks(w, c, h, rel, target, wasActive, io.replace)
           then if Noted(io, io.writes.completed) then Completed else Unreported
           else if RecoverWorks(c, left, binaryBackup, webBackup, wasActive, io.recover) then Restored
           else RecoveryFailed
  {
    hide ReplaceAndVerify, Recover, PruneAfter, ReplaceWorks, RecoverWorks;
    ReplaceFacts(w, c, h, rel, target, wasActive, io.replace);
    var left := ReplaceAndVerify(w, c, h, rel, target, wasActive, io.replace).1;
    var noted := Note(left, io, io.writes.rollback, Running).1;
    RecoverFacts(c, noted, binaryBackup, webBackup, wasActive, io.recover);
    SameRecover(c, left, noted, binaryBackup, webBackup, wasActive, io.recover);
  }

  lemma SwapEndings(
    w: World, c: Component, h: Site, rel: Release, target: string,
    binaryBackup: Option<string>, webBackup: Option<string>, io: UpgradeIo)
    ensures var e := Swap(w, c, h, rel, target, binaryBackup, webBackup, io).1;
      var wasActive := WasActive(c, h, io);
      var left := ReplaceAndVerify(w, c, h, rel, target, wasActive, io.replace).1;
      e == if !Noted(io, io.writes.replacing) then StoppedOnly
           else if ReplaceWorks(w, c, h, rel, target, wasActive, io.replace)
           then if Noted(io, io.writes.completed) then Completed else Unreported
           else if RecoverWorks(c, left, binaryBackup, webBackup, wasActive, io.recover) then Restored
           else RecoveryFailed
  {
    hide ReplaceOrRecover, ReplaceAndVerify, ReplaceWorks, RecoverWorks;
    var wasActive := WasActive(c, h, io);
    var h1 := if wasActive && io.stops then h.(active := false) else h;
    var h2 := Note(h1, io, io.writes.replacing, Running).1;
    ReplaceOrRecoverEndings(w, c, h2, rel, target, binaryBackup, webBackup, wasActive, io);
    SameReplace(w, c, h, h2, rel, target, wasActive, io.replace);
    ReplaceLeaves(w, c, h, h2, rel, target, wasActive, io.replace);
    SameRecover(
      c, ReplaceAndVerify(w, c, h, rel, target, wasActive, io.replace).1,
      ReplaceAndVerify(w, c, h2, rel, target, wasActive, io.replace).1,
      binaryBackup, webBackup, wasActive, io.recover);
  }

  lemma SameReplace(
    w: World, c: Component, h: Site, h': Site, rel: Release, target: string, wasActive: bool, io: ReplaceIo)
    requires h'.binary == h.binary && h'.web == h.web
    ensures ReplaceWorks(w, c, h', rel, target, wasActive, io) == ReplaceWorks(w, c, h, rel, target, wasActive, io)
  {
  }

  /** The ending of an upgrade, decided by its inputs: every way it can end has an exact condition. */
  ghost predicate EndsAsDecided(w: World, c: Component, h: Site, io: UpgradeIo, e: Ended) {
    && (e.StoppedOnly? <==> StopsShort(w, c, h, io))
    && (e.Unreported? <==> ReportLost(w, c, h, io))
    && (e.RecoveryFailed? <==> RecoveryLost(w, c, h, io))
    && (e.Completed? <==>
          && Underway(w, c, h, io) && Noted(io, io.writes.replacing) && Replaces(w, c, h, io)
          && Noted(io, io.writes.completed))
    && (e.Restored? <==>
          && Underway(w, c, h, io) && Noted(io, io.writes.replacing) && !Replaces(w, c, h, io)
          && Recovers(w, c, h, io))
    && (e.AlreadyThere? <==>
          && io.target.Some? && Noted(io, io.writes.resolving) && Noted(io, io.writes.skipped)
          && PlanUpgrade(w, Before(w, h, io), io.target.value).Skip?)
  }

  lemma GoAheadEndings(w: World, c: Component, h: Site, h1: Site, io: UpgradeIo)
    requires h1 == h.(status := h1.status)
    requires io.target.Some? && PlanUpgrade(w, Before(w, h, io), io.target.value).Proceed?
    requires Noted(io, io.writes.resolving)
    ensures EndsAsDecided(w, c, h, io, BackUpAndSwap(w, c, h1, Before(w, h, io), io.target.value, io).1)
  {
    hide Swap, BackUpBoth, PlanUpgrade, BinaryBackupWorks, WebBackupWorks, RecoverWorks, ReplaceWorks, ReplaceAndVerify;
    var current := Before(w, h, io);
    var h2 := Note(h1, io, io.writes.preparing, Running).1;
    var b := BackUpBoth(c, h, current, io);
    BackUpBothWorks(w, c, h, io);
    if io.release.Some? {
      var rel, target, wasActive := io.release.value, io.target.value, WasActive(c, h, io);
      var h3 := h2.(backups := b.backups);
      assert BackUpBoth(c, h2, current, io) == b by {
        SameBackups(c, h, h2, current, io);
      }
      SwapEndings(w, c, h3, rel, target, b.binary, b.web, io);
      SameReplace(w, c, h, h3, rel, target, wasActive, io.replace);
      ReplaceLeaves(w, c, h.(backups := b.backups), h3, rel, target, wasActive, io.replace);
      assert RecoverWorks(c, ReplaceAndVerify(w, c, h3, rel, target, wasActive, io.replace).1,
          b.binary, b.web, wasActive, io.recover) == Recovers(w, c, h, io) by {
        SameRecover(c, ReplaceAndVerify(w, c, h3, rel, target, wasActive, io.replace).1,
          ReplaceAndVerify(w, c, h.(backups := b.backups), rel, target, wasActive, io.replace).1,
          b.binary, b.web, wasActive, io.recover);
      }
    }
  }

  lemma SameRecover(
    c: Component, h: Site, h': Site, binaryBackup: Option<string>, webBackup: Option<string>, wasActive: bool,
    io: RecoverIo)
    requires h'.binary == h.binary && h'.web == h.web && h'.backups == h.backups
    ensures RecoverWorks(c, h', binaryBackup, webBackup, wasActive, io)
      == RecoverWorks(c, h, binaryBackup, webBackup, wasActive, io)
  {
  }

  lemma SameBackups(c: Component, h: Site, h1: Site, current: Query, io: UpgradeIo)
    requires h1 == h.(status := h1.status)
    ensures BackUpBoth(c, h1, current, io) == BackUpBoth(c, h, current, io)
  {
  }

  lemma EndingsAreDecided(w: World, c: Component, h: Site, io: UpgradeIo)
    ensures EndsAsDecided(w, c, h, io, UpgradeCommand(w, c, h, io).1)
  {
    hide BackUpAndSwap, BinaryBackupWorks, WebBackupWorks, Recovers, Replaces, SameVersion, Installed, EndsAsDecided;
    var (noted, h1) := Note(h, io, io.writes.resolving, Running);
    if noted && io.target.Some? && PlanUpgrade(w, Before(w, h, io), io.target.value).Proceed? {
      GoAheadEndings(w, c, h, h1, io);
    } else {
      EarlyEndings(w, c, h, io, UpgradeCommand(w, c, h, io).1);
    }
  }

  lemma EarlyEndings(w: World, c: Component, h: Site, io: UpgradeIo, e: Ended)
    requires !(Noted(io, io.writes.resolving) && io.target.Some?
               && PlanUpgrade(w, Before(w, h, io), io.target.value).Proceed?)
    requires e == if Noted(io, io.writes.resolving) && io.target.Some? && Noted(io, io.writes.skipped)
                     && PlanUpgrade(w, Before(w, h, io), io.target.value).Skip?
                  then AlreadyThere else Aborted
    ensures EndsAsDecided(w, c, h, io, e)
  {
    hide PlanUpgrade, BinaryBackupWorks, WebBackupWorks, Recovers, Replaces;
  }

  /** The truth about a machine after an upgrade; every exception is a condition on its inputs. */
  ghost predicate Truthful(w: World, c: Component, h: Site, io: UpgradeIo, post: Site, e: Ended) {
    var current := Before(w, h, io);
    && (Report(e) == Succeeded || ReportLost(w, c, h, io) ==>
          if io.target.None? then false
          else if current.Known? && SameVersion(w, current.version, io.target.value)
          then post == h.(status := post.status)
          else
            io.release.Some? && IsLive(w, c, h, io.release.value, io.target.value, post) && post.active == h.active)
    && (Report(e) == RolledBack ==>
          && post.binary == h.binary && post.active == h.active
          && (post.web == h.web <==> WebLabelClean(c, h, current, io)))
    && (Report(e) == Failed && !RecoveryLost(w, c, h, io) && !ReportLost(w, c, h, io) ==>
          && post.binary == h.binary && post.web == h.web
          && (post.active == h.active <==> !(StopsShort(w, c, h, io) && WasActive(c, h, io) && io.stops)))
    && (RecoveryLost(w, c, h, io) || ReportLost(w, c, h, io) || StopsShort(w, c, h, io) ==> Report(e) == Failed)
    && (RecoveryLost(w, c, h, io) ==> !CleanRecover(io.recover))
  }

  /**
   * The outcome of an upgrade is the truth about the machine, on every failure path.
   *  - Success: the release is live, reports the target version, and the service runs as before;
   *    or the live version already was the target and nothing but the status file changed.
   *  - Rolled back: binary and service are exactly as before, and so is the web console if and
   *    only if no stale web backup of the same label had paths of its own.
   *  - Failed: nothing live changed (the service alone stays stopped exactly when the status
   *    write after stopping it failed), or recovery itself failed, or only the last report did.
   */
  lemma UpgradeIsTruthful(w: World, c: Component, h: Site, io: UpgradeIo)
    ensures Truthful(w, c, h, io, UpgradeCommand(w, c, h, io).0, UpgradeCommand(w, c, h, io).1)
  {
    EndingsAreDecided(w, c, h, io);
    UpgradeIsTrue(w, c, h, io);
    hide UpgradeCommand, BinaryBackupWorks, WebBackupWorks, Recovers, Replaces, WebLabelClean, CleanRecover, IsLive;
  }

  lemma UpgradeIsTrue(w: World, c: Component, h: Site, io: UpgradeIo)
    ensures TrueByEnding(w, c, h, io, UpgradeCommand(w, c, h, io).0, UpgradeCommand(w, c, h, io).1)
  {
    hide PerformUpgrade, Covered, SameVersion;
    PerformIsTrue(w, c, h, io);
  }

  /** The status file ends on the true outcome, or (writes failing) on an earlier record; never on a false outcome. */
  lemma StatusFileNeverLies(w: World, c: Component, h: Site, io: UpgradeIo)
    ensures var (post, e) := UpgradeCommand(w, c, h, io);
      if io.statusFile && io.writes.finish then post.status == Some(Report(e))
      else post.status in {h.status, Some(Running)}
  {
    hide BackUpAndSwap;
    var h1, current := Note(h, io, io.writes.resolving, Running).1, Before(w, h, io);
    if io.target.Some? {
      GoAheadStatus(w, c, h1, current, io.target.value, io);
    }
  }

  lemma GoAheadStatus(w: World, c: Component, h: Site, current: Query, target: string, io: UpgradeIo)
    ensures BackUpAndSwap(w, c, h, current, target, io).0.status in {h.status, Some(Running)}
    ensures !io.statusFile ==> BackUpAndSwap(w, c, h, current, target, io).0.status == h.status
  {
    hide Swap, BackUpBoth, PruneAfter;
    var h1 := Note(h, io, io.writes.preparing, Running).1;
    var b := BackUpBoth(c, h1, current, io);
    if io.release.Some? {
      SwapFacts(w, c, h1.(backups := b.backups), io.release.value, target, b.binary, b.web, io);
    }
  }

  /** A known version is never lowered, unless recovery itself failed. */
  lemma NeverLowered(w: World, c: Component, h: Site, io: UpgradeIo)
    requires h.binary.Some? && VersionOf(w, h.binary.value).Some?
    requires w.rank(VersionOf(w, h.binary.value).value).Some?
    requires !RecoveryLost(w, c, h, io)
    ensures var post := UpgradeCommand(w, c, h, io).0;
      && post.binary.Some? && VersionOf(w, post.binary.value).Some?
      && w.rank(VersionOf(w, post.binary.value).value).Some?
      && w.rank(VersionOf(w, h.binary.value).value).value <= w.rank(VersionOf(w, post.binary.value).value).value
  {
    UpgradeIsTrue(w, c, h, io);
    EndingsAreDecided(w, c, h, io);
    hide UpgradeCommand, WebLabelClean, CleanRecover, BinaryBackupWorks, WebBackupWorks, Recovers, Replaces;
  }

  // ----- when it does succeed

  predicate CleanWrites(io: UpgradeIo) {
    !io.statusFile ||
    (io.writes.resolving && io.writes.skipped && io.writes.preparing && io.writes.replacing && io.writes.completed)
  }

  /** No backup of the same label has a directory where the live tree has a file, or the reverse. */
  predicate LabelsFit(c: Component, h: Site, current: Query, io: UpgradeIo) {
    && (h.binary.Some? ==> Overlay(h.binary.value, Stored(h.backups, Some(BinaryBackup(c, current, io)))).Some?)
    && (c.WithWeb() && h.web.Some? ==> Overlay(h.web.value, Stored(h.backups, Some(WebBackup(current, io)))).Some?)
  }

  /** A fault-free upgrade to a release that reports the target version succeeds. */
  lemma FaultFreeUpgradeSucceeds(w: World, c: Component, h: Site, io: UpgradeIo)
    requires io.target.Some? && PlanUpgrade(w, Before(w, h, io), io.target.value).Proceed?
    requires io.release.Some? && Reports(w, io.release.value, io.target.value)
    requires CleanWrites(io) && CleanReplace(io.replace)
    requires io.backupDir && !io.backupBinary.fails && !io.backupWeb.fails
    requires LabelsFit(c, h, Before(w, h, io), io)
    ensures UpgradeCommand(w, c, h, io).1.Completed?
  {
    hide Swap, BackUpBoth;
    var current := Before(w, h, io);
    var h1 := Note(h, io, io.writes.resolving, Running).1;
    var h2 := Note(h1, io, io.writes.preparing, Running).1;
    var b := BackUpBoth(c, h2, current, io);
    CleanBackUpWorks(c, h2, current, io);
    SwapCompletes(w, c, h2.(backups := b.backups), io.release.value, io.target.value, b.binary, b.web, io);
  }

  /**
   * Whatever goes wrong while files are replaced and the new version is verified, a working
   * recovery makes the upgrade end rolled back: there is no third way.
   */
  lemma SucceedsOrRollsBack(w: World, c: Component, h: Site, io: UpgradeIo)
    requires io.target.Some? && PlanUpgrade(w, Before(w, h, io), io.target.value).Proceed?
    requires io.release.Some? && CleanWrites(io) && CleanRecover(io.recover)
    requires io.backupDir && !io.backupBinary.fails && !io.backupWeb.fails
    requires LabelsFit(c, h, Before(w, h, io), io)
    ensures var e := UpgradeCommand(w, c, h, io).1;
      && (e.Completed? || e.Restored?)
      && (!io.replace.moved ==> e.Restored?)
  {
    hide Swap, BackUpBoth, PruneAfter, CleanRecover;
    var current := Before(w, h, io);
    var h1 := Note(h, io, io.writes.resolving, Running).1;
    var h2 := Note(h1, io, io.writes.preparing, Running).1;
    var b := BackUpBoth(c, h2, current, io);
    CleanBackUpWorks(c, h2, current, io);
    var h3 := h2.(backups := b.backups);
    SwapFacts(w, c, h3, io.release.value, io.target.value, b.binary, b.web, io);
    SwapEndings(w, c, h3, io.release.value, io.target.value, b.binary, b.web, io);
  }

  lemma CleanBackUpWorks(c: Component, h: Site, current: Query, io: UpgradeIo)
    requires !io.backupBinary.fails && !io.backupWeb.fails && LabelsFit(c, h, current, io)
    ensures BackUpBoth(c, h, current, io).ok
  {
    hide BackupExisting;
    BackupNamesDiffer(c, current, io);
    BackupFacts(h.backups, h.binary, BinaryBackup(c, current, io), io.now, io.backupBinary);
    var b1 := BackupExisting(h.backups, h.binary, BinaryBackup(c, current, io), io.now, io.backupBinary).1;
    assert Get(b1, WebBackup(current, io)) == Get(h.backups, WebBackup(current, io));
    BackupFacts(b1, h.web, WebBackup(current, io), io.now, io.backupWeb);
  }

  lemma SwapCompletes(
    w: World, c: Component, h: Site, rel: Release, target: string,
    binaryBackup: Option<string>, webBackup: Option<string>, io: UpgradeIo)
    requires CleanWrites(io) && CleanReplace(io.replace) && Reports(w, rel, target)
    requires h.binary.Some? ==> h.binary.value.File?
    ensures Swap(w, c, h, rel, target, binaryBackup, webBackup, io).1.Completed?
  {
    hide ReplaceAndVerify, Recover, PruneAfter;
    var wasActive := WasActive(c, h, io);
    var h1 := if wasActive && io.stops then h.(active := false) else h;
    ReplaceFacts(w, c, Note(h1, io, io.writes.replacing, Running).1, rel, target, wasActive, io.replace);
  }

  // ----- what is decided, and what the parts leave when they fail

  /** What `binary --version` answers: nothing for an absent binary, an error for one that does not run. */
  lemma InstalledExactly(w: World, binary: Option<Tree>, runs: bool)
    ensures Installed(w, binary, runs).Absent? <==> binary.None?
    ensures forall v :: Installed(w, binary, runs) == Known(v) <==>
      binary.Some? && runs && binary.value.File? && w.reports(binary.value.bytes) == Some(v)
  {
  }

  /**
   * The upgrade goes ahead if and only if nothing is installed or an older version is; it is skipped if
   * and only if the very version is; otherwise (a version unknown, not a version, or newer) it is refused.
   */
  lemma PlannedExactly(w: World, current: Query, target: string)
    ensures PlanUpgrade(w, current, target).Proceed? <==>
      current.Absent? ||
      (current.Known? && w.rank(current.version).Some? && w.rank(target).Some?
       && w.rank(current.version).value < w.rank(target).value)
    ensures PlanUpgrade(w, current, target).Skip? <==>
      current.Known? && w.rank(current.version).Some? && w.rank(target).Some?
      && w.rank(current.version).value == w.rank(target).value
  {
  }

  /** What the status file and the caller are told, by what happened. */
  lemma ReportedExactly(w: World, c: Component, h: Site, io: UpgradeIo)
    ensures var e := UpgradeCommand(w, c, h, io).1;
      && (Report(e) == Succeeded <==>
            || (Underway(w, c, h, io) && Noted(io, io.writes.replacing) && Replaces(w, c, h, io)
                && Noted(io, io.writes.completed))
            || (io.target.Some? && Noted(io, io.writes.resolving) && Noted(io, io.writes.skipped)
                && PlanUpgrade(w, Before(w, h, io), io.target.value).Skip?))
      && (Report(e) == RolledBack <==>
            && Underway(w, c, h, io) && Noted(io, io.writes.replacing) && !Replaces(w, c, h, io)
            && Recovers(w, c, h, io))
      && Report(e) != Running
  {
    EndingsAreDecided(w, c, h, io);
    hide UpgradeCommand, Underway, Replaces, Recovers, PlanUpgrade;
  }

  /** What a restore that fails leaves: what the failed removal left, or what the failed copy into the gap did. */
  lemma RestoreLeaves(dst: Option<Tree>, backup: Option<Tree>, rm: RemoveIo, cp: CopyIo)
    requires !RestoreWorks(dst, backup, rm, cp)
    ensures RestorePath(dst, backup, rm, cp) ==
      (false, if dst.Some? && rm.fails then rm.left else if cp.touched then cp.left else None)
  {
    CopyToAbsent(backup.Or(Dir(map[])));
  }

  /**
   * A replacement stops at its first error: the console is touched only once the binary is in place and
   * executable, the service only once both are live and the version is right.
   */
  lemma ReplaceStopsAtTheFirstError(
    w: World, c: Component, h: Site, rel: Release, target: string, wasActive: bool, io: ReplaceIo)
    requires !ReplaceWorks(w, c, h, rel, target, wasActive, io)
    ensures var post := ReplaceAndVerify(w, c, h, rel, target, wasActive, io).1;
      var moved := io.moved && (h.binary.Some? ==> h.binary.value.File?);
      var webWorks := c.WithWeb() ==> !(h.web.Some? && io.removeWeb.fails) && io.parentDir && !io.moveWeb.fails;
      && post.binary == (if moved then Some(File(rel.binary)) else h.binary)
      && (!moved || !io.moveOk || !io.chmod ==> post.web == h.web && post.active == h.active)
      && (!webWorks || !io.query || !Reports(w, rel, target) ==> post.active == h.active)
      && (moved && io.moveOk && io.chmod && c.WithWeb() ==>
            post.web ==
              if h.web.Some? && io.removeWeb.fails then io.removeWeb.left
              else if !io.parentDir then None
              else if !io.moveWeb.fails then Some(Dir(rel.web))
              else if io.moveWeb.touched then io.moveWeb.left else None)
      && (post.active != h.active ==> post.active == io.service.activeAfterFailure)
  {
    CopyToAbsent(Dir(rel.web));
  }

  /** A recovery tries everything: each part is restored if its own restore works, whatever the others do. */
  lemma RecoveryTriesEverything(
    c: Component, h: Site, binaryBackup: Option<string>, webBackup: Option<string>, wasActive: bool, io: RecoverIo)
    ensures var post := Recover(c, h, binaryBackup, webBackup, wasActive, io).1;
      && (RestoreWorks(h.binary, Stored(h.backups, binaryBackup), io.removeBinary, io.copyBinary) ==>
            post.binary == Stored(h.backups, binaryBackup))
      && (c.WithWeb() && RestoreWorks(h.web, Stored(h.backups, webBackup), io.removeWeb, io.copyWeb) ==>
            post.web == Stored(h.backups, webBackup))
      && (wasActive ==> post.active == (CleanService(io.service) || io.service.activeAfterFailure))
      && (!wasActive ==> post.active == h.active)
  {
    RestoreFacts(h.binary, Stored(h.backups, binaryBackup), io.removeBinary, io.copyBinary);
    RestoreFacts(h.web, Stored(h.backups, webBackup), io.removeWeb, io.copyWeb);
  }

  /** Backups are named after the version that is installed, or after the time when there is none. */
  lemma BackupsAreNamedAfterTheVersion(c: Component, current: Query, io: UpgradeIo)
    ensures var name, webName := BinaryBackup(c, current, io), WebBackup(current, io);
      var stamp := if current.Known? then current.version else io.stamp;
      && name == c.Binary() + "." + stamp + ".bak" && webName == "web-dist." + stamp + ".bak"
  {
    assert WEB_DIST + "." == "web-dist.";
  }

  /** The three components, as their names are parsed. */
  lemma Components()
    ensures Hub.Binary() == "proxy-panel-hub" && Hub.HasUnit() && Hub.WithWeb()
    ensures Agent.Binary() == "proxy-panel-agent" && Agent.HasUnit() && !Agent.WithWeb()
    ensures Cli.Binary() == "proxy-panel" && !Cli.HasUnit() && !Cli.WithWeb()
  {
  }
}
