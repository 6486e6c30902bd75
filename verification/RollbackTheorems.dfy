/** Rollback, and runs of upgrades and rollbacks. */
module RollbackTheorems {
  import opened Prelude
  import opened FileTree
  import opened Backups
  import opened Upgrade
  import opened UpgradeTheorems

  /** A backup made at `now`, newer than every other backup of the component. */
  ghost predicate StrictlyNewest(dir: BackupDir, component: string, n: string, now: int) {
    && n in dir && IsBackupOf(n, component) && dir[n].modified == now
    && forall m :: m in dir && IsBackupOf(m, component) && m != n ==> dir[m].modified < now
  }

  lemma StrictlyNewestIsLatest(dir: BackupDir, listing: seq<string>, component: string, n: string, now: int)
    requires Lists(listing, dir) && StrictlyNewest(dir, component, n, now)
    ensures Latest(dir, listing, component) == Some(n)
  {
    LatestIsNewest(dir, listing, component);
  }

  lemma PruneKeepsStrictlyNewest(
    dir: BackupDir, listing: seq<string>, component: string, stuck: BackupDir, n: string, now: int)
    requires Reads(listing, dir) && StrictlyNewest(dir, component, n, now)
    requires forall m :: m in stuck ==> stuck[m].modified < now
    ensures StrictlyNewest(Pruned(dir, listing, component, stuck), component, n, now)
    ensures Get(Pruned(dir, listing, component, stuck), n) == Get(dir, n)
  {
    hide Pruned;
    PruneSparesNewest(dir, listing, component, stuck, n);
    var after := Pruned(dir, listing, component, stuck);
    assert n in after && after[n] == dir[n];
    forall m | m in after && m != n && IsBackupOf(m, component)
      ensures after[m].modified < now
    {
      assert Get(after, m) in {Get(dir, m), Get(stuck, m)};
    }
  }

  lemma PruneElsewhereKeepsStrictlyNewest(
    dir: BackupDir, listing: seq<string>, other: string, component: string, stuck: BackupDir, n: string, now: int)
    requires '.' !in other && '.' !in component && other != component
    requires StrictlyNewest(dir, component, n, now)
    ensures StrictlyNewest(Pruned(dir, listing, other, stuck), component, n, now)
    ensures Get(Pruned(dir, listing, other, stuck), n) == Get(dir, n)
  {
    hide Pruned;
    var after := Pruned(dir, listing, other, stuck);
    forall m | IsBackupOf(m, component)
      ensures Get(after, m) == Get(dir, m)
    {
      PruneIsolated(dir, listing, other, component, stuck, m);
    }
    assert Get(after, n) == Get(dir, n);
    forall m | m in after && IsBackupOf(m, component) && m != n
      ensures after[m].modified < now
    {
      assert Get(after, m) == Get(dir, m);
    }
  }

  lemma NamesHaveNoDots(c: Component)
    ensures '.' !in c.Binary() && '.' !in WEB_DIST && c.Binary() != WEB_DIST
  {
    assert c.Binary()[0] == 'p' && WEB_DIST[0] == 'w';
  }

  /** A rollback that succeeds puts back the newest backups and changes neither backups nor service. */
  lemma RollbackFacts(c: Component, h: Site, io: RollbackIo)
    ensures var (ok, post) := RollbackCommand(c, h, io);
      && post.backups == h.backups && post.status == h.status
      && (!c.WithWeb() ==> post.web == h.web)
      && (ok ==>
            && post.active == h.active && !c.Cli?
            && Newest(h.backups, io.listing, c.Binary()).Some?
            && post.binary == Stored(h.backups, Newest(h.backups, io.listing, c.Binary()))
            && (c.WithWeb() ==> post.web == Stored(h.backups, Newest(h.backups, io.webListing, WEB_DIST))))
  {
    hide Newest;
    RestoreFacts(
      h.binary, Stored(h.backups, Newest(h.backups, io.listing, c.Binary())), io.removeBinary, io.copyBinary);
    RestoreFacts(h.web, Stored(h.backups, Newest(h.backups, io.webListing, WEB_DIST)), io.removeWeb, io.copyWeb);
  }

  predicate RollbackWasActive(c: Component, h: Site, io: RollbackIo) {
    c.HasUnit() && io.probe && h.active
  }

  ghost predicate HasBackups(c: Component, h: Site, io: RollbackIo) {
    && !c.Cli? && Newest(h.backups, io.listing, c.Binary()).Some?
    && (c.WithWeb() ==> Newest(h.backups, io.webListing, WEB_DIST).Some?)
  }

  /** What a rollback would install for a component from a backup directory. */
  function Pick(backups: BackupDir, listing: Option<seq<string>>, component: string): Option<Tree> {
    Stored(backups, Newest(backups, listing, component))
  }

  /** The binary can be restored from its newest backup. */
  predicate BinaryRestores(c: Component, h: Site, io: RollbackIo) {
    RestoreWorks(h.binary, Pick(h.backups, io.listing, c.Binary()), io.removeBinary, io.copyBinary)
  }

  predicate WebRestores(c: Component, h: Site, io: RollbackIo) {
    c.WithWeb() ==> RestoreWorks(h.web, Pick(h.backups, io.webListing, WEB_DIST), io.removeWeb, io.copyWeb)
  }

  /**
   * A rollback succeeds if and only if there are backups, both restores work and the service comes
   * back.  It stops at the first of these to fail: without backups nothing changed; a failed restore
   * leaves the later one undone and a stopped service down; at the restart all files are restored.
   */
  lemma RollbackStopsAtTheFirstError(c: Component, h: Site, io: RollbackIo)
    ensures var (ok, post) := RollbackCommand(c, h, io);
      var wasActive := RollbackWasActive(c, h, io);
      var down := post.active == (h.active && !(wasActive && io.stops));
      && (ok <==>
            && HasBackups(c, h, io) && BinaryRestores(c, h, io) && WebRestores(c, h, io)
            && (wasActive ==> CleanService(io.service)))
      && (!ok ==>
            if !HasBackups(c, h, io) then post == h
            else if !BinaryRestores(c, h, io) then post.web == h.web && down
            else
              && post.binary == Pick(h.backups, io.listing, c.Binary())
              && if !WebRestores(c, h, io) then down
                 else
                   && (c.WithWeb() ==> post.web == Pick(h.backups, io.webListing, WEB_DIST))
                   && wasActive && post.active == io.service.activeAfterFailure)
  {
    hide Newest, RestorePath, RestoreWorks;
    RestoreFacts(h.binary, Pick(h.backups, io.listing, c.Binary()), io.removeBinary, io.copyBinary);
    RestoreFacts(h.web, Pick(h.backups, io.webListing, WEB_DIST), io.removeWeb, io.copyWeb);
  }

  /** The clock gives this upgrade's backups a later time than anything in the directory. */
  ghost predicate LatestClock(h: Site, io: UpgradeIo) {
    && (forall n :: n in h.backups ==> h.backups[n].modified < io.now)
    && (forall n :: n in io.pruneBinary.stuck ==> io.pruneBinary.stuck[n].modified < io.now)
    && (forall n :: n in io.pruneWeb.stuck ==> io.pruneWeb.stuck[n].modified < io.now)
  }

  /** The scans of the backup directory see only what is there (they may stop early). */
  ghost predicate TrueScans(c: Component, backups: BackupDir, io: UpgradeIo) {
    && Reads(io.pruneBinary.listing, backups)
    && Reads(io.pruneWeb.listing, Pruned(backups, io.pruneBinary.listing, c.Binary(), io.pruneBinary.stuck))
  }

  lemma BackUpBothNewest(c: Component, h: Site, current: Query, io: UpgradeIo)
    requires BackUpBoth(c, h, current, io).ok && LatestClock(h, io) && h.binary.Some?
    ensures var b := BackUpBoth(c, h, current, io);
      && b.binary.Some? && StrictlyNewest(b.backups, c.Binary(), b.binary.value, io.now)
      && (c.WithWeb() && h.web.Some? ==> b.web.Some? && StrictlyNewest(b.backups, WEB_DIST, b.web.value, io.now))
  {
    hide BackupExisting;
    BackupNamesDiffer(c, current, io);
    NamesHaveNoDots(c);
    var name, webName := BinaryBackup(c, current, io), WebBackup(current, io);
    BackupNameMatches(c.Binary(), Label(current, io));
    BackupNameMatches(WEB_DIST, Label(current, io));
    BackupFacts(h.backups, h.binary, name, io.now, io.backupBinary);
    var b1 := BackupExisting(h.backups, h.binary, name, io.now, io.backupBinary).1;
    BackupFacts(b1, h.web, webName, io.now, io.backupWeb);
    var b := BackUpBoth(c, h, current, io).backups;
    forall m: string | m != name && m != webName
      ensures Get(b, m) == Get(h.backups, m)
    {
      assert Get(b1, m) == Get(h.backups, m);
    }
    assert Get(b, name) == Get(b1, name);
    if IsBackupOf(webName, c.Binary()) {
      OneOwner(webName, c.Binary(), WEB_DIST);
    }
    if IsBackupOf(name, WEB_DIST) {
      OneOwner(name, c.Binary(), WEB_DIST);
    }
    forall m | m in b && m != name && m != webName
      ensures b[m].modified < io.now
    {
      assert Get(b, m) == Get(h.backups, m);
    }
  }

  lemma PruneAfterNewest(c: Component, backups: BackupDir, io: UpgradeIo, binary: string, web: Option<string>)
    requires TrueScans(c, backups, io)
    requires forall n :: n in io.pruneBinary.stuck ==> io.pruneBinary.stuck[n].modified < io.now
    requires forall n :: n in io.pruneWeb.stuck ==> io.pruneWeb.stuck[n].modified < io.now
    requires StrictlyNewest(backups, c.Binary(), binary, io.now)
    requires c.WithWeb() ==> web.Some? && StrictlyNewest(backups, WEB_DIST, web.value, io.now)
    ensures var after := PruneAfter(c, backups, io);
      && StrictlyNewest(after, c.Binary(), binary, io.now) && Get(after, binary) == Get(backups, binary)
      && (c.WithWeb() ==>
            StrictlyNewest(after, WEB_DIST, web.value, io.now) && Get(after, web.value) == Get(backups, web.value))
  {
    hide Pruned, StrictlyNewest;
    NamesHaveNoDots(c);
    var b := Pruned(backups, io.pruneBinary.listing, c.Binary(), io.pruneBinary.stuck);
    PruneKeepsStrictlyNewest(backups, io.pruneBinary.listing, c.Binary(), io.pruneBinary.stuck, binary, io.now);
    if c.WithWeb() {
      PruneElsewhereKeepsStrictlyNewest(
        backups, io.pruneBinary.listing, c.Binary(), WEB_DIST, io.pruneBinary.stuck, web.value, io.now);
      PruneKeepsStrictlyNewest(b, io.pruneWeb.listing, WEB_DIST, io.pruneWeb.stuck, web.value, io.now);
      PruneElsewhereKeepsStrictlyNewest(
        b, io.pruneWeb.listing, WEB_DIST, c.Binary(), io.pruneWeb.stuck, binary, io.now);
    }
  }

  // ----- what pruning leaves of an upgrade's backups

  /** The upgrade gets through the replacement, so that it prunes. */
  predicate Prunes(w: World, c: Component, h: Site, io: UpgradeIo) {
    Underway(w, c, h, io) && Noted(io, io.writes.replacing) && Replaces(w, c, h, io)
  }

  /** The first scan lists the whole directory; the second at least every console backup. */
  ghost predicate FullScans(c: Component, backups: BackupDir, io: UpgradeIo) {
    && TrueScans(c, backups, io)
    && Lists(io.pruneBinary.listing, backups)
    && (c.WithWeb() ==> forall n :: n in backups && IsBackupOf(n, WEB_DIST) ==> n in io.pruneWeb.listing)
  }

  lemma PruneAfterEffect(
    c: Component, backups: BackupDir, io: UpgradeIo, binary: string, web: Option<string>, n: string)
    requires FullScans(c, backups, io)
    requires StrictlyNewest(backups, c.Binary(), binary, io.now)
    requires c.WithWeb() && web.Some? ==> StrictlyNewest(backups, WEB_DIST, web.value, io.now)
    ensures var after := PruneAfter(c, backups, io);
      && (IsBackupOf(n, c.Binary()) && n != binary && n in backups ==> Get(after, n) == Get(io.pruneBinary.stuck, n))
      && (IsBackupOf(n, c.Binary()) && (n == binary || n !in backups) ==> Get(after, n) == Get(backups, n))
      && (IsBackupOf(n, WEB_DIST) && !c.WithWeb() ==> Get(after, n) == Get(backups, n))
      && (IsBackupOf(n, WEB_DIST) && c.WithWeb() && web.Some? && n != web.value && n in backups ==>
            Get(after, n) == Get(io.pruneWeb.stuck, n))
      && (IsBackupOf(n, WEB_DIST) && c.WithWeb() && web.Some? && (n == web.value || n !in backups) ==>
            Get(after, n) == Get(backups, n))
      && (!IsBackupOf(n, c.Binary()) && !IsBackupOf(n, WEB_DIST) ==> Get(after, n) == Get(backups, n))
  {
    NamesHaveNoDots(c);
    if IsBackupOf(n, c.Binary()) && IsBackupOf(n, WEB_DIST) {
      OneOwner(n, c.Binary(), WEB_DIST);
    }
    var b := Pruned(backups, io.pruneBinary.listing, c.Binary(), io.pruneBinary.stuck);
    PruneEffect(backups, io.pruneBinary.listing, c.Binary(), io.pruneBinary.stuck, n);
    StrictlyNewestIsLatest(backups, io.pruneBinary.listing, c.Binary(), binary, io.now);
    if c.WithWeb() {
      PruneEffect(b, io.pruneWeb.listing, WEB_DIST, io.pruneWeb.stuck, n);
      if web.Some? {
        SecondPruneKeepsNewest(c, backups, io, web.value);
      }
    }
    hide Pruned, Latest, Lists, StrictlyNewest, IsBackupOf;
  }

  /** The newest console backup is the first of the second scan's ranking as well. */
  lemma SecondPruneKeepsNewest(c: Component, backups: BackupDir, io: UpgradeIo, web: string)
    requires FullScans(c, backups, io) && c.WithWeb()
    requires StrictlyNewest(backups, WEB_DIST, web, io.now)
    ensures var b := Pruned(backups, io.pruneBinary.listing, c.Binary(), io.pruneBinary.stuck);
      Latest(b, io.pruneWeb.listing, WEB_DIST) == Some(web)
  {
    NamesHaveNoDots(c);
    var b := Pruned(backups, io.pruneBinary.listing, c.Binary(), io.pruneBinary.stuck);
    PruneElsewhereKeepsStrictlyNewest(
      backups, io.pruneBinary.listing, c.Binary(), WEB_DIST, io.pruneBinary.stuck, web, io.now);
    RankedMembers(b, io.pruneWeb.listing, WEB_DIST);
    NewestFirstSorts(Candidates(b, io.pruneWeb.listing, WEB_DIST));
    var r := Ranked(b, io.pruneWeb.listing, WEB_DIST);
    assert Candidate(web, b[web].modified) in r;
    assert r[0] in r;
    hide Ranked, Pruned, Candidates, NewestFirst;
  }

  /**
   * After an upgrade that got through, the one backup of the component is the one it made, which holds
   * the previous binary, and of the console likewise; an older one is there only as far as its removal
   * failed.  Whatever is neither's is unaltered.
   */
  lemma UpgradeKeepsOneBackup(w: World, c: Component, h: Site, io: UpgradeIo, n: string)
    requires Prunes(w, c, h, io) && LatestClock(h, io) && h.binary.Some?
    requires FullScans(c, BackUpBoth(c, h, Before(w, h, io), io).backups, io)
    ensures var after := UpgradeCommand(w, c, h, io).0.backups; var current := Before(w, h, io);
      var name, webName := BinaryBackup(c, current, io), WebBackup(current, io);
      && Get(after, name) == Some(Backup(h.binary.value, io.now))
      && (IsBackupOf(n, c.Binary()) && n != name ==>
            Get(after, n) == if n in h.backups then Get(io.pruneBinary.stuck, n) else None)
      && (c.WithWeb() && h.web.Some? ==> webName in after && after[webName].modified == io.now)
      && (c.WithWeb() && h.web.Some? && IsBackupOf(n, WEB_DIST) && n != webName ==>
            Get(after, n) == if n in h.backups then Get(io.pruneWeb.stuck, n) else None)
      && (!IsBackupOf(n, c.Binary()) && !(c.WithWeb() && IsBackupOf(n, WEB_DIST)) ==>
            Get(after, n) == Get(h.backups, n))
  {
    var current := Before(w, h, io);
    var b := BackUpBoth(c, h, current, io);
    var name, webName := BinaryBackup(c, current, io), WebBackup(current, io);
    EndingsAreDecided(w, c, h, io);
    UpgradeBackups(w, c, h, io);
    BackUpBothWorks(w, c, h, io);
    BackUpBothNames(c, h, current, io, n);
    BackUpBothNewest(c, h, current, io);
    BackUpBothFacts(c, h, current, io);
    hide UpgradeCommand, BackUpBoth, PruneAfter, Underway, Replaces, Recovers, LatestClock, StrictlyNewest;
    PruneAfterEffect(c, b.backups, io, name, b.web, n);
    PruneAfterEffect(c, b.backups, io, name, b.web, name);
    PruneAfterEffect(c, b.backups, io, name, b.web, webName);
    hide FullScans;
  }

  lemma BackUpBothNames(c: Component, h: Site, current: Query, io: UpgradeIo, n: string)
    requires BackUpBoth(c, h, current, io).ok
    ensures var b := BackUpBoth(c, h, current, io);
      var name, webName := BinaryBackup(c, current, io), WebBackup(current, io);
      && IsBackupOf(name, c.Binary()) && IsBackupOf(webName, WEB_DIST)
      && !IsBackupOf(webName, c.Binary()) && !IsBackupOf(name, WEB_DIST)
      && (b.binary == if h.binary.Some? then Some(name) else None)
      && (b.web == if c.WithWeb() && h.web.Some? then Some(webName) else None)
      && (h.binary.Some? ==> name in b.backups && b.backups[name].modified == io.now)
      && (c.WithWeb() && h.web.Some? ==> webName in b.backups && b.backups[webName].modified == io.now)
      && (n != name && n != webName ==> Get(b.backups, n) == Get(h.backups, n))
      && (n == webName && !c.WithWeb() ==> Get(b.backups, n) == Get(h.backups, n))
  {
    NamesHaveNoDots(c);
    BackupNameMatches(c.Binary(), Label(current, io));
    BackupNameMatches(WEB_DIST, Label(current, io));
    BackupNamesDiffer(c, current, io);
    var name, webName := BinaryBackup(c, current, io), WebBackup(current, io);
    if IsBackupOf(webName, c.Binary()) {
      OneOwner(webName, c.Binary(), WEB_DIST);
    }
    if IsBackupOf(name, WEB_DIST) {
      OneOwner(name, c.Binary(), WEB_DIST);
    }
    hide BackupExisting, BinaryBackup, WebBackup, IsBackupOf;
    BackupFacts(h.backups, h.binary, name, io.now, io.backupBinary);
    var b1 := BackupExisting(h.backups, h.binary, name, io.now, io.backupBinary).1;
    BackupFacts(b1, h.web, webName, io.now, io.backupWeb);
    assert Get(BackupExisting(b1, h.web, webName, io.now, io.backupWeb).1, name) == Get(b1, name);
  }

  /** The only ways an upgrade leaves the backup directory; the last two once both backups exist. */
  ghost predicate BackupsAfter(c: Component, h: Site, current: Query, io: UpgradeIo, post: Site, e: Ended) {
    var b := BackUpBoth(c, h, current, io);
    && (!c.WithWeb() ==> post.web == h.web)
    && (e.Aborted? ==> post.backups in {h.backups, b.backups})
    && (e.AlreadyThere? ==> post.backups == h.backups)
    && (!e.Aborted? && !e.AlreadyThere? ==>
          b.ok && post.backups == if e.Completed? || e.Unreported? then PruneAfter(c, b.backups, io) else b.backups)
  }

  lemma GoAheadBackups(w: World, c: Component, h: Site, current: Query, target: string, io: UpgradeIo)
    ensures var (post, e) := BackUpAndSwap(w, c, h, current, target, io); BackupsAfter(c, h, current, io, post, e)
  {
    hide Swap, PruneAfter, BackUpBoth;
    var h1 := Note(h, io, io.writes.preparing, Running).1;
    var b := BackUpBoth(c, h1, current, io);
    assert b == BackUpBoth(c, h, current, io) by {
      SameBackups(c, h, h1, current, io);
    }
    if io.release.Some? {
      SwapFacts(w, c, h1.(backups := b.backups), io.release.value, target, b.binary, b.web, io);
    }
  }

  lemma UpgradeBackups(w: World, c: Component, h: Site, io: UpgradeIo)
    ensures var (post, e) := UpgradeCommand(w, c, h, io);
      && BackupsAfter(c, h, Before(w, h, io), io, post, e)
      && (!e.Aborted? && h.binary.Some? ==> h.binary.value.File?)
  {
    hide BackUpAndSwap, PruneAfter, BackUpBoth;
    var h1, current := Note(h, io, io.writes.resolving, Running).1, Before(w, h, io);
    SameBackups(c, h, h1, current, io);
    if io.target.Some? {
      GoAheadBackups(w, c, h1, current, io.target.value, io);
    }
  }

  /**
   * Rolling back undoes an upgrade, whatever the backup directory held before and however the
   * upgrade ended once both backups existed (even when its own recovery failed): the binary is
   * the one from before, and so is the web console exactly when its backup label was clean.
   */
  lemma RollbackUndoesUpgrade(w: World, c: Component, h: Site, io: UpgradeIo, back: RollbackIo)
    requires h.binary.Some? && (c.WithWeb() ==> h.web.Some?)
    requires Underway(w, c, h, io)
    requires LatestClock(h, io) && TrueScans(c, BackUpBoth(c, h, Before(w, h, io), io).backups, io)
    requires RollbackCommand(c, UpgradeCommand(w, c, h, io).0, back).0
    requires back.listing.Some? ==> Lists(back.listing.value, UpgradeCommand(w, c, h, io).0.backups)
    requires back.webListing.Some? ==> Lists(back.webListing.value, UpgradeCommand(w, c, h, io).0.backups)
    ensures var mid := UpgradeCommand(w, c, h, io).0; var post := RollbackCommand(c, mid, back).1;
      && post.binary == h.binary
      && (c.WithWeb() ==> (post.web == h.web <==> WebLabelClean(c, h, Before(w, h, io), io)))
      && (!c.WithWeb() ==> post.web == h.web)
      && post.active == mid.active && post.backups == mid.backups
  {
    EndingsAreDecided(w, c, h, io);
    hide UpgradeCommand, BackUpBoth, PruneAfter, RollbackCommand, StrictlyNewest, Latest, Underway, Recovers, Replaces;
    var current := Before(w, h, io);
    var mid := UpgradeCommand(w, c, h, io).0;
    UpgradeBackups(w, c, h, io);
    var b := BackUpBoth(c, h, current, io);
    BackUpBothFacts(c, h, current, io);
    BackUpBothNewest(c, h, current, io);
    PruneAfterNewest(c, b.backups, io, b.binary.value, b.web);
    RollbackFacts(c, mid, back);
    var binary := b.binary.value;
    assert StrictlyNewest(mid.backups, c.Binary(), binary, io.now);
    assert Get(mid.backups, binary) == Get(b.backups, binary);
    StrictlyNewestIsLatest(mid.backups, back.listing.value, c.Binary(), binary, io.now);
    if c.WithWeb() {
      var web := b.web.value;
      assert StrictlyNewest(mid.backups, WEB_DIST, web, io.now) && Get(mid.backups, web) == Get(b.backups, web);
      assert back.webListing.Some? by {
        RollbackNeedsWeb(c, mid, back);
      }
      StrictlyNewestIsLatest(mid.backups, back.webListing.value, WEB_DIST, web, io.now);
    }
  }

  lemma RollbackNeedsWeb(c: Component, h: Site, io: RollbackIo)
    requires RollbackCommand(c, h, io).0
    ensures c.WithWeb() ==> io.webListing.Some?
  {
  }

  ghost predicate NoTies(dir: BackupDir, component: string) {
    forall m, n :: m in dir && n in dir && IsBackupOf(m, component) && IsBackupOf(n, component) && m != n ==>
      dir[m].modified != dir[n].modified
  }

  /** Backups are copied, not consumed: a second rollback changes nothing. */
  lemma SecondRollbackChangesNothing(c: Component, h: Site, first: RollbackIo, second: RollbackIo)
    requires RollbackCommand(c, h, first).0 && RollbackCommand(c, RollbackCommand(c, h, first).1, second).0
    requires forall l :: l in [first.listing, second.listing, first.webListing, second.webListing] && l.Some? ==>
      Lists(l.value, h.backups)
    requires NoTies(h.backups, c.Binary()) && NoTies(h.backups, WEB_DIST)
    ensures RollbackCommand(c, RollbackCommand(c, h, first).1, second).1 == RollbackCommand(c, h, first).1
  {
    hide RollbackCommand, Latest;
    var all := [first.listing, second.listing, first.webListing, second.webListing];
    assert all[0] in all && all[1] in all && all[2] in all && all[3] in all;
    RollbackFacts(c, h, first);
    RollbackFacts(c, RollbackCommand(c, h, first).1, second);
    LatestIsNewest(h.backups, first.listing.value, c.Binary());
    LatestIsNewest(h.backups, second.listing.value, c.Binary());
    if c.WithWeb() {
      RollbackNeedsWeb(c, h, first);
      RollbackNeedsWeb(c, RollbackCommand(c, h, first).1, second);
      LatestIsNewest(h.backups, first.webListing.value, WEB_DIST);
      LatestIsNewest(h.backups, second.webListing.value, WEB_DIST);
    }
  }

  // ----- rolling back after an upgrade that gave up early

  lemma {:induction false} SameCandidates(a: BackupDir, b: BackupDir, listing: seq<string>, component: string)
    requires forall n :: IsBackupOf(n, component) ==> Get(a, n) == Get(b, n)
    ensures Candidates(a, listing, component) == Candidates(b, listing, component)
  {
    if listing != [] {
      var n := listing[|listing| - 1];
      SameCandidates(a, b, listing[..|listing| - 1], component);
      assert IsBackupOf(n, component) ==> Get(a, n) == Get(b, n);
    }
  }

  /** What is picked for a component depends on its own backups only. */
  lemma SamePick(a: BackupDir, b: BackupDir, listing: Option<seq<string>>, component: string)
    requires forall n :: IsBackupOf(n, component) ==> Get(a, n) == Get(b, n)
    requires listing.Some? ==> Lists(listing.value, a)
    ensures Pick(a, listing, component) == Pick(b, listing, component)
  {
    if listing.Some? {
      SameCandidates(a, b, listing.value, component);
      LatestIsNewest(a, listing.value, component);
      assert Latest(a, listing.value, component) == Latest(b, listing.value, component);
      hide Ranked, Latest;
      var n := Latest(a, listing.value, component);
      assert n.Some? ==> Get(a, n.value) == Get(b, n.value);
    }
  }

  /** What is picked when one backup is newer than all others of its component. */
  lemma PickStrictlyNewest(
    dir: BackupDir, listing: Option<seq<string>>, component: string, n: string, now: int)
    requires StrictlyNewest(dir, component, n, now) && listing.Some? && Lists(listing.value, dir)
    ensures Pick(dir, listing, component) == Some(dir[n].tree)
  {
    StrictlyNewestIsLatest(dir, listing.value, component, n, now);
  }

  /** What a failed backup copy leaves of a backup directory. */
  function AfterFailedCopy(backups: BackupDir, name: string, now: int, io: CopyIo): BackupDir {
    if io.touched then Keep(backups, name, io.left, now) else backups
  }

  /** The backup directory when making the backups failed, and which of the two copies failed. */
  lemma FailedBackUpFacts(w: World, c: Component, h: Site, io: UpgradeIo)
    requires ReachesBackups(w, h, io) && !Underway(w, c, h, io)
    ensures var current := Before(w, h, io);
      var name, webName := BinaryBackup(c, current, io), WebBackup(current, io);
      var after := BackUpBoth(c, h, current, io).backups;
      && (!BinaryBackupWorks(w, c, h, io) ==>
            h.binary.Some? && after == AfterFailedCopy(h.backups, name, io.now, io.backupBinary))
      && (BinaryBackupWorks(w, c, h, io) ==>
            && c.WithWeb() && h.web.Some? && name != webName
            && (forall n :: n != name && n != webName ==> Get(after, n) == Get(h.backups, n))
            && Get(after, webName) == Get(AfterFailedCopy(h.backups, webName, io.now, io.backupWeb), webName)
            && Get(after, name) ==
                 if h.binary.Some? then Some(Backup(h.binary.value, io.now)) else Get(h.backups, name))
  {
    hide Overlay, ReachesBackups, BinaryBackup, WebBackup;
    var current := Before(w, h, io);
    var name, webName := BinaryBackup(c, current, io), WebBackup(current, io);
    BackupNamesDiffer(c, current, io);
    BackupFacts(h.backups, h.binary, name, io.now, io.backupBinary);
    if BinaryBackupWorks(w, c, h, io) && h.binary.Some? {
      LiveBinaryIsFile(w, h, io);
      FileOverFile(h.binary.value, Stored(h.backups, Some(name)));
    }
  }

  lemma LiveBinaryIsFile(w: World, h: Site, io: UpgradeIo)
    requires ReachesBackups(w, h, io)
    ensures h.binary.Some? ==> h.binary.value.File?
  {
  }

  lemma FileOverFile(src: Tree, dst: Option<Tree>)
    requires src.File? && Overlay(src, dst).Some?
    ensures Overlay(src, dst) == Some(src)
  {
  }

  /** Every backup in the directory is older than this upgrade. */
  ghost predicate AllOlder(h: Site, now: int) {
    forall n :: n in h.backups ==> h.backups[n].modified < now
  }

  /** The binary's backup copy is tried and fails. */
  predicate BinaryCopyFails(w: World, c: Component, h: Site, io: UpgradeIo) {
    ReachesBackups(w, h, io) && !BinaryBackupWorks(w, c, h, io)
  }

  /** The binary's backup is made, and the console's copy fails. */
  predicate WebCopyFails(w: World, c: Component, h: Site, io: UpgradeIo) {
    ReachesBackups(w, h, io) && BinaryBackupWorks(w, c, h, io) && !WebBackupWorks(w, c, h, io)
  }

  /** The target after a failed copy: the fragment it left, or else the newest of the backups it did not remove. */
  function TargetAfterFailedCopy(
    backups: BackupDir, name: string, io: CopyIo, listing: Option<seq<string>>, component: string): Option<Tree>
  {
    if !io.touched then Pick(backups, listing, component)
    else if io.left.Some? then io.left
    else Pick(backups - {name}, listing, component)
  }

  /** What the next rollback installs after an upgrade that ended before touching the service. */
  function BinaryTarget(w: World, c: Component, h: Site, io: UpgradeIo, back: RollbackIo): Option<Tree> {
    if BinaryCopyFails(w, c, h, io) then
      var name := BinaryBackup(c, Before(w, h, io), io);
      TargetAfterFailedCopy(h.backups, name, io.backupBinary, back.listing, c.Binary())
    else if WebCopyFails(w, c, h, io) && h.binary.Some? then h.binary
    else Pick(h.backups, back.listing, c.Binary())
  }

  function WebTarget(w: World, c: Component, h: Site, io: UpgradeIo, back: RollbackIo): Option<Tree> {
    if WebCopyFails(w, c, h, io) then
      TargetAfterFailedCopy(h.backups, WebBackup(Before(w, h, io), io), io.backupWeb, back.webListing, WEB_DIST)
    else Pick(h.backups, back.webListing, WEB_DIST)
  }

  lemma AbortedBackups(w: World, c: Component, h: Site, io: UpgradeIo)
    requires !Underway(w, c, h, io)
    ensures var post := UpgradeCommand(w, c, h, io).0;
      && post.binary == h.binary && post.web == h.web && post.active == h.active
      && post.backups ==
           if ReachesBackups(w, h, io) then BackUpBoth(c, h, Before(w, h, io), io).backups else h.backups
  {
    BackUpBothWorks(w, c, h, io);
    hide Swap, BackUpBoth, BinaryBackupWorks, WebBackupWorks, SameVersion;
    if ReachesBackups(w, h, io) {
      var h1 := Note(Note(h, io, io.writes.resolving, Running).1, io, io.writes.preparing, Running).1;
      SameBackups(c, h, h1, Before(w, h, io), io);
    }
  }

  lemma AbortedBinaryPick(w: World, c: Component, h: Site, io: UpgradeIo, back: RollbackIo)
    requires !Underway(w, c, h, io) && ReachesBackups(w, h, io) && AllOlder(h, io.now)
    requires back.listing.Some? && Lists(back.listing.value, BackUpBoth(c, h, Before(w, h, io), io).backups)
    ensures Pick(BackUpBoth(c, h, Before(w, h, io), io).backups, back.listing, c.Binary())
      == BinaryTarget(w, c, h, io, back)
  {
    FailedBackUpFacts(w, c, h, io);
    hide Underway, ReachesBackups, BinaryBackupWorks, WebBackupWorks, BackUpBoth, Pick;
    var current := Before(w, h, io);
    var name, webName := BinaryBackup(c, current, io), WebBackup(current, io);
    var after := BackUpBoth(c, h, current, io).backups;
    BackupNameMatches(c.Binary(), Label(current, io));
    BackupNameMatches(WEB_DIST, Label(current, io));
    NamesHaveNoDots(c);
    hide BackupName, IsBackupOf, Lists;
    if IsBackupOf(webName, c.Binary()) {
      OneOwner(webName, c.Binary(), WEB_DIST);
    }
    if name in after && after[name].modified == io.now {
      assert StrictlyNewest(after, c.Binary(), name, io.now) by {
        forall m | m in after && IsBackupOf(m, c.Binary()) && m != name
          ensures after[m].modified < io.now
        {
          assert Get(after, m) == Get(h.backups, m);
        }
      }
      PickStrictlyNewest(after, back.listing, c.Binary(), name, io.now);
    } else if WebCopyFails(w, c, h, io) && h.binary.None? {
      SamePick(after, h.backups, back.listing, c.Binary());
    }
  }

  lemma AbortedWebPick(w: World, c: Component, h: Site, io: UpgradeIo, back: RollbackIo)
    requires !Underway(w, c, h, io) && ReachesBackups(w, h, io) && AllOlder(h, io.now) && c.WithWeb()
    requires back.webListing.Some? && Lists(back.webListing.value, BackUpBoth(c, h, Before(w, h, io), io).backups)
    ensures Pick(BackUpBoth(c, h, Before(w, h, io), io).backups, back.webListing, WEB_DIST)
      == WebTarget(w, c, h, io, back)
  {
    FailedBackUpFacts(w, c, h, io);
    hide Underway, ReachesBackups, BinaryBackupWorks, WebBackupWorks, BackUpBoth, Pick;
    var current := Before(w, h, io);
    var name, webName := BinaryBackup(c, current, io), WebBackup(current, io);
    var after := BackUpBoth(c, h, current, io).backups;
    BackupNameMatches(c.Binary(), Label(current, io));
    BackupNameMatches(WEB_DIST, Label(current, io));
    NamesHaveNoDots(c);
    hide BackupName, IsBackupOf, Lists;
    if IsBackupOf(name, WEB_DIST) {
      OneOwner(name, c.Binary(), WEB_DIST);
    }
    if WebCopyFails(w, c, h, io) && io.backupWeb.touched && io.backupWeb.left.Some? {
      assert after[webName] == Backup(io.backupWeb.left.value, io.now);
      assert StrictlyNewest(after, WEB_DIST, webName, io.now) by {
        forall m | m in after && IsBackupOf(m, WEB_DIST) && m != webName
          ensures after[m].modified < io.now
        {
          assert Get(after, m) == Get(h.backups, m);
        }
      }
      PickStrictlyNewest(after, back.webListing, WEB_DIST, webName, io.now);
    } else {
      var before := if WebCopyFails(w, c, h, io) && io.backupWeb.touched then h.backups - {webName} else h.backups;
      forall n | IsBackupOf(n, WEB_DIST)
        ensures Get(after, n) == Get(before, n)
      {
      }
      SamePick(after, before, back.webListing, WEB_DIST);
    }
  }

  /**
   * Rolling back after an upgrade that gave up before it stopped the service, wherever it gave up.
   * If it never got to its backups, or the failing copy did not get to its destination, the target
   * of that part is what it was.  Otherwise the fragment the copy left is the target, or (nothing
   * left) an older backup of the same label is gone.  When the console's copy fails, the binary
   * backup made just before makes the live binary its own target.
   */
  lemma RollbackAfterAbortedUpgrade(w: World, c: Component, h: Site, io: UpgradeIo, back: RollbackIo)
    requires !Underway(w, c, h, io) && AllOlder(h, io.now)
    requires RollbackCommand(c, UpgradeCommand(w, c, h, io).0, back).0
    requires back.listing.Some? ==> Lists(back.listing.value, UpgradeCommand(w, c, h, io).0.backups)
    requires back.webListing.Some? ==> Lists(back.webListing.value, UpgradeCommand(w, c, h, io).0.backups)
    ensures var post := RollbackCommand(c, UpgradeCommand(w, c, h, io).0, back).1;
      && post.binary == BinaryTarget(w, c, h, io, back)
      && post.web == (if c.WithWeb() then WebTarget(w, c, h, io, back) else h.web)
      && post.active == h.active
  {
    AbortedBackups(w, c, h, io);
    hide UpgradeCommand, RollbackCommand, Underway, ReachesBackups, BinaryTarget, WebTarget, Newest, Lists;
    var mid := UpgradeCommand(w, c, h, io).0;
    RollbackFacts(c, mid, back);
    RollbackStopsAtTheFirstError(c, mid, back);
    assert back.listing.Some? && (c.WithWeb() ==> back.webListing.Some?) by {
      RollbackNeedsListings(c, mid, back);
    }
    if ReachesBackups(w, h, io) {
      AbortedBinaryPick(w, c, h, io, back);
      if c.WithWeb() {
        AbortedWebPick(w, c, h, io, back);
      }
    } else {
      UntouchedTargets(w, c, h, io, back);
    }
  }

  lemma UntouchedTargets(w: World, c: Component, h: Site, io: UpgradeIo, back: RollbackIo)
    requires !ReachesBackups(w, h, io)
    ensures BinaryTarget(w, c, h, io, back) == Pick(h.backups, back.listing, c.Binary())
    ensures WebTarget(w, c, h, io, back) == Pick(h.backups, back.webListing, WEB_DIST)
  {
  }

  lemma RollbackNeedsListings(c: Component, h: Site, io: RollbackIo)
    requires RollbackCommand(c, h, io).0
    ensures io.listing.Some? && (c.WithWeb() ==> io.webListing.Some?)
  {
  }

  /** A failed copy leaves `live` as the target: as its fragment, or as the newest backup it spared. */
  predicate TargetIsLive(
    live: Option<Tree>, backups: BackupDir, name: string, io: CopyIo, listing: Option<seq<string>>, component: string)
  {
    || (io.touched && io.left == live)
    || (io.touched && io.left.None? && Pick(backups - {name}, listing, component) == live)
    || (!io.touched && Pick(backups, listing, component) == live)
  }

  /**
   * So a rollback right after an upgrade that gave up early leaves the binary, or the console, as it
   * is if and only if a failed copy of it left exactly its source, or the binary was backed up before
   * the console's copy failed, or the newest backup that remains happens to hold what is live.
   */
  lemma FailedBackupSpoilsRollback(w: World, c: Component, h: Site, io: UpgradeIo, back: RollbackIo)
    requires !Underway(w, c, h, io) && AllOlder(h, io.now)
    requires RollbackCommand(c, UpgradeCommand(w, c, h, io).0, back).0
    requires back.listing.Some? ==> Lists(back.listing.value, UpgradeCommand(w, c, h, io).0.backups)
    requires back.webListing.Some? ==> Lists(back.webListing.value, UpgradeCommand(w, c, h, io).0.backups)
    ensures RollbackCommand(c, UpgradeCommand(w, c, h, io).0, back).1.binary == h.binary <==>
      if BinaryCopyFails(w, c, h, io) then
        var name := BinaryBackup(c, Before(w, h, io), io);
        TargetIsLive(h.binary, h.backups, name, io.backupBinary, back.listing, c.Binary())
      else
        (WebCopyFails(w, c, h, io) && h.binary.Some?) || Pick(h.backups, back.listing, c.Binary()) == h.binary
    ensures RollbackCommand(c, UpgradeCommand(w, c, h, io).0, back).1.web == h.web <==>
      || !c.WithWeb()
      || if WebCopyFails(w, c, h, io) then
           var name := WebBackup(Before(w, h, io), io);
           TargetIsLive(h.web, h.backups, name, io.backupWeb, back.webListing, WEB_DIST)
         else Pick(h.backups, back.webListing, WEB_DIST) == h.web
  {
    RollbackAfterAbortedUpgrade(w, c, h, io, back);
    hide UpgradeCommand, RollbackCommand, Underway, ReachesBackups, Pick, Lists, BinaryBackup, WebBackup;
    assert BinaryCopyFails(w, c, h, io) ==> h.binary.Some?;
    assert WebCopyFails(w, c, h, io) ==> h.web.Some?;
  }
}
