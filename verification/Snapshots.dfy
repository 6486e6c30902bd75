/** Per-core config snapshots on disk (`persist.rs`), which survive a crash in the middle of a save. */
module Snapshots {
  import opened Prelude

  datatype CoreType = SingBox | Mihomo

  /** A snapshot; `core` is what its `core_type` text parses to, if anything. */
  datatype Persisted = Persisted(core: Option<CoreType>, config: string, version: string)

  /** A file that parses as a snapshot, or does not. */
  datatype FileContent = Whole(snapshot: Persisted) | Damaged

  datatype FileName = SnapshotFile(core: CoreType) | TempFile(core: CoreType) | LegacyFile

  type DataDir = map<FileName, FileContent>

  /** Points at which the agent can die during a save, in order; a save that completes passes them all. */
  datatype CrashPoint = BeforeWrite | DuringWrite | AfterWrite | AfterRename

  /** `save_last_config`, up to a crash point. */
  function SaveUntil(dir: DataDir, core: CoreType, config: string, version: string, at: CrashPoint): DataDir {
    var data := Whole(Persisted(Some(core), config, version));
    match at
    case BeforeWrite => dir
    case DuringWrite => dir[TempFile(core) := Damaged]
    case AfterWrite => dir[TempFile(core) := data]
    case AfterRename => (dir - {TempFile(core)})[SnapshotFile(core) := data]
  }

  /** `load_one`: a missing or damaged file is no snapshot. */
  function LoadOne(dir: DataDir, f: FileName): Option<Persisted> {
    if f in dir && dir[f].Whole? then Some(dir[f].snapshot) else None
  }

  /** What the two system calls of the migration do. */
  datatype MigrateIo = MigrateIo(removed: bool, renamed: bool)

  /** `migrate_legacy_snapshot` */
  function Migrate(dir: DataDir, io: MigrateIo): DataDir {
    match LoadOne(dir, LegacyFile)
    case None => dir
    case Some(p) =>
      if p.core.None? || SnapshotFile(p.core.value) in dir then if io.removed then dir - {LegacyFile} else dir
      else if io.renamed then (dir - {LegacyFile})[SnapshotFile(p.core.value) := Whole(p)]
      else dir
  }

  /** `load_last_configs`: the snapshots by core, and the directory afterwards. */
  function Load(dir: DataDir, io: MigrateIo): (map<CoreType, Persisted>, DataDir) {
    var dir' := Migrate(dir, io);
    (map c: CoreType | LoadOne(dir', SnapshotFile(c)).Some? :: LoadOne(dir', SnapshotFile(c)).value, dir')
  }

  /** The snapshot a load returns for one core. */
  function Loaded(dir: DataDir, io: MigrateIo, c: CoreType): Option<Persisted> {
    Get(Load(dir, io).0, c)
  }

  lemma LoadedIs(dir: DataDir, io: MigrateIo, c: CoreType)
    ensures Loaded(dir, io, c) == LoadOne(Migrate(dir, io), SnapshotFile(c))
  {
  }

  /**
   * Crash safety: whenever a save is cut off, the next load returns for that core the snapshot it
   * would have returned before the save, or the new one whole; the other core's is unaffected.
   * This holds however the load's own migration goes.
   */
  lemma SaveIsCrashSafe(
    dir: DataDir, core: CoreType, config: string, version: string, at: CrashPoint, other: CoreType, io: MigrateIo)
    requires other != core
    ensures Loaded(SaveUntil(dir, core, config, version, at), io, core) ==
      if at.AfterRename? then Some(Persisted(Some(core), config, version)) else Loaded(dir, io, core)
    ensures Loaded(SaveUntil(dir, core, config, version, at), io, other) == Loaded(dir, io, other)
  {
    var saved := SaveUntil(dir, core, config, version, at);
    LoadedIs(saved, io, core);
    LoadedIs(saved, io, other);
    LoadedIs(dir, io, core);
    LoadedIs(dir, io, other);
    hide Load, Loaded;
    assert LoadOne(saved, LegacyFile) == LoadOne(dir, LegacyFile);
    assert core.SingBox? <==> other.Mihomo?;
    assert Get(saved, SnapshotFile(other)) == Get(dir, SnapshotFile(other));
  }

  /** A save that gets through leaves no temporary file behind; cut off before, it leaves every snapshot file alone. */
  lemma SaveEffect(dir: DataDir, core: CoreType, config: string, version: string, at: CrashPoint, f: FileName)
    ensures var saved := SaveUntil(dir, core, config, version, at);
      && (at.AfterRename? ==> TempFile(core) !in saved)
      && (f != TempFile(core) && !(at.AfterRename? && f == SnapshotFile(core)) ==> Get(saved, f) == Get(dir, f))
  {
  }

  /** Two migrations that go alike are one. */
  lemma LoadIsIdempotent(dir: DataDir, io: MigrateIo)
    ensures var (snapshots, dir') := Load(dir, io); Load(dir', io) == (snapshots, dir')
  {
    var dir' := Migrate(dir, io);
    assert Migrate(dir', io) == dir';
  }

  /** A legacy snapshot waiting to take the place of a core that has none. */
  predicate Waiting(dir: DataDir) {
    var legacy := LoadOne(dir, LegacyFile);
    legacy.Some? && legacy.value.core.Some? && SnapshotFile(legacy.value.core.value) !in dir
  }

  /** A load after a load returns what one load would whose rename works if either rename does. */
  lemma LoadAfterLoad(dir: DataDir, first: MigrateIo, second: MigrateIo, core: CoreType)
    ensures Loaded(Load(dir, first).1, second, core) ==
      Loaded(dir, MigrateIo(second.removed, first.renamed || second.renamed), core)
  {
    var both := MigrateIo(second.removed, first.renamed || second.renamed);
    LoadedIs(dir, both, core);
    LoadedIs(Migrate(dir, first), second, core);
    hide Loaded;
    var legacy := LoadOne(dir, LegacyFile);
    if legacy.Some? && legacy.value.core.Some? {
      assert legacy.value.core.value.SingBox? || legacy.value.core.value.Mihomo?;
    }
  }

  /** Two loads return the same snapshots unless a waiting legacy snapshot is renamed by the second alone. */
  lemma LoadsAgree(dir: DataDir, first: MigrateIo, second: MigrateIo)
    ensures Load(Load(dir, first).1, second).0 == Load(dir, first).0 <==>
      !(Waiting(dir) && !first.renamed && second.renamed)
  {
    forall core: CoreType
      ensures Loaded(Load(dir, first).1, second, core) ==
        Loaded(dir, MigrateIo(second.removed, first.renamed || second.renamed), core)
    {
      LoadAfterLoad(dir, first, second, core);
    }
    var a, b := Load(dir, first).0, Load(Load(dir, first).1, second).0;
    forall core: CoreType, io: MigrateIo
      ensures Loaded(dir, io, core) == LoadOne(Migrate(dir, io), SnapshotFile(core))
    {
      LoadedIs(dir, io, core);
    }
    if Waiting(dir) && !first.renamed && second.renamed {
      var core := LoadOne(dir, LegacyFile).value.core.value;
      assert Get(a, core).None? && Get(b, core).Some?;
    } else {
      hide Load;
      forall core: CoreType
        ensures Get(a, core) == Get(b, core)
      {
      }
      assert a == b by {
        SameLookups(a, b);
      }
    }
  }

  /** A legacy snapshot that cannot be renamed at first: the first load returns nothing, the second returns it. */
  lemma DifferingLoadsExample()
    ensures var p := Persisted(Some(SingBox), "config", "v1"); var dir: DataDir := map[LegacyFile := Whole(p)];
      var first, second := MigrateIo(false, false), MigrateIo(false, true);
      Loaded(dir, first, SingBox) == None && Loaded(Load(dir, first).1, second, SingBox) == Some(p)
  {
  }

  lemma SameLookups(a: map<CoreType, Persisted>, b: map<CoreType, Persisted>)
    requires forall core :: Get(a, core) == Get(b, core)
    ensures a == b
  {
    forall core
      ensures core in a <==> core in b
      ensures core in a ==> a[core] == b[core]
    {
      assert Get(a, core) == Get(b, core);
    }
  }

  /** Migration never replaces a per-core snapshot, even a damaged one, and loses no legacy snapshot it could keep. */
  lemma MigrationKeepsSnapshots(dir: DataDir, io: MigrateIo, core: CoreType)
    ensures SnapshotFile(core) in dir ==> Get(Migrate(dir, io), SnapshotFile(core)) == Get(dir, SnapshotFile(core))
    ensures var legacy := LoadOne(dir, LegacyFile);
      legacy.Some? && legacy.value.core == Some(core) && SnapshotFile(core) !in dir ==>
        LoadOne(Migrate(dir, io), if io.renamed then SnapshotFile(core) else LegacyFile) == legacy
  {
  }

  datatype Op =
    | Save(core: CoreType, config: string, version: string, at: CrashPoint)
    | Reload(io: MigrateIo)

  function Apply(dir: DataDir, op: Op): DataDir {
    match op
    case Save(core, config, version, at) => SaveUntil(dir, core, config, version, at)
    case Reload(io) => Load(dir, io).1
  }

  function Run(dir: DataDir, ops: seq<Op>): DataDir {
    if ops == [] then dir else Apply(Run(dir, ops[..|ops| - 1]), ops[|ops| - 1])
  }

  /** The last save of a core that got as far as the rename. */
  function LastSaved(ops: seq<Op>, core: CoreType): Option<Persisted> {
    if ops == [] then None
    else
      var op := ops[|ops| - 1];
      if op.Save? && op.core == core && op.at.AfterRename? then Some(Persisted(Some(core), op.config, op.version))
      else LastSaved(ops[..|ops| - 1], core)
  }

  /** A migration in the run could rename. */
  predicate SomeRename(ops: seq<Op>) {
    ops != [] && (SomeRename(ops[..|ops| - 1]) || (ops[|ops| - 1].Reload? && ops[|ops| - 1].io.renamed))
  }

  /**
   * Over every run of saves, each cut off anywhere, and reloads, whatever their migrations do, a
   * load returns the last snapshot saved; and before any save of that core got through, what the
   * directory held at the start, the legacy snapshot counting once some rename has worked.
   */
  lemma {:induction false} LoadReturnsLastSaved(dir: DataDir, ops: seq<Op>, core: CoreType, last: MigrateIo)
    ensures Loaded(Run(dir, ops), last, core) ==
      if LastSaved(ops, core).Some? then LastSaved(ops, core)
      else Loaded(dir, MigrateIo(last.removed, SomeRename(ops) || last.renamed), core)
  {
    hide SaveUntil, Migrate, Load, Loaded;
    if ops != [] {
      var front, op := ops[..|ops| - 1], ops[|ops| - 1];
      var mid := Run(dir, front);
      match op {
        case Reload(io) =>
          LoadReturnsLastSaved(dir, front, core, MigrateIo(last.removed, io.renamed || last.renamed));
          LoadAfterLoad(mid, io, last, core);
        case Save(c, config, version, at) =>
          LoadReturnsLastSaved(dir, front, core, last);
          SaveIsCrashSafe(mid, c, config, version, at, if c.SingBox? then Mihomo else SingBox, last);
      }
    }
  }

  /** The entry of one core in the list of snapshots. */
  function Listed(snapshots: map<CoreType, Persisted>, c: CoreType): seq<(CoreType, Persisted)> {
    if c in snapshots then [(c, snapshots[c])] else []
  }

  /** The legacy file is gone once its snapshot has found a place, or needs none; it stays as long as a call fails. */
  lemma LegacyGoesExactly(dir: DataDir, io: MigrateIo)
    requires LegacyFile in dir
    ensures LegacyFile !in Migrate(dir, io) <==>
      dir[LegacyFile].Whole? &&
      if Waiting(dir) then io.renamed else io.removed
  {
  }

  class Store {
    var dir: DataDir

    constructor (dir: DataDir)
      ensures this.dir == dir
    {
      this.dir := dir;
    }

    /** The save, one system call after another, dying at `at` if it is not the last point. */
    method SaveLastConfig(core: CoreType, config: string, version: string, at: CrashPoint)
      modifies this
      ensures dir == SaveUntil(old(dir), core, config, version, at)
    {
      if at.BeforeWrite? {
        return;
      }
      dir := dir[TempFile(core) := Damaged];
      if at.DuringWrite? {
        return;
      }
      dir := dir[TempFile(core) := Whole(Persisted(Some(core), config, version))];
      assert dir == old(dir)[TempFile(core) := Whole(Persisted(Some(core), config, version))];
      if at.AfterWrite? {
        return;
      }
      dir := dir[SnapshotFile(core) := dir[TempFile(core)]] - {TempFile(core)};
      assert dir == SaveUntil(old(dir), core, config, version, at);
    }

    /** `load_last_configs`, which looks at the cores in a fixed order. */
    method LoadLastConfigs(io: MigrateIo) returns (snapshots: seq<(CoreType, Persisted)>)
      modifies this
      ensures dir == Load(old(dir), io).1
      ensures snapshots == Listed(Load(old(dir), io).0, SingBox) + Listed(Load(old(dir), io).0, Mihomo)
    {
      var legacy := LoadOne(dir, LegacyFile);
      if legacy.Some? {
        var core := legacy.value.core;
        if core.None? || SnapshotFile(core.value) in dir {
          if io.removed {
            dir := dir - {LegacyFile};
          }
        } else if io.renamed {
          dir := (dir - {LegacyFile})[SnapshotFile(core.value) := Whole(legacy.value)];
        }
      }
      snapshots := [];
      var cores := [SingBox, Mihomo];
      for i := 0 to 2
        invariant i == 0 ==> snapshots == []
        invariant i == 1 ==> snapshots == Listed(Load(old(dir), io).0, SingBox)
        invariant i == 2 ==>
          snapshots == Listed(Load(old(dir), io).0, SingBox) + Listed(Load(old(dir), io).0, Mihomo)
      {
        var p := LoadOne(dir, SnapshotFile(cores[i]));
        if p.Some? {
          snapshots := snapshots + [(cores[i], p.value)];
        }
      }
    }
  }
}
