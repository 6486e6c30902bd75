/** Replacing a core's binary (`ensure_core_build` in `client.rs`, `ensure_core_binary` in `installer.rs`). */
module CoreBinary {
  import opened Prelude

  /** A binary as fully extracted, or whatever a failed extraction left. */
  datatype Blob = Build(bytes: string) | Fragment(bytes: string)

  datatype BinDir = BinDir(binary: Option<Blob>, backup: Option<Blob>, marker: Option<string>)

  /** How one of the two download attempts goes. */
  datatype Attempt =
    | DownloadFails
    | Invalid
    | ExtractFails(left: Option<Blob>)
    | Extracted(bytes: string)

  datatype InstallIo = InstallIo(probe: bool, resolves: bool, first: Attempt, second: Attempt, chmod: bool)

  datatype BuildIo = BuildIo(
    markerReadable: bool, probe: bool, movedAside: bool, install: InstallIo, backupRemoved: bool,
    markerWritten: bool, markerLeft: Option<string>, movedBack: bool)

  /** One turn of the retry loop: whether it installed, and the binary path afterwards. */
  function Try(binary: Option<Blob>, a: Attempt): (bool, Option<Blob>) {
    match a
    case DownloadFails => (false, binary)
    case Invalid => (false, binary)
    case ExtractFails(left) => (false, left)
    case Extracted(bytes) => (true, Some(Build(bytes)))
  }

  /** `ensure_core_binary`: success, and the binary path afterwards. */
  function EnsureBinary(binary: Option<Blob>, io: InstallIo): (bool, Option<Blob>) {
    if binary.Some? && io.probe then (true, binary)
    else if !io.resolves then (false, binary)
    else
      var (ok1, b1) := Try(binary, io.first);
      var (ok, b) := if ok1 then (true, b1) else Try(b1, io.second);
      (ok && io.chmod, b)
  }

  function Expected(version: string, build: string): string { version + "|" + build }

  function EnsureBuild(d: BinDir, version: string, build: string, io: BuildIo): (bool, BinDir) {
    var expected := Expected(version, build);
    if (if io.markerReadable then d.marker.Or("") else "") == expected then (true, d)
    else
      var hasBinary := d.binary.Some? && io.probe;
      if hasBinary && !io.movedAside then (false, d)
      else
        var d1 := if hasBinary then d.(binary := None, backup := d.binary) else d;
        var (ok, b) := EnsureBinary(d1.binary, io.install);
        var d2 := d1.(binary := b);
        if ok then
          var d3 := if io.backupRemoved then d2.(backup := None) else d2;
          if io.markerWritten then (true, d3.(marker := Some(expected))) else (false, d3.(marker := io.markerLeft))
        else if hasBinary && io.movedBack then (false, d2.(binary := d2.backup, backup := None))
        else (false, d2)
  }

  /** The bytes one of the attempts extracted in full. */
  predicate FreshBuild(io: InstallIo, b: Option<Blob>) {
    (io.first.Extracted? && b == Some(Build(io.first.bytes))) ||
    (io.second.Extracted? && b == Some(Build(io.second.bytes)))
  }

  /**
   * Old or new: whatever fails in download, validation, extraction or chmod, if a binary was there
   * and moving it back works, the path holds the exact old binary or a fully extracted new one.
   */
  lemma OldOrNew(d: BinDir, version: string, build: string, io: BuildIo)
    requires d.binary.Some? && io.probe
    ensures var (ok, d') := EnsureBuild(d, version, build, io);
      && (io.movedBack ==> d'.binary == d.binary || FreshBuild(io.install, d'.binary))
      && (ok ==> d' == d || FreshBuild(io.install, d'.binary))
      && (!ok && io.movedBack && d'.binary != d.binary ==> !io.markerWritten)
  {
  }

  /**
   * The marker moves only when the install of this very call worked, however the call ends.  A
   * call that succeeds without being a no-op records the build and leaves it, or a binary that
   * appeared between the two existence checks.
   */
  lemma MarkerFollowsInstall(d: BinDir, version: string, build: string, io: BuildIo)
    ensures var (ok, d') := EnsureBuild(d, version, build, io);
      && (d'.marker != d.marker ==>
            EnsureBinary(if d.binary.Some? && io.probe then None else d.binary, io.install).0)
      && (ok && d' != d ==>
            && d'.marker == Some(Expected(version, build))
            && (FreshBuild(io.install, d'.binary)
                || (d'.binary == d.binary && d.binary.Some? && !io.probe && io.install.probe)))
      && (d'.marker != d.marker && io.markerWritten ==> ok && d'.marker == Some(Expected(version, build)))
  {
  }

  /** Exactly when an installation succeeds, and what is at the path then: what was found, or was extracted. */
  lemma InstallsExactly(binary: Option<Blob>, io: InstallIo)
    ensures var (ok, b) := EnsureBinary(binary, io); var found := binary.Some? && io.probe;
      && (ok <==> found || (io.resolves && (io.first.Extracted? || io.second.Extracted?) && io.chmod))
      && (found || !io.resolves ==> b == binary)
      && (ok && !found ==> b == Some(Build(if io.first.Extracted? then io.first.bytes else io.second.bytes)))
      && (!found && Harmless(io.first) && Harmless(io.second) ==> b == binary)
  {
  }

  /**
   * What a call leaves: nothing moves if the marker is current or the binary cannot be moved aside.  A
   * binary moved aside is discarded after a successful install and moved back after a failed one.
   */
  lemma SwapEffect(d: BinDir, version: string, build: string, io: BuildIo)
    ensures var (ok, d') := EnsureBuild(d, version, build, io);
      var current := io.markerReadable && d.marker == Some(version + "|" + build);
      var aside := d.binary.Some? && io.probe;
      var (installed, b) := EnsureBinary(if aside then None else d.binary, io.install);
      && (current ==> ok && d' == d)
      && (!current && aside && !io.movedAside ==> !ok && d' == d)
      && (!current && (aside ==> io.movedAside) ==>
            && (ok <==> installed && io.markerWritten)
            && (installed ==> d'.binary == b && d'.marker == if ok then Some(version + "|" + build) else io.markerLeft)
            && (installed ==> d'.backup == if io.backupRemoved then None else if aside then d.binary else d.backup)
            && (!installed ==> d'.marker == d.marker)
            && (!installed && aside && io.movedBack ==> d'.binary == d.binary && d'.backup.None?)
            && (!installed && !(aside && io.movedBack) ==>
                  d'.binary == b && d'.backup == if aside then d.binary else d.backup))
  {
    assert (version + "|" + build)[|version|] == '|';
    hide EnsureBinary;
  }

  /** Versions as releases are tagged have no bar in them. */
  predicate Plain(version: string) { '|' !in version }

  lemma MarkersDiffer(v: string, b: string, v': string, b': string)
    requires Plain(v) && Plain(v')
    ensures v + "|" + b == v' + "|" + b' <==> v == v' && b == b'
  {
    var m, m' := v + "|" + b, v' + "|" + b';
    assert m[|v|] == '|' && m'[|v'|] == '|';
    assert forall i :: 0 <= i < |v| ==> m[i] == v[i] != '|';
    assert forall i :: 0 <= i < |v'| ==> m'[i] == v'[i] != '|';
    assert v == m[..|v|] && v' == m'[..|v'|];
    assert b == m[|v| + 1..] && b' == m'[|v'| + 1..];
  }

  /**
   * A build is installed once: after a call for a version and build that worked and recorded its
   * marker, another call for the same does nothing, and a call for a different build or version whose
   * installation works replaces the binary, even when the version stays the same.
   */
  lemma NewBuildsAreInstalled(
    d: BinDir, v: string, b: string, io: BuildIo, v': string, b': string, next: BuildIo)
    requires Plain(v) && Plain(v')
    requires EnsureBuild(d, v, b, io).0 && io.markerWritten && next.markerReadable
    requires io.probe && next.probe
    ensures var (_, mid) := EnsureBuild(d, v, b, io); var (ok, after) := EnsureBuild(mid, v', b', next);
      && (v == v' && b == b' ==> ok && after == mid)
      && (!(v == v' && b == b') && (mid.binary.Some? ==> next.movedAside)
          && EnsureBinary(None, next.install).0 && next.markerWritten ==>
            ok && FreshBuild(next.install, after.binary) && after.marker == Some(v' + "|" + b'))
  {
    MarkersDiffer(v, b, v', b');
    assert Expected(v, b)[|v|] == '|';
    hide EnsureBinary;
  }

  /** The path ends up with neither exactly when the install fails, leaves something else, and moving back fails too. */
  lemma BrokenExactlyWhen(d: BinDir, version: string, build: string, io: BuildIo)
    requires d.binary.Some? && io.probe
    ensures var d' := EnsureBuild(d, version, build, io).1; var (installed, left) := EnsureBinary(None, io.install);
      !(d'.binary == d.binary || FreshBuild(io.install, d'.binary)) <==>
        && !(io.markerReadable && d.marker == Some(Expected(version, build))) && io.movedAside
        && !installed && !io.movedBack && !(left == d.binary || FreshBuild(io.install, left))
  {
    assert Expected(version, build)[|version|] == '|';
  }

  // ----- fragments

  predicate IsFragment(b: Option<Blob>) { b.Some? && b.value.Fragment? }

  /** An attempt that fails before it touches the binary path. */
  predicate Harmless(a: Attempt) { a.DownloadFails? || a.Invalid? }

  predicate LeavesFragment(a: Attempt) { a.ExtractFails? && IsFragment(a.left) }

  /**
   * A first installation leaves a fragment if and only if neither attempt extracts the archive and
   * the last one to touch the path leaves one.
   */
  lemma FragmentExactlyWhen(io: InstallIo)
    ensures IsFragment(EnsureBinary(None, io).1) <==>
      && io.resolves && !io.first.Extracted?
      && (LeavesFragment(io.second) || (Harmless(io.second) && LeavesFragment(io.first)))
  {
  }

  /** An installation that succeeds leaves a complete build if and only if it did not find a fragment there. */
  lemma SuccessIsCompleteUnlessFragment(binary: Option<Blob>, io: InstallIo)
    requires EnsureBinary(binary, io).0
    ensures var b := EnsureBinary(binary, io).1;
      b.Some? && (b.value.Build? <==> !(io.probe && IsFragment(binary)))
  {
  }

  /** So after a first installation, failed or not, a later one that succeeds is trustworthy exactly when this holds. */
  lemma FragmentPassesForInstalled(first: InstallIo, next: InstallIo)
    requires EnsureBinary(EnsureBinary(None, first).1, next).0
    ensures var b := EnsureBinary(EnsureBinary(None, first).1, next).1;
      IsFragment(b) <==>
        && next.probe && first.resolves && !first.first.Extracted?
        && (LeavesFragment(first.second) || (Harmless(first.second) && LeavesFragment(first.first)))
  {
    FragmentExactlyWhen(first);
    SuccessIsCompleteUnlessFragment(EnsureBinary(None, first).1, next);
    hide EnsureBinary, LeavesFragment, Harmless;
  }

  /** Installations of a core one after another, each failing or not in its own way. */
  function Installs(binary: Option<Blob>, ios: seq<InstallIo>): Option<Blob> {
    if ios == [] then binary else EnsureBinary(Installs(binary, ios[..|ios| - 1]), ios[|ios| - 1]).1
  }

  /** `ensure_core_binary` never repairs a fragment: every later call that sees the file reports success. */
  lemma {:induction false} FragmentsStay(binary: Option<Blob>, ios: seq<InstallIo>)
    requires IsFragment(binary) && forall i :: 0 <= i < |ios| ==> ios[i].probe
    ensures Installs(binary, ios) == binary
    ensures ios != [] ==>
      EnsureBinary(Installs(binary, ios[..|ios| - 1]), ios[|ios| - 1]) == (true, binary)
  {
    if ios != [] {
      FragmentsStay(binary, ios[..|ios| - 1]);
    }
  }

  datatype Request = Request(version: string, build: string, io: BuildIo)

  function Run(d: BinDir, rs: seq<Request>): BinDir {
    if rs == [] then d
    else
      var last := rs[|rs| - 1];
      EnsureBuild(Run(d, rs[..|rs| - 1]), last.version, last.build, last.io).1
  }

  /** A run is its requests one after another. */
  lemma RunIsItsRequests(d: BinDir, rs: seq<Request>, r: Request)
    ensures Run(d, []) == d
    ensures Run(d, rs + [r]) == EnsureBuild(Run(d, rs), r.version, r.build, r.io).1
  {
    assert (rs + [r])[..|rs|] == rs;
    hide EnsureBuild;
  }

  /** Over any number of upgrades, a complete binary stays a complete binary. */
  lemma {:induction false} AlwaysComplete(d: BinDir, rs: seq<Request>)
    requires d.binary.Some? && d.binary.value.Build?
    requires forall i :: 0 <= i < |rs| ==> rs[i].io.probe && rs[i].io.movedBack
    ensures Run(d, rs).binary.Some? && Run(d, rs).binary.value.Build?
  {
    if rs != [] {
      AlwaysComplete(d, rs[..|rs| - 1]);
      var last := rs[|rs| - 1];
      OldOrNew(Run(d, rs[..|rs| - 1]), last.version, last.build, last.io);
    }
  }

  // ----- the methods

  class BinaryDirectory {
    var binary: Option<Blob>
    var backup: Option<Blob>
    var marker: Option<string>

    constructor (d: BinDir)
      ensures State() == d
    {
      binary, backup, marker := d.binary, d.backup, d.marker;
    }

    function State(): BinDir
      reads this
    {
      BinDir(binary, backup, marker)
    }

    method EnsureCoreBinary(io: InstallIo) returns (ok: bool)
      modifies this`binary
      ensures (ok, binary) == EnsureBinary(old(binary), io)
    {
      if binary.Some? && io.probe {
        return true;
      }
      if !io.resolves {
        return false;
      }
      var attempts := [io.first, io.second];
      var installed := false;
      var i := 0;
      while i < 2 && !installed
        invariant 0 <= i <= 2
        invariant i == 0 ==> !installed && binary == old(binary)
        invariant i == 1 ==> (installed, binary) == Try(old(binary), io.first)
        invariant i == 2 ==>
          !Try(old(binary), io.first).0 && (installed, binary) == Try(Try(old(binary), io.first).1, io.second)
      {
        match attempts[i] {
          case DownloadFails =>
          case Invalid =>
          case ExtractFails(left) =>
            binary := left;
          case Extracted(bytes) =>
            binary := Some(Build(bytes));
            installed := true;
        }
        i := i + 1;
      }
      return installed && io.chmod;
    }

    method EnsureCoreBuild(version: string, build: string, io: BuildIo) returns (ok: bool)
      modifies this
      ensures (ok, State()) == EnsureBuild(old(State()), version, build, io)
    {
      var expected := Expected(version, build);
      var current := if io.markerReadable then marker.Or("") else "";
      if current == expected {
        return true;
      }
      var hasBinary := binary.Some? && io.probe;
      if hasBinary {
        if !io.movedAside {
          return false;
        }
        binary, backup := None, binary;
      }
      ok := EnsureCoreBinary(io.install);
      if ok {
        if io.backupRemoved {
          backup := None;
        }
        marker := if io.markerWritten then Some(expected) else io.markerLeft;
        return io.markerWritten;
      }
      if hasBinary && io.movedBack {
        binary, backup := backup, None;
      }
      return false;
    }
  }
}
