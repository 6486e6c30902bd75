/** Files and directories, and the recursive copy of `fsutil.rs`. */
module FileTree {
  import opened Prelude

  datatype Tree = File(bytes: string) | Dir(entries: map<string, Tree>)

  type Path = seq<string>

  /** What is found at one path: a file with its bytes, or a directory. */
  datatype Node = Leaf(bytes: string) | Folder

  function At(t: Option<Tree>, p: Path): Option<Node>
    decreases |p|
  {
    if t.None? then None
    else if p == [] then Some(if t.value.File? then Leaf(t.value.bytes) else Folder)
    else if t.value.File? then None
    else At(Get(t.value.entries, p[0]), p[1..])
  }

  /** The entries below a path; a file or an absent path has none. */
  function Entries(t: Option<Tree>): map<string, Tree> {
    if t.Some? && t.value.Dir? then t.value.entries else map[]
  }

  /**
   * The tree a fault-free copy of `src` onto `dst` leaves behind, or `None` when
   * the copy must stop: a file cannot replace a directory, nor can an entry be
   * created below a file.  `ensure_dir` accepts any existing path, so copying an
   * empty directory onto a file leaves that file.
   */
  function Overlay(src: Tree, dst: Option<Tree>): Option<Tree>
    decreases src
  {
    match src
    case File(_) =>
      if dst.Some? && dst.value.Dir? then None else Some(src)
    case Dir(es) =>
      if dst.Some? && dst.value.File? then
        if es == map[] then dst else None
      else
        var ds := Entries(dst);
        if forall n | n in es :: Overlay(es[n], Get(ds, n)).Some? then
          Some(Dir(map n | n in es.Keys + ds.Keys ::
            if n in es then Overlay(es[n], Get(ds, n)).value else ds[n]))
        else None
  }

  /** The reference for `Overlay`, one path at a time: the source wins where it has a file. */
  function Merge(s: Option<Node>, d: Option<Node>): Option<Node> {
    match s
    case None => d
    case Some(Leaf(_)) => s
    case Some(Folder) => if d.None? then s else d
  }

  lemma {:induction false} OverlayAt(src: Tree, dst: Option<Tree>, p: Path)
    requires Overlay(src, dst).Some?
    ensures At(Overlay(src, dst), p) == Merge(At(Some(src), p), At(dst, p))
    decreases |p|
  {
    if p != [] && src.Dir? && (dst.None? || dst.value.Dir?) && p[0] in src.entries {
      OverlayAt(src.entries[p[0]], Get(Entries(dst), p[0]), p[1..]);
    }
  }

  /** A tree is determined by what its paths hold. */
  lemma {:induction false} SamePathsSameTree(a: Tree, b: Tree)
    requires forall p: Path :: At(Some(a), p) == At(Some(b), p)
    ensures a == b
    decreases a
  {
    assert At(Some(a), []) == At(Some(b), []);
    if a.Dir? {
      forall n: string
        ensures Get(a.entries, n) == Get(b.entries, n)
      {
        forall p: Path
          ensures At(Get(a.entries, n), p) == At(Get(b.entries, n), p)
        {
          assert ([n] + p)[1..] == p;
          assert At(Some(a), [n] + p) == At(Some(b), [n] + p);
        }
        assert At(Get(a.entries, n), []) == At(Get(b.entries, n), []);
        if n in a.entries {
          SamePathsSameTree(a.entries[n], b.entries[n]);
        }
      }
      forall n: string
        ensures n in a.entries <==> n in b.entries
        ensures n in a.entries ==> a.entries[n] == b.entries[n]
      {
        assert Get(a.entries, n) == Get(b.entries, n);
      }
      assert a.entries == b.entries;
    }
  }

  /** Every path of `stale` is a path of `src`, and of the same kind. */
  ghost predicate Covered(stale: Tree, src: Tree) {
    forall p: Path :: At(Some(stale), p).Some? ==>
      At(Some(src), p).Some? && (At(Some(stale), p).value.Folder? <==> At(Some(src), p).value.Folder?)
  }

  /** Copying into an absent destination reproduces the source. */
  lemma {:induction false} CopyToAbsent(src: Tree)
    ensures Overlay(src, None) == Some(src)
    decreases src
  {
    if src.Dir? {
      forall n | n in src.entries
        ensures Overlay(src.entries[n], None) == Some(src.entries[n])
      {
        CopyToAbsent(src.entries[n]);
      }
      assert Overlay(src, None).value.entries == src.entries;
    }
  }

  lemma {:induction false} CoveredCompatible(stale: Tree, src: Tree)
    requires Covered(stale, src)
    ensures Overlay(src, Some(stale)).Some?
    decreases src
  {
    assert At(Some(stale), []).Some?;
    if src.Dir? {
      forall n | n in src.entries
        ensures Overlay(src.entries[n], Get(stale.entries, n)).Some?
      {
        if n in stale.entries {
          forall p: Path | At(Some(stale.entries[n]), p).Some?
            ensures At(Some(src.entries[n]), p).Some?
            ensures At(Some(stale.entries[n]), p).value.Folder? <==> At(Some(src.entries[n]), p).value.Folder?
          {
            assert ([n] + p)[1..] == p;
            assert At(Some(stale), [n] + p).Some?;
          }
          CoveredCompatible(stale.entries[n], src.entries[n]);
        } else {
          CopyToAbsent(src.entries[n]);
        }
      }
    }
  }

  /**
   * Overlaying onto an earlier copy gives exactly the source if and only if the
   * earlier copy has no path the source lacks (and no file where it has a directory).
   */
  lemma OverlayIsExact(src: Tree, stale: Tree)
    ensures Overlay(src, Some(stale)) == Some(src) <==> Covered(stale, src)
  {
    if Overlay(src, Some(stale)) == Some(src) {
      forall p: Path | At(Some(stale), p).Some?
        ensures At(Some(src), p).Some?
        ensures At(Some(stale), p).value.Folder? <==> At(Some(src), p).value.Folder?
      {
        OverlayAt(src, Some(stale), p);
        OverlayKeepsKinds(src, Some(stale), p);
      }
    }
    if Covered(stale, src) {
      CoveredCompatible(stale, src);
      var r := Overlay(src, Some(stale)).value;
      forall p: Path
        ensures At(Some(r), p) == At(Some(src), p)
      {
        OverlayAt(src, Some(stale), p);
      }
      SamePathsSameTree(r, src);
    }
  }

  /** Where a copy succeeds, no destination directory has turned into a file. */
  lemma {:induction false} OverlayKeepsKinds(src: Tree, dst: Option<Tree>, p: Path)
    requires Overlay(src, dst).Some?
    ensures At(dst, p) == Some(Folder) ==> At(Overlay(src, dst), p) == Some(Folder)
    decreases |p|
  {
    if p != [] && src.Dir? && (dst.None? || dst.value.Dir?) && p[0] in src.entries {
      OverlayKeepsKinds(src.entries[p[0]], Get(Entries(dst), p[0]), p[1..]);
    }
  }

  /** A file where the other tree has a directory that matters: what a copy cannot get past. */
  ghost predicate Clash(src: Tree, dst: Option<Tree>, p: Path) {
    || (At(Some(src), p).Some? && At(Some(src), p).value.Leaf? && At(dst, p) == Some(Folder))
    || (At(dst, p).Some? && At(dst, p).value.Leaf? && exists n: string :: At(Some(src), p + [n]).Some?)
  }

  /** A fault-free copy stops if and only if the trees clash somewhere. */
  lemma {:induction false} OverlayFailsExactly(src: Tree, dst: Option<Tree>)
    ensures Overlay(src, dst).None? <==> exists p: Path :: Clash(src, dst, p)
    decreases src
  {
    if src.File? {
      forall p: Path, n: string
        ensures At(Some(src), p + [n]).None?
      {
        assert p + [n] != [];
      }
      assert Clash(src, dst, []) <==> dst.Some? && dst.value.Dir?;
    } else if dst.Some? && dst.value.File? {
      FileBelow(src, dst.value);
    } else {
      ClashBelow(src, dst);
      forall n | n in src.entries
        ensures Overlay(src.entries[n], Get(Entries(dst), n)).None? <==>
          exists p: Path :: Clash(src.entries[n], Get(Entries(dst), n), p)
      {
        OverlayFailsExactly(src.entries[n], Get(Entries(dst), n));
      }
      hide Clash;
    }
  }

  lemma FileBelow(src: Tree, dst: Tree)
    requires src.Dir? && dst.File?
    ensures src.entries != map[] <==> exists p: Path :: Clash(src, Some(dst), p)
  {
    if src.entries != map[] {
      var n :| n in src.entries;
      assert ([] + [n])[0] == n && ([] + [n])[1..] == [];
      assert At(Some(src), [] + [n]).Some?;
      assert Clash(src, Some(dst), []);
    } else {
      forall p: Path, n: string
        ensures At(Some(src), p + [n]).None?
      {
        assert p + [n] != [];
      }
    }
  }

  lemma NothingIsThere(p: Path)
    ensures At(None, p) == None
  {
  }

  /** Two directories clash where two of their entries do. */
  lemma ClashBelow(src: Tree, dst: Option<Tree>)
    requires src.Dir? && (dst.None? || dst.value.Dir?)
    ensures (exists p: Path :: Clash(src, dst, p)) <==>
      exists n, p: Path :: n in src.entries && Clash(src.entries[n], Get(Entries(dst), n), p)
  {
    if p: Path :| Clash(src, dst, p) {
      assert p != [];
      var n := p[0];
      forall k: string
        ensures At(Some(src), p + [k]) == At(Get(src.entries, n), p[1..] + [k])
      {
        assert (p + [k])[0] == n && (p + [k])[1..] == p[1..] + [k];
      }
      if At(Some(src), p).None? {
        var k: string :| At(Some(src), p + [k]).Some?;
        assert At(Get(src.entries, n), p[1..] + [k]).Some?;
        NothingIsThere(p[1..] + [k]);
      } else {
        assert At(Some(src), p) == At(Get(src.entries, n), p[1..]);
        NothingIsThere(p[1..]);
      }
      assert Get(src.entries, n).Some?;
      assert Clash(src.entries[n], Get(Entries(dst), n), p[1..]);
    }
    if n, p: Path :| n in src.entries && Clash(src.entries[n], Get(Entries(dst), n), p) {
      var q := [n] + p;
      assert q[0] == n && q[1..] == p;
      forall k: string
        ensures At(Some(src), q + [k]) == At(Some(src.entries[n]), p + [k])
      {
        assert (q + [k])[0] == n && (q + [k])[1..] == p + [k];
      }
      assert Clash(src, dst, q);
    }
  }

  /** Paths the source does not have are left as they were. */
  ghost predicate Untouched(src: Tree, dst: Option<Tree>, out: Option<Tree>) {
    forall p: Path :: At(Some(src), p).None? ==> At(out, p) == At(dst, p)
  }

  /** The loop invariant of the copy: the entries in `todo` are as before, the rest are copied. */
  ghost predicate Progress(src: Tree, dst: Option<Tree>, out: map<string, Tree>, todo: set<string>)
    requires src.Dir?
  {
    && (forall n :: n !in src.entries || n in todo ==> Get(out, n) == Get(Entries(dst), n))
    && (forall n :: n in src.entries && n !in todo ==>
          n in out && Overlay(src.entries[n], Get(Entries(dst), n)) == Some(out[n]))
    && Untouched(src, dst, Some(Dir(out)))
  }

  lemma OneMore(src: Tree, dst: Option<Tree>, out: map<string, Tree>, todo: set<string>, name: string,
                copied: Option<Tree>, below: bool)
    requires src.Dir? && todo <= src.entries.Keys && name in todo
    requires Progress(src, dst, out, todo)
    requires Untouched(src.entries[name], Get(Entries(dst), name), copied)
    requires below ==> copied.Some? && Overlay(src.entries[name], Get(Entries(dst), name)) == copied
    ensures Untouched(src, dst, Some(Dir(Put(out, name, copied))))
    ensures below ==> Progress(src, dst, Put(out, name, copied), todo - {name})
  {
    forall p: Path | At(Some(src), p).None?
      ensures At(Some(Dir(Put(out, name, copied))), p) == At(dst, p)
    {
      assert At(Some(Dir(out)), p) == At(dst, p);
      if p[0] == name {
        assert At(Some(src), p) == At(Some(src.entries[name]), p[1..]);
      }
    }
  }

  /** Once every entry has been copied, the destination is the overlay. */
  lemma AllCopied(src: Tree, dst: Option<Tree>, out: map<string, Tree>)
    requires src.Dir? && (dst.None? || dst.value.Dir?)
    requires Progress(src, dst, out, {})
    ensures Overlay(src, dst) == Some(Dir(out))
  {
    forall n
      ensures n in out <==> n in src.entries.Keys + Entries(dst).Keys
    {
      assert n !in src.entries ==> Get(out, n) == Get(Entries(dst), n);
    }
    forall n | n in out && n !in src.entries
      ensures out[n] == Entries(dst)[n]
    {
      assert Get(out, n) == Get(Entries(dst), n);
    }
    assert Overlay(src, dst).value.entries == out;
  }

  /** `fs::copy`: when `mayFail`, the system may refuse or leave any bytes behind. */
  method CopyFile(src: Tree, dst: Option<Tree>, mayFail: bool) returns (ok: bool, out: Option<Tree>)
    requires src.File?
    ensures ok ==> out.Some? && out == Overlay(src, dst)
    ensures Untouched(src, dst, out)
    ensures !mayFail ==> ok == Overlay(src, dst).Some?
  {
    if dst.Some? && dst.value.Dir? {
      return false, dst;
    }
    var fails: bool, begun: bool, written: string := *, *, *;
    if mayFail && fails {
      ok, out := false, if begun then Some(File(written)) else dst;
    } else {
      ok, out := true, Some(src);
    }
  }

  /**
   * `copy_dir_recursive`, over directory entries in any order.  With `mayFail` any system call
   * may fail, reading the next entry included, which ends the copy where it is.
   */
  method {:induction false} CopyDirRecursive(src: Tree, dst: Option<Tree>, mayFail: bool)
    returns (ok: bool, out: Option<Tree>)
    requires src.Dir?
    ensures ok ==> out.Some? && out == Overlay(src, dst)
    ensures Untouched(src, dst, out)
    ensures !mayFail ==> ok == Overlay(src, dst).Some?
    decreases src
  {
    out := dst;
    var mkdirFails: bool, readDirFails: bool := *, *;
    if mayFail && mkdirFails {
      return false, out;
    }
    if dst.None? {
      out := Some(Dir(map[]));
    }
    if mayFail && readDirFails {
      return false, out;
    }
    if out.value.File? {
      // Nothing can be created below a file; an empty source needs nothing created.
      return src.entries == map[], out;
    }
    var todo := src.entries.Keys;
    while todo != {}
      invariant todo <= src.entries.Keys
      invariant out.Some? && out.value.Dir?
      invariant Progress(src, dst, out.value.entries, todo)
    {
      var entryFails: bool := *;
      if mayFail && entryFails {
        return false, out;
      }
      var name :| name in todo;
      var below, copied := false, Get(out.value.entries, name);
      var from := src.entries[name];
      if from.Dir? {
        below, copied := CopyDirRecursive(from, copied, mayFail);
      } else {
        below, copied := CopyFile(from, copied, mayFail);
      }
      OneMore(src, dst, out.value.entries, todo, name, copied, below);
      out := Some(Dir(Put(out.value.entries, name, copied)));
      todo := todo - {name};
      if !below {
        return false, out;
      }
    }
    var endFails: bool := *;
    if mayFail && endFails {
      return false, out;
    }
    AllCopied(src, dst, out.value.entries);
    ok := true;
  }
}
