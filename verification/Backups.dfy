/** The backup directory of `fsutil.rs`: names, the newest backup, and pruning. */
module Backups {
  import opened Prelude
  import opened FileTree

  datatype Backup = Backup(tree: Tree, modified: int)

  /** Entry name to what the entry holds. */
  type BackupDir = map<string, Backup>

  datatype Candidate = Candidate(name: string, modified: int)

  function BackupName(component: string, stamp: string): string {
    component + "." + stamp + ".bak"
  }

  predicate EndsWith(s: string, suffix: string) {
    |suffix| <= |s| && s[|s| - |suffix|..] == suffix
  }

  predicate IsBackupOf(entry: string, component: string) {
    component + "." <= entry && EndsWith(entry, ".bak")
  }

  lemma BackupNameMatches(component: string, stamp: string)
    ensures IsBackupOf(BackupName(component, stamp), component)
    ensures var s := BackupName(component, stamp); s[|component| + 1..|s| - 4] == stamp
  {
    var s := BackupName(component, stamp);
    assert s == (component + ".") + (stamp + ".bak");
    assert s[|s| - 4..] == ".bak";
  }

  /** The scan takes exactly the names a backup can be given, and the component's name with ".bak" alone. */
  lemma TakenExactly(entry: string, component: string)
    ensures IsBackupOf(entry, component) <==>
      entry == component + ".bak" || exists stamp :: entry == BackupName(component, stamp)
  {
    var prefix, n := component + ".", |entry|;
    if IsBackupOf(entry, component) {
      if n < |prefix| + 4 {
        assert entry[n - 4..] == ".bak";
        assert entry[|component|] == prefix[|component|] == '.';
        assert forall i :: |component| < i < n ==> entry[i] == ".bak"[i - (n - 4)];
        assert n - 4 == |component|;
        assert entry == entry[..|component|] + entry[n - 4..];
      } else {
        var stamp := entry[|prefix|..n - 4];
        assert entry == prefix + stamp + ".bak" == BackupName(component, stamp);
      }
    }
    if stamp :| entry == BackupName(component, stamp) {
      BackupNameMatches(component, stamp);
    }
    if entry == component + ".bak" {
      assert prefix <= entry && entry[n - 4..] == ".bak";
    }
  }

  /** No entry belongs to two components, even when one name starts with the other. */
  lemma OneOwner(entry: string, a: string, b: string)
    requires '.' !in a && '.' !in b
    requires IsBackupOf(entry, a) && IsBackupOf(entry, b)
    ensures a == b
  {
    assert entry[|a|] == (a + ".")[|a|] == '.' && entry[|b|] == (b + ".")[|b|] == '.';
    assert forall i :: 0 <= i < |a| ==> entry[i] == (a + ".")[i] == a[i] != '.';
    assert forall i :: 0 <= i < |b| ==> entry[i] == (b + ".")[i] == b[i] != '.';
    assert a == entry[..|a|] && b == entry[..|b|];
  }

  /** The order in which `read_dir` happens to return the entries. */
  ghost predicate Lists(listing: seq<string>, dir: BackupDir) {
    && (forall i, j :: 0 <= i < j < |listing| ==> listing[i] != listing[j])
    && (forall n :: n in listing <==> n in dir)
  }

  /** A scan that may have stopped early. */
  ghost predicate Reads(listing: seq<string>, dir: BackupDir) {
    && (forall i, j :: 0 <= i < j < |listing| ==> listing[i] != listing[j])
    && (forall n :: n in listing ==> n in dir)
  }

  function Candidates(dir: BackupDir, listing: seq<string>, component: string): seq<Candidate> {
    if listing == [] then []
    else
      var n := listing[|listing| - 1];
      Candidates(dir, listing[..|listing| - 1], component) +
      if n in dir && IsBackupOf(n, component) then [Candidate(n, dir[n].modified)] else []
  }

  function Insert(sorted: seq<Candidate>, c: Candidate): seq<Candidate> {
    if sorted != [] && sorted[|sorted| - 1].modified < c.modified
    then Insert(sorted[..|sorted| - 1], c) + [sorted[|sorted| - 1]]
    else sorted + [c]
  }

  /** `sort_by_key(Reverse(modified))`, a stable sort. */
  function NewestFirst(cs: seq<Candidate>): seq<Candidate> {
    if cs == [] then [] else Insert(NewestFirst(cs[..|cs| - 1]), cs[|cs| - 1])
  }

  ghost predicate Descending(cs: seq<Candidate>) {
    forall i, j :: 0 <= i < j < |cs| ==> cs[j].modified <= cs[i].modified
  }

  lemma {:induction false} InsertSorts(sorted: seq<Candidate>, c: Candidate)
    requires Descending(sorted)
    ensures Descending(Insert(sorted, c))
    ensures multiset(Insert(sorted, c)) == multiset(sorted) + multiset{c}
  {
    if sorted != [] && sorted[|sorted| - 1].modified < c.modified {
      var front, last := sorted[..|sorted| - 1], sorted[|sorted| - 1];
      InsertSorts(front, c);
      var r := Insert(front, c);
      assert sorted == front + [last] && Insert(sorted, c) == r + [last];
      hide Insert;
      forall i | 0 <= i < |r|
        ensures last.modified <= r[i].modified
      {
        assert r[i] in multiset(r);
        assert r[i] in front || r[i] == c;
      }
    }
  }

  lemma {:induction false} NewestFirstSorts(cs: seq<Candidate>)
    ensures Descending(NewestFirst(cs))
    ensures multiset(NewestFirst(cs)) == multiset(cs)
  {
    if cs != [] {
      NewestFirstSorts(cs[..|cs| - 1]);
      InsertSorts(NewestFirst(cs[..|cs| - 1]), cs[|cs| - 1]);
      assert cs == cs[..|cs| - 1] + [cs[|cs| - 1]];
      hide Insert, Descending;
    }
  }

  lemma {:induction false} CandidatesAreMatches(dir: BackupDir, listing: seq<string>, component: string)
    requires forall i, j :: 0 <= i < j < |listing| ==> listing[i] != listing[j]
    ensures forall c :: c in Candidates(dir, listing, component) <==>
      c.name in listing && c.name in dir && IsBackupOf(c.name, component) && c.modified == dir[c.name].modified
    ensures forall c :: multiset(Candidates(dir, listing, component))[c] <= 1
  {
    if listing != [] {
      CandidatesAreMatches(dir, listing[..|listing| - 1], component);
      assert listing == listing[..|listing| - 1] + [listing[|listing| - 1]];
    }
  }

  lemma NoRepeats(r: seq<Candidate>)
    requires forall c :: multiset(r)[c] <= 1
    ensures forall i, j :: 0 <= i < j < |r| ==> r[i] != r[j]
  {
    forall i, j | 0 <= i < j < |r|
      ensures r[i] != r[j]
    {
      assert r == r[..j] + r[j..] && r[i] in r[..j] && r[j] in r[j..];
      assert multiset(r)[r[i]] == multiset(r[..j])[r[i]] + multiset(r[j..])[r[i]];
    }
  }

  /** The candidates in the order `find_latest_backup_in` and `prune_backups_in` put them. */
  function Ranked(dir: BackupDir, listing: seq<string>, component: string): seq<Candidate> {
    NewestFirst(Candidates(dir, listing, component))
  }

  ghost predicate IsNewest(dir: BackupDir, component: string, n: string) {
    && n in dir && IsBackupOf(n, component)
    && forall m :: m in dir && IsBackupOf(m, component) ==> dir[m].modified <= dir[n].modified
  }

  lemma RankedMembers(dir: BackupDir, listing: seq<string>, component: string)
    requires Reads(listing, dir)
    ensures forall c :: c in Ranked(dir, listing, component) <==>
      c.name in listing && IsBackupOf(c.name, component) && c.modified == dir[c.name].modified
    ensures forall c :: multiset(Ranked(dir, listing, component))[c] <= 1
  {
    CandidatesAreMatches(dir, listing, component);
    NewestFirstSorts(Candidates(dir, listing, component));
    forall c
      ensures c in Ranked(dir, listing, component) <==> c in Candidates(dir, listing, component)
    {
      assert c in Ranked(dir, listing, component) <==> c in multiset(Ranked(dir, listing, component));
    }
  }

  lemma RankedDistinct(dir: BackupDir, listing: seq<string>, component: string)
    requires Reads(listing, dir)
    ensures forall i, j :: 0 <= i < j < |Ranked(dir, listing, component)| ==>
      Ranked(dir, listing, component)[i].name != Ranked(dir, listing, component)[j].name
  {
    RankedMembers(dir, listing, component);
    NoRepeats(Ranked(dir, listing, component));
  }

  /** `find_latest_backup_in`, once the directory can be read. */
  function Latest(dir: BackupDir, listing: seq<string>, component: string): Option<string> {
    var r := Ranked(dir, listing, component);
    if r == [] then None else Some(r[0].name)
  }

  lemma LatestIsNewest(dir: BackupDir, listing: seq<string>, component: string)
    requires Lists(listing, dir)
    ensures Latest(dir, listing, component).None? <==>
      forall n :: n in dir ==> !IsBackupOf(n, component)
    ensures Latest(dir, listing, component).Some? ==>
      IsNewest(dir, component, Latest(dir, listing, component).value)
  {
    RankedMembers(dir, listing, component);
    NewestFirstSorts(Candidates(dir, listing, component));
    var r := Ranked(dir, listing, component);
    forall n | n in dir && IsBackupOf(n, component)
      ensures r != [] && dir[n].modified <= r[0].modified
    {
      assert Candidate(n, dir[n].modified) in r;
    }
    if r != [] {
      assert r[0] in r;
    }
  }

  /** The candidates of one time, in their order. */
  function OfTime(cs: seq<Candidate>, time: int): seq<Candidate> {
    if cs == [] then []
    else OfTime(cs[..|cs| - 1], time) + if cs[|cs| - 1].modified == time then [cs[|cs| - 1]] else []
  }

  lemma OfTimeAppend(cs: seq<Candidate>, c: Candidate, time: int)
    ensures OfTime(cs + [c], time) == OfTime(cs, time) + if c.modified == time then [c] else []
  {
    assert (cs + [c])[..|cs|] == cs;
  }

  lemma {:induction false} InsertIsStable(sorted: seq<Candidate>, c: Candidate, time: int)
    ensures OfTime(Insert(sorted, c), time) == OfTime(sorted + [c], time)
  {
    if sorted != [] && sorted[|sorted| - 1].modified < c.modified {
      var front, last := sorted[..|sorted| - 1], sorted[|sorted| - 1];
      InsertIsStable(front, c, time);
      OfTimeAppend(Insert(front, c), last, time);
      OfTimeAppend(front, c, time);
    }
    OfTimeAppend(sorted, c, time);
  }

  /** The sort is stable: backups of the same time stay in the order in which they were listed. */
  lemma {:induction false} NewestFirstIsStable(cs: seq<Candidate>, time: int)
    ensures OfTime(NewestFirst(cs), time) == OfTime(cs, time)
  {
    if cs != [] {
      var front, last := cs[..|cs| - 1], cs[|cs| - 1];
      NewestFirstIsStable(front, time);
      InsertIsStable(NewestFirst(front), last, time);
      OfTimeAppend(NewestFirst(front), last, time);
    }
  }

  /** Deletes entries in order; a failed removal leaves what `stuck` says, whatever that is. */
  function Delete(dir: BackupDir, doomed: seq<Candidate>, stuck: BackupDir): BackupDir {
    if doomed == [] then dir
    else
      var n := doomed[|doomed| - 1].name;
      Put(Delete(dir, doomed[..|doomed| - 1], stuck), n, Get(stuck, n))
  }

  lemma {:induction false} DeleteEffect(dir: BackupDir, doomed: seq<Candidate>, stuck: BackupDir, n: string)
    ensures Get(Delete(dir, doomed, stuck), n) ==
      if exists i :: 0 <= i < |doomed| && doomed[i].name == n then Get(stuck, n) else Get(dir, n)
  {
    if doomed != [] {
      var front := doomed[..|doomed| - 1];
      DeleteEffect(dir, front, stuck, n);
      if exists i :: 0 <= i < |front| && front[i].name == n {
        var i :| 0 <= i < |front| && front[i].name == n;
        assert doomed[i].name == n;
      }
    }
  }

  /** `prune_backups_in`: everything but the newest backup of the component goes. */
  function Pruned(dir: BackupDir, listing: seq<string>, component: string, stuck: BackupDir): BackupDir {
    var r := Ranked(dir, listing, component);
    if r == [] then dir else Delete(dir, r[1..], stuck)
  }

  lemma PruneEffect(dir: BackupDir, listing: seq<string>, component: string, stuck: BackupDir, n: string)
    requires Reads(listing, dir)
    ensures Get(Pruned(dir, listing, component, stuck), n) ==
      if n in listing && IsBackupOf(n, component) && Latest(dir, listing, component) != Some(n)
      then Get(stuck, n) else Get(dir, n)
  {
    RankedMembers(dir, listing, component);
    RankedDistinct(dir, listing, component);
    var r := Ranked(dir, listing, component);
    assert n in listing && IsBackupOf(n, component) ==> Candidate(n, dir[n].modified) in r;
    if r != [] {
      DeleteEffect(dir, r[1..], stuck, n);
      forall i | 0 <= i < |r[1..]|
        ensures r[1..][i].name in listing && IsBackupOf(r[1..][i].name, component) && r[1..][i].name != r[0].name
      {
        assert r[i + 1] in r;
      }
      hide Ranked, Delete;
      if n in listing && IsBackupOf(n, component) && n != r[0].name {
        var i :| 0 <= i < |r| && r[i].name == n;
        assert r[1..][i - 1].name == n;
      }
    }
  }

  /**
   * Pruning spares the newest backup however little of the directory could be read; every
   * other entry stays or goes, and after a full scan all other backups of the component go.
   */
  lemma PruneSparesNewest(dir: BackupDir, listing: seq<string>, component: string, stuck: BackupDir, newest: string)
    requires Reads(listing, dir)
    requires newest in dir && IsBackupOf(newest, component)
    requires forall m :: m in dir && IsBackupOf(m, component) && m != newest ==> dir[m].modified < dir[newest].modified
    ensures Get(Pruned(dir, listing, component, stuck), newest) == Get(dir, newest)
    ensures forall m :: Get(Pruned(dir, listing, component, stuck), m) in {Get(dir, m), Get(stuck, m)}
    ensures Lists(listing, dir) ==> forall m :: m in dir && IsBackupOf(m, component) && m != newest ==>
      Get(Pruned(dir, listing, component, stuck), m) == Get(stuck, m)
  {
    forall m: string
      ensures Get(Pruned(dir, listing, component, stuck), m) in {Get(dir, m), Get(stuck, m)}
      ensures m in listing && IsBackupOf(m, component) && Latest(dir, listing, component) != Some(m) ==>
        Get(Pruned(dir, listing, component, stuck), m) == Get(stuck, m)
    {
      PruneEffect(dir, listing, component, stuck, m);
    }
    PruneEffect(dir, listing, component, stuck, newest);
    var r := Ranked(dir, listing, component);
    RankedMembers(dir, listing, component);
    NewestFirstSorts(Candidates(dir, listing, component));
    if newest in listing {
      var c := Candidate(newest, dir[newest].modified);
      assert c in r && r[0] in r;
      var i :| 0 <= i < |r| && r[i] == c;
      assert r[0].name == newest;
    }
    if Lists(listing, dir) {
      assert newest in listing;
    }
  }

  /** Pruning one component never touches what is not its own, however the scan went. */
  lemma PruneKeepsOthers(dir: BackupDir, listing: seq<string>, component: string, stuck: BackupDir, n: string)
    requires !IsBackupOf(n, component)
    ensures Get(Pruned(dir, listing, component, stuck), n) == Get(dir, n)
  {
    var cs, r := Candidates(dir, listing, component), Ranked(dir, listing, component);
    if r != [] {
      OnlyMatches(dir, listing, component);
      NewestFirstSorts(cs);
      DeleteEffect(dir, r[1..], stuck, n);
      forall i | 0 <= i < |r[1..]|
        ensures r[1..][i].name != n
      {
        assert r[i + 1] in multiset(r);
        assert r[i + 1] in cs;
      }
    }
  }

  lemma {:induction false} OnlyMatches(dir: BackupDir, listing: seq<string>, component: string)
    ensures forall c :: c in Candidates(dir, listing, component) ==> IsBackupOf(c.name, component)
  {
    if listing != [] {
      OnlyMatches(dir, listing[..|listing| - 1], component);
    }
  }

  /** Pruning one component never deletes another component's backup. */
  lemma PruneIsolated(dir: BackupDir, listing: seq<string>, a: string, b: string, stuck: BackupDir, n: string)
    requires '.' !in a && '.' !in b && a != b
    requires IsBackupOf(n, b)
    ensures Get(Pruned(dir, listing, a, stuck), n) == Get(dir, n)
  {
    if IsBackupOf(n, a) {
      OneOwner(n, a, b);
    }
    PruneKeepsOthers(dir, listing, a, stuck, n);
  }

  /** The scan both functions share: collect the matching entries. */
  method Collect(dir: BackupDir, listing: seq<string>, component: string) returns (candidates: seq<Candidate>)
    ensures candidates == Candidates(dir, listing, component)
  {
    candidates := [];
    for i := 0 to |listing|
      invariant candidates == Candidates(dir, listing[..i], component)
    {
      var n := listing[i];
      if n in dir && IsBackupOf(n, component) {
        candidates := candidates + [Candidate(n, dir[n].modified)];
      }
      assert listing[..i + 1][..i] == listing[..i];
    }
    assert listing[..|listing|] == listing;
  }

  method FindLatestBackupIn(dir: BackupDir, listing: seq<string>, component: string) returns (r: Option<string>)
    requires Lists(listing, dir)
    ensures r == Latest(dir, listing, component)
    ensures r.None? <==> forall n :: n in dir ==> !IsBackupOf(n, component)
    ensures r.Some? ==> IsNewest(dir, component, r.value)
  {
    var candidates := Collect(dir, listing, component);
    candidates := NewestFirst(candidates);
    LatestIsNewest(dir, listing, component);
    return if candidates == [] then None else Some(candidates[0].name);
  }

  method PruneBackupsIn(dir: BackupDir, listing: seq<string>, component: string, stuck: BackupDir)
    returns (after: BackupDir)
    ensures after == Pruned(dir, listing, component, stuck)
  {
    var candidates := Collect(dir, listing, component);
    candidates := NewestFirst(candidates);
    after := dir;
    if candidates == [] {
      return;
    }
    var doomed := candidates[1..];
    for i := 0 to |doomed|
      invariant after == Delete(dir, doomed[..i], stuck)
    {
      after := Put(after, doomed[i].name, Get(stuck, doomed[i].name));
      assert doomed[..i + 1][..i] == doomed[..i];
    }
    assert doomed[..|doomed|] == doomed;
  }
}
