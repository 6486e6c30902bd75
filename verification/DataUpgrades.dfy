/**
 * Versioned data upgrades (`run_versioned_upgrades`): each boot runs the steps between the
 * recorded version and its own, recording progress as it goes.  A boot is given the number of
 * database operations that succeed before it fails or is killed.
 */
module DataUpgrades {
  import opened Prelude
  import opened Versions

  datatype Event = Started(step: nat) | Finished(step: nat) | Recorded(version: string)

  /** The recorded version, and everything that has happened to the database so far. */
  datatype Store = Store(version: Option<string>, trace: seq<Event>) {
    function Effective(): string { version.Or(LEGACY_BASELINE) }

    function Log(e: Event): Store { this.(trace := trace + [e]) }

    /** `set_system_version` */
    function Record(v: string): Store { Store(Some(v), trace + [Recorded(v)]) }
  }

  predicate Due(stored: string, step: string, app: string) {
    Compare(stored, step) == Less && Compare(step, app) != Greater
  }

  /** The loop over the steps from `i` on; `left` operations still succeed.  The result is `None` for a cut. */
  function RunSteps(steps: seq<string>, stored: string, app: string, i: nat, db: Store, left: nat)
    : (Store, Option<nat>)
    requires i <= |steps|
    decreases |steps| - i
  {
    if i == |steps| then (db, Some(left))
    else if !Due(stored, steps[i], app) then RunSteps(steps, stored, app, i + 1, db, left)
    else if left == 0 then (db.Log(Started(i)), None)
    else if left == 1 then (db.Log(Started(i)).Log(Finished(i)), None)
    else RunSteps(steps, stored, app, i + 1, db.Log(Started(i)).Log(Finished(i)).Record(steps[i]), left - 2)
  }

  /** One boot of a binary of version `app`: the database after it, and whether it completed. */
  function Boot(steps: seq<string>, db: Store, app: string, left: nat): (Store, bool) {
    if left == 0 then (db, false)
    else
      var (db1, rest) := RunSteps(steps, db.Effective(), app, 0, db, left - 1);
      Conclude(db1, rest, app)
  }

  /** The end of a boot, which records the application version unless the last step has. */
  function Conclude(db: Store, rest: Option<nat>, app: string): (Store, bool) {
    if rest.None? || rest.value == 0 then (db, false)
    else if db.version == Some(app) then (db, true)
    else if rest.value == 1 then (db, false)
    else (db.Record(app), true)
  }

  datatype Attempt = Attempt(app: string, left: nat)

  function Boots(steps: seq<string>, db: Store, attempts: seq<Attempt>): Store {
    if attempts == [] then db
    else
      var last := attempts[|attempts| - 1];
      Boot(steps, Boots(steps, db, attempts[..|attempts| - 1]), last.app, last.left).0
  }

  ghost predicate Increasing(steps: seq<string>) {
    forall i, j :: 0 <= i < j < |steps| ==> Compare(steps[i], steps[j]) == Less
  }

  /** No boot of a binary older than what is recorded when it starts gets as far as recording its version. */
  ghost predicate NeverDowngraded(steps: seq<string>, db: Store, attempts: seq<Attempt>) {
    forall i :: 0 <= i < |attempts| && attempts[i].left >= 3 ==>
      AtMost(Boots(steps, db, attempts[..i]).Effective(), attempts[i].app)
  }

  /** Application versions never go back, starting from what the database records. */
  ghost predicate NonDecreasing(from: string, attempts: seq<Attempt>) {
    && (forall i :: 0 <= i < |attempts| ==> AtMost(from, attempts[i].app))
    && (forall i, j :: 0 <= i < j < |attempts| ==> AtMost(attempts[i].app, attempts[j].app))
  }

  ghost predicate Done(trace: seq<Event>, step: nat) { Finished(step) in trace }

  /** Each version recorded is at least the one the run started with and all those recorded before. */
  ghost predicate RecordsNeverDecrease(from: string, trace: seq<Event>) {
    && (forall i :: 0 <= i < |trace| && trace[i].Recorded? ==> AtMost(from, trace[i].version))
    && (forall i, j :: 0 <= i < j < |trace| && trace[i].Recorded? && trace[j].Recorded? ==>
          AtMost(trace[i].version, trace[j].version))
  }

  /** Recorded versions never decrease, and no step starts at or below a version already recorded. */
  ghost predicate Ordered(steps: seq<string>, from: string, trace: seq<Event>) {
    && RecordsNeverDecrease(from, trace)
    && (forall i :: 0 <= i < |trace| && trace[i].Started? ==>
          trace[i].step < |steps| && Compare(from, steps[trace[i].step]) == Less)
    && (forall i, j :: 0 <= i < j < |trace| && trace[i].Recorded? && trace[j].Started? ==>
          trace[j].step < |steps| && Compare(trace[i].version, steps[trace[j].step]) == Less)
  }

  /** What every reachable database satisfies, `from` being the version the run started with. */
  ghost predicate Invariant(steps: seq<string>, from: string, db: Store) {
    && AtMost(from, db.Effective())
    && Ordered(steps, from, db.trace)
    && (forall i :: 0 <= i < |db.trace| && db.trace[i].Recorded? ==> AtMost(db.trace[i].version, db.Effective()))
    && (forall s :: 0 <= s < |steps| && Compare(from, steps[s]) == Less && AtMost(steps[s], db.Effective()) ==>
          Done(db.trace, s))
  }

  /** The same in the middle of the loop, before step `i`, `stored` having been read at the start. */
  ghost predicate Midway(steps: seq<string>, from: string, stored: string, app: string, i: nat, db: Store) {
    && Invariant(steps, from, db)
    && AtMost(stored, db.Effective()) && AtMost(db.Effective(), app)
    && (forall s :: i <= s < |steps| && Due(stored, steps[s], app) ==> Compare(db.Effective(), steps[s]) == Less)
    && (forall s :: 0 <= s < i && s < |steps| && Due(stored, steps[s], app) ==> Done(db.trace, s))
  }

  lemma LogKeeps(steps: seq<string>, from: string, db: Store, e: Event)
    requires Invariant(steps, from, db)
    requires e.Finished? || (e.Started? && e.step < |steps| && Compare(db.Effective(), steps[e.step]) == Less)
    ensures Invariant(steps, from, db.Log(e))
  {
    hide Compare;
    var trace := db.Log(e).trace;
    forall s | 0 <= s < |steps| && Done(db.trace, s)
      ensures Done(trace, s)
    {
    }
    if e.Started? {
      TotalPreorder(from, db.Effective(), steps[e.step]);
      forall i | 0 <= i < |db.trace| && trace[i].Recorded?
        ensures Compare(trace[i].version, steps[e.step]) == Less
      {
        TotalPreorder(trace[i].version, db.Effective(), steps[e.step]);
      }
    }
  }

  lemma RecordKeeps(steps: seq<string>, from: string, db: Store, v: string)
    requires Invariant(steps, from, db) && AtMost(db.Effective(), v)
    requires forall s :: 0 <= s < |steps| && Compare(db.Effective(), steps[s]) == Less && AtMost(steps[s], v) ==>
      Done(db.trace, s)
    ensures Invariant(steps, from, db.Record(v))
  {
    hide Compare;
    var trace := db.Record(v).trace;
    TotalPreorder(from, db.Effective(), v);
    TotalPreorder(v, v, v);
    forall i | 0 <= i < |db.trace| && trace[i].Recorded?
      ensures AtMost(trace[i].version, v)
    {
      TotalPreorder(trace[i].version, db.Effective(), v);
    }
    forall s | 0 <= s < |steps| && Compare(from, steps[s]) == Less && AtMost(steps[s], v)
      ensures Done(trace, s)
    {
      TotalPreorder(db.Effective(), steps[s], v);
      assert Done(db.trace, s);
    }
  }

  lemma {:induction false} StepsKeep(
    steps: seq<string>, from: string, stored: string, app: string, i: nat, db: Store, left: nat)
    requires Increasing(steps) && i <= |steps| && Midway(steps, from, stored, app, i, db)
    ensures var (db', rest) := RunSteps(steps, stored, app, i, db, left);
      Invariant(steps, from, db') && AtMost(stored, db'.Effective()) &&
      (rest.Some? ==> Midway(steps, from, stored, app, |steps|, db'))
    decreases |steps| - i
  {
    hide Compare;
    if i < |steps| {
      if Due(stored, steps[i], app) {
        var db1 := db.Log(Started(i));
        LogKeeps(steps, from, db, Started(i));
        var db2 := db1.Log(Finished(i));
        LogKeeps(steps, from, db1, Finished(i));
        assert db2.trace[|db2.trace| - 1] == Finished(i);
        var db3 := db2.Record(steps[i]);
        StepRecorded(steps, from, stored, app, i, db, db3);
        if left >= 2 {
          StepsKeep(steps, from, stored, app, i + 1, db3, left - 2);
        }
      } else {
        StepsKeep(steps, from, stored, app, i + 1, db, left);
      }
    }
  }

  lemma StepRecorded(
    steps: seq<string>, from: string, stored: string, app: string, i: nat, db: Store, db3: Store)
    requires Increasing(steps) && i < |steps| && Midway(steps, from, stored, app, i, db)
    requires Due(stored, steps[i], app)
    requires db3 == db.Log(Started(i)).Log(Finished(i)).Record(steps[i])
    ensures Midway(steps, from, stored, app, i + 1, db3)
  {
    hide Compare;
    var db2 := db.Log(Started(i)).Log(Finished(i));
    LogKeeps(steps, from, db, Started(i));
    LogKeeps(steps, from, db.Log(Started(i)), Finished(i));
    assert db2.trace[|db2.trace| - 1] == Finished(i);
    forall s | Done(db.trace, s)
      ensures Done(db2.trace, s) && Done(db3.trace, s)
    {
    }
    forall s | 0 <= s < |steps| && Compare(db2.Effective(), steps[s]) == Less && AtMost(steps[s], steps[i])
      ensures Done(db2.trace, s)
    {
      TotalPreorder(stored, db2.Effective(), steps[s]);
      TotalPreorder(steps[s], steps[i], app);
      TotalPreorder(steps[s], steps[i], steps[s]);
    }
    RecordKeeps(steps, from, db2, steps[i]);
    TotalPreorder(stored, steps[i], app);
  }

  lemma BootKeeps(steps: seq<string>, from: string, db: Store, app: string, left: nat)
    requires Increasing(steps) && Invariant(steps, from, db) && AtMost(db.Effective(), app)
    ensures var (db', completed) := Boot(steps, db, app, left);
      Invariant(steps, from, db') && AtMost(db.Effective(), db'.Effective()) && AtMost(db'.Effective(), app) &&
      (completed ==> db'.version == Some(app))
  {
    hide Compare, RunSteps;
    var stored := db.Effective();
    TotalPreorder(stored, stored, app);
    if left > 0 {
      StepsStayBelow(steps, stored, app, 0, db, left - 1);
      StepsKeep(steps, from, stored, app, 0, db, left - 1);
      var (db1, rest) := RunSteps(steps, stored, app, 0, db, left - 1);
      TotalPreorder(app, app, app);
      if rest.Some? {
        forall s | 0 <= s < |steps| && Compare(db1.Effective(), steps[s]) == Less && AtMost(steps[s], app)
          ensures Done(db1.trace, s)
        {
          TotalPreorder(stored, db1.Effective(), steps[s]);
          assert Due(stored, steps[s], app);
        }
        RecordKeeps(steps, from, db1, app);
      }
    }
  }

  lemma {:induction false} StepsStayBelow(
    steps: seq<string>, stored: string, app: string, i: nat, db: Store, left: nat)
    requires i <= |steps| && AtMost(db.Effective(), app)
    ensures AtMost(RunSteps(steps, stored, app, i, db, left).0.Effective(), app)
    decreases |steps| - i
  {
    hide Compare;
    if i < |steps| {
      if Due(stored, steps[i], app) {
        var db3 := db.Log(Started(i)).Log(Finished(i)).Record(steps[i]);
        if left >= 2 {
          StepsStayBelow(steps, stored, app, i + 1, db3, left - 2);
        }
      } else {
        StepsStayBelow(steps, stored, app, i + 1, db, left);
      }
    }
  }

  // ----- binaries that are older than the database

  /** A binary older than what is recorded either leaves the database alone or lowers it to its own version. */
  lemma OlderBinaryBoots(steps: seq<string>, db: Store, app: string, left: nat)
    requires !AtMost(db.Effective(), app)
    ensures Boot(steps, db, app, left) == if left < 3 then (db, false) else (db.Record(app), true)
  {
    hide Compare, RunSteps;
    TotalPreorder(app, app, app);
    if left > 0 {
      NothingIsDue(steps, db.Effective(), app, 0, db, left - 1);
    }
  }

  lemma {:induction false} NothingIsDue(
    steps: seq<string>, stored: string, app: string, i: nat, db: Store, left: nat)
    requires i <= |steps| && !AtMost(stored, app)
    ensures RunSteps(steps, stored, app, i, db, left) == (db, Some(left))
    decreases |steps| - i
  {
    hide Compare;
    if i < |steps| {
      TotalPreorder(stored, steps[i], app);
      NothingIsDue(steps, stored, app, i + 1, db, left);
    }
  }

  lemma {:induction false} StepsStayAbove(
    steps: seq<string>, stored: string, app: string, i: nat, db: Store, left: nat)
    requires i <= |steps| && AtMost(stored, db.Effective())
    ensures AtMost(stored, RunSteps(steps, stored, app, i, db, left).0.Effective())
    decreases |steps| - i
  {
    hide Compare;
    if i < |steps| {
      if Due(stored, steps[i], app) && left >= 2 {
        var db3 := db.Log(Started(i)).Log(Finished(i)).Record(steps[i]);
        StepsStayAbove(steps, stored, app, i + 1, db3, left - 2);
      } else if !Due(stored, steps[i], app) {
        StepsStayAbove(steps, stored, app, i + 1, db, left);
      }
    }
  }

  /** A boot, cut off anywhere, lowers the recorded version if and only if the binary is older and records its own. */
  lemma LoweredExactlyByOlderBinaries(steps: seq<string>, db: Store, app: string, left: nat)
    ensures AtMost(db.Effective(), Boot(steps, db, app, left).0.Effective()) <==>
      AtMost(db.Effective(), app) || left < 3
  {
    TotalPreorder(db.Effective(), db.Effective(), app);
    hide Compare;
    if !AtMost(db.Effective(), app) {
      OlderBinaryBoots(steps, db, app, left);
    } else if left > 0 {
      StepsStayAbove(steps, db.Effective(), app, 0, db, left - 1);
      hide RunSteps;
    }
  }

  // ----- runs of boots

  /** The recorded version is the initial one, or one recorded in the run. */
  ghost predicate Accounted(from: string, db: Store) {
    db.Effective() == from || Recorded(db.Effective()) in db.trace
  }

  lemma {:induction false} StepsOnlyAdd(
    steps: seq<string>, from: string, stored: string, app: string, i: nat, db: Store, left: nat)
    requires i <= |steps| && Accounted(from, db)
    ensures var db' := RunSteps(steps, stored, app, i, db, left).0;
      db.trace <= db'.trace && Accounted(from, db')
    decreases |steps| - i
  {
    hide Due;
    if i < |steps| {
      if Due(stored, steps[i], app) && left >= 2 {
        var db3 := db.Log(Started(i)).Log(Finished(i)).Record(steps[i]);
        assert db3.trace[|db3.trace| - 1] == Recorded(steps[i]);
        StepsOnlyAdd(steps, from, stored, app, i + 1, db3, left - 2);
      } else if !Due(stored, steps[i], app) {
        StepsOnlyAdd(steps, from, stored, app, i + 1, db, left);
      }
    }
  }

  lemma BootOnlyAdds(steps: seq<string>, from: string, db: Store, app: string, left: nat)
    requires Accounted(from, db)
    ensures var db' := Boot(steps, db, app, left).0;
      db.trace <= db'.trace && Accounted(from, db')
  {
    if left > 0 {
      StepsOnlyAdd(steps, from, db.Effective(), app, 0, db, left - 1);
      hide RunSteps, Conclude, Accounted, Store.Effective;
      var (db1, rest) := RunSteps(steps, db.Effective(), app, 0, db, left - 1);
      ConcludeOnlyAdds(from, db1, rest, app);
    }
  }

  lemma ConcludeOnlyAdds(from: string, db: Store, rest: Option<nat>, app: string)
    requires Accounted(from, db)
    ensures db.trace <= Conclude(db, rest, app).0.trace && Accounted(from, Conclude(db, rest, app).0)
  {
    assert db.Record(app).trace[|db.trace|] == Recorded(app);
  }

  lemma {:induction false} BootsAccount(steps: seq<string>, db: Store, attempts: seq<Attempt>)
    ensures Accounted(db.Effective(), Boots(steps, db, attempts))
  {
    hide Boot;
    if attempts != [] {
      var front, last := attempts[..|attempts| - 1], attempts[|attempts| - 1];
      BootsAccount(steps, db, front);
      BootOnlyAdds(steps, db.Effective(), Boots(steps, db, front), last.app, last.left);
    }
  }

  lemma DowngradeShows(from: string, db: Store, app: string)
    requires Accounted(from, db) && !AtMost(db.Effective(), app)
    ensures !RecordsNeverDecrease(from, db.Record(app).trace)
  {
    hide AtMost;
    var trace := db.Record(app).trace;
    assert trace[|db.trace|] == Recorded(app);
    if db.Effective() != from {
      var i :| 0 <= i < |db.trace| && db.trace[i] == Recorded(db.Effective());
      assert trace[i] == Recorded(db.Effective());
    }
  }

  /** A downgrade that gets through shows in what has been recorded. */
  lemma {:induction false} RecordsRevealDowngrades(steps: seq<string>, db: Store, attempts: seq<Attempt>)
    requires RecordsNeverDecrease(db.Effective(), Boots(steps, db, attempts).trace)
    ensures NeverDowngraded(steps, db, attempts)
  {
    hide Compare, Boot, AtMost;
    if attempts != [] {
      var from, front, last := db.Effective(), attempts[..|attempts| - 1], attempts[|attempts| - 1];
      var mid, after := Boots(steps, db, front), Boots(steps, db, attempts);
      BootsAccount(steps, db, front);
      BootOnlyAdds(steps, from, mid, last.app, last.left);
      RecordsNeverDecreaseBefore(from, mid.trace, after.trace);
      RecordsRevealDowngrades(steps, db, front);
      assert last.left >= 3 ==> AtMost(mid.Effective(), last.app) by {
        if last.left >= 3 && !AtMost(mid.Effective(), last.app) {
          OlderBinaryBoots(steps, mid, last.app, last.left);
          DowngradeShows(from, mid, last.app);
        }
      }
      forall i | 0 <= i < |attempts| && attempts[i].left >= 3
        ensures AtMost(Boots(steps, db, attempts[..i]).Effective(), attempts[i].app)
      {
        if i < |front| {
          assert front[..i] == attempts[..i] && front[i] == attempts[i];
        }
      }
    }
  }

  lemma RecordsNeverDecreaseBefore(from: string, a: seq<Event>, b: seq<Event>)
    requires a <= b && RecordsNeverDecrease(from, b)
    ensures RecordsNeverDecrease(from, a)
  {
    hide AtMost;
    assert forall i :: 0 <= i < |a| ==> a[i] == b[i];
  }

  lemma NeverDowngradedBefore(steps: seq<string>, db: Store, attempts: seq<Attempt>)
    requires attempts != [] && NeverDowngraded(steps, db, attempts)
    ensures NeverDowngraded(steps, db, attempts[..|attempts| - 1])
  {
    hide Boots, AtMost;
    var front := attempts[..|attempts| - 1];
    forall i | 0 <= i < |front| && front[i].left >= 3
      ensures AtMost(Boots(steps, db, front[..i]).Effective(), front[i].app)
    {
      assert front[..i] == attempts[..i] && front[i] == attempts[i];
    }
  }

  lemma {:induction false} BootsKeepInvariant(steps: seq<string>, db: Store, attempts: seq<Attempt>)
    requires Increasing(steps) && db.trace == [] && NeverDowngraded(steps, db, attempts)
    ensures Invariant(steps, db.Effective(), Boots(steps, db, attempts))
  {
    hide Compare, Boot, AtMost, Invariant;
    if attempts == [] {
      FreshInvariant(steps, db);
    } else {
      var front, last := attempts[..|attempts| - 1], attempts[|attempts| - 1];
      NeverDowngradedBefore(steps, db, attempts);
      BootsKeepInvariant(steps, db, front);
      var mid := Boots(steps, db, front);
      if AtMost(mid.Effective(), last.app) {
        BootKeeps(steps, db.Effective(), mid, last.app, last.left);
      } else {
        OlderBinaryBoots(steps, mid, last.app, last.left);
      }
    }
  }

  /**
   * Over any sequence of boots, each of them cut off anywhere, the following hold if and only if no
   * boot of a binary older than what is recorded gets as far as recording its version: recorded
   * versions never decrease, a step at or below a recorded version never starts again, and every
   * step up to the recorded version has run to completion.
   */
  lemma BootsKeep(steps: seq<string>, db: Store, attempts: seq<Attempt>)
    requires Increasing(steps) && db.trace == []
    ensures Invariant(steps, db.Effective(), Boots(steps, db, attempts)) <==> NeverDowngraded(steps, db, attempts)
    ensures RecordsNeverDecrease(db.Effective(), Boots(steps, db, attempts).trace) <==>
      NeverDowngraded(steps, db, attempts)
  {
    hide Compare, Boots, RecordsNeverDecrease;
    if NeverDowngraded(steps, db, attempts) {
      BootsKeepInvariant(steps, db, attempts);
    } else if RecordsNeverDecrease(db.Effective(), Boots(steps, db, attempts).trace) {
      RecordsRevealDowngrades(steps, db, attempts);
    }
  }

  /** Binaries that only ever get newer never downgrade. */
  lemma {:induction false} NewerBinariesNeverDowngrade(steps: seq<string>, db: Store, attempts: seq<Attempt>)
    requires NonDecreasing(db.Effective(), attempts)
    ensures NeverDowngraded(steps, db, attempts)
    ensures attempts != [] ==> AtMost(Boots(steps, db, attempts).Effective(), attempts[|attempts| - 1].app)
  {
    hide Compare, Boot;
    if attempts != [] {
      var front, last := attempts[..|attempts| - 1], attempts[|attempts| - 1];
      forall i | 0 <= i < |front|
        ensures front[i] == attempts[i] && front[..i] == attempts[..i]
      {
      }
      NewerBinariesNeverDowngrade(steps, db, front);
      var mid := Boots(steps, db, front);
      if front != [] {
        TotalPreorder(mid.Effective(), front[|front| - 1].app, last.app);
      }
      BootStaysBelow(steps, mid, last.app, last.left);
    }
  }

  lemma BootStaysBelow(steps: seq<string>, db: Store, app: string, left: nat)
    requires AtMost(db.Effective(), app)
    ensures AtMost(Boot(steps, db, app, left).0.Effective(), app)
  {
    hide Compare, RunSteps;
    TotalPreorder(app, app, app);
    if left > 0 {
      StepsStayBelow(steps, db.Effective(), app, 0, db, left - 1);
    }
  }

  lemma FreshInvariant(steps: seq<string>, db: Store)
    requires db.trace == []
    ensures Invariant(steps, db.Effective(), db)
  {
    hide Compare;
    TotalPreorder(db.Effective(), db.Effective(), db.Effective());
    forall s | 0 <= s < |steps|
      ensures !(Compare(db.Effective(), steps[s]) == Less && AtMost(steps[s], db.Effective()))
    {
      TotalPreorder(db.Effective(), steps[s], db.Effective());
    }
  }

  // ----- what one boot runs

  /** How many of the steps from `i` up to `n` a boot would run. */
  function DueCount(steps: seq<string>, stored: string, app: string, i: nat, n: nat): nat
    requires i <= n <= |steps|
    decreases n - i
  {
    if i == n then 0
    else (if Due(stored, steps[i], app) then 1 else 0) + DueCount(steps, stored, app, i + 1, n)
  }

  /** The version recorded once the steps from `i` on have run. */
  function VersionAfter(steps: seq<string>, stored: string, app: string, i: nat, version: Option<string>)
    : Option<string>
    requires i <= |steps|
    decreases |steps| - i
  {
    if i == |steps| then version
    else VersionAfter(steps, stored, app, i + 1, if Due(stored, steps[i], app) then Some(steps[i]) else version)
  }

  /** The database operations of a boot that completes: two reads, two for each step, and one to record its version. */
  function OperationsNeeded(steps: seq<string>, db: Store, app: string): nat {
    2 + 2 * DueCount(steps, db.Effective(), app, 0, |steps|) +
    if VersionAfter(steps, db.Effective(), app, 0, db.version) == Some(app) then 0 else 1
  }

  lemma ThreeMore(a: seq<Event>, b: seq<Event>, c: seq<Event>, i: nat, v: string, e: Event)
    requires b == a + [Started(i)] + [Finished(i)] + [Recorded(v)] && b <= c
    ensures a <= c
    ensures e in c[|a|..] <==> e == Started(i) || e == Finished(i) || e == Recorded(v) || e in c[|b|..]
  {
    assert c[|a|..] == [Started(i), Finished(i), Recorded(v)] + c[|b|..];
  }

  lemma {:induction false} StepsRun(
    steps: seq<string>, stored: string, app: string, i: nat, db: Store, left: nat, step: nat)
    requires i <= |steps| && step < |steps|
    ensures var db' := RunSteps(steps, stored, app, i, db, left).0;
      && db.trace <= db'.trace
      && (Started(step) in db'.trace[|db.trace|..] <==>
            i <= step && Due(stored, steps[step], app) && left >= 2 * DueCount(steps, stored, app, i, step))
      && (Finished(step) in db'.trace[|db.trace|..] <==>
            i <= step && Due(stored, steps[step], app) && left >= 1 + 2 * DueCount(steps, stored, app, i, step))
    decreases |steps| - i
  {
    hide Due;
    if i < |steps| {
      var db' := RunSteps(steps, stored, app, i, db, left).0;
      if !Due(stored, steps[i], app) {
        StepsRun(steps, stored, app, i + 1, db, left, step);
      } else if left < 2 {
        assert i < step ==> DueCount(steps, stored, app, i, step) >= 1;
        assert db'.trace[|db.trace|..] == if left == 0 then [Started(i)] else [Started(i), Finished(i)];
      } else {
        var db3 := db.Log(Started(i)).Log(Finished(i)).Record(steps[i]);
        StepsRun(steps, stored, app, i + 1, db3, left - 2, step);
        assert i < step ==> DueCount(steps, stored, app, i, step) == 1 + DueCount(steps, stored, app, i + 1, step);
        ThreeMore(db.trace, db3.trace, db'.trace, i, steps[i], Started(step));
        ThreeMore(db.trace, db3.trace, db'.trace, i, steps[i], Finished(step));
        hide RunSteps, DueCount;
      }
    }
  }

  lemma {:induction false} StepsComplete(
    steps: seq<string>, stored: string, app: string, i: nat, db: Store, left: nat)
    requires i <= |steps|
    ensures var (db', rest) := RunSteps(steps, stored, app, i, db, left);
      var needed := 2 * DueCount(steps, stored, app, i, |steps|);
      && (rest.Some? <==> left >= needed)
      && (rest.Some? ==>
            rest.value == left - needed && db'.version == VersionAfter(steps, stored, app, i, db.version))
    decreases |steps| - i
  {
    hide Due;
    if i < |steps| {
      if !Due(stored, steps[i], app) {
        StepsComplete(steps, stored, app, i + 1, db, left);
      } else if left >= 2 {
        StepsComplete(
          steps, stored, app, i + 1, db.Log(Started(i)).Log(Finished(i)).Record(steps[i]), left - 2);
      }
    }
  }

  /**
   * A boot, cut off anywhere, starts exactly the steps above the recorded version and up to its own,
   * in order and as far as its operations go; it finishes those it has one more operation for.
   */
  lemma BootRunsExactly(steps: seq<string>, db: Store, app: string, left: nat, step: nat)
    requires step < |steps|
    ensures var after := Boot(steps, db, app, left).0;
      var before := DueCount(steps, db.Effective(), app, 0, step);
      && db.trace <= after.trace
      && (Started(step) in after.trace[|db.trace|..] <==>
            Due(db.Effective(), steps[step], app) && left >= 1 + 2 * before)
      && (Finished(step) in after.trace[|db.trace|..] <==>
            Due(db.Effective(), steps[step], app) && left >= 2 + 2 * before)
  {
    if left > 0 {
      StepsRun(steps, db.Effective(), app, 0, db, left - 1, step);
      hide RunSteps, Conclude, Due, DueCount, Store.Effective;
      var (db1, rest) := RunSteps(steps, db.Effective(), app, 0, db, left - 1);
      ConcludeTrace(db1, rest, app);
      RecordedAtTheEnd(db.trace, db1.trace, app, Started(step));
      RecordedAtTheEnd(db.trace, db1.trace, app, Finished(step));
    }
  }

  lemma ConcludeTrace(db: Store, rest: Option<nat>, app: string)
    ensures Conclude(db, rest, app).0.trace in {db.trace, db.trace + [Recorded(app)]}
  {
  }

  /** What the end of a boot needs beyond one operation to read the version. */
  lemma ConcludeCompletes(db: Store, rest: Option<nat>, app: string)
    ensures Conclude(db, rest, app).1 <==>
      rest.Some? && rest.value >= if db.version == Some(app) then 1 else 2
    ensures Conclude(db, rest, app).1 ==> Conclude(db, rest, app).0.version == Some(app)
  {
  }

  lemma RecordedAtTheEnd(a: seq<Event>, b: seq<Event>, v: string, e: Event)
    requires a <= b && !e.Recorded?
    ensures a <= b + [Recorded(v)]
    ensures e in (b + [Recorded(v)])[|a|..] <==> e in b[|a|..]
  {
    assert (b + [Recorded(v)])[|a|..] == b[|a|..] + [Recorded(v)];
  }

  /** A boot completes exactly when it has the operations it needs, and then its version is recorded. */
  lemma BootCompletesExactly(steps: seq<string>, db: Store, app: string, left: nat)
    ensures Boot(steps, db, app, left).1 <==> left >= OperationsNeeded(steps, db, app)
    ensures Boot(steps, db, app, left).1 ==> Boot(steps, db, app, left).0.version == Some(app)
  {
    if left > 0 {
      StepsComplete(steps, db.Effective(), app, 0, db, left - 1);
      hide RunSteps, Conclude, DueCount, VersionAfter, Store.Effective;
      var (db1, rest) := RunSteps(steps, db.Effective(), app, 0, db, left - 1);
      ConcludeCompletes(db1, rest, app);
    }
  }

  /** After a boot that completes at version `app`, every step above the initial version up to `app` has finished. */
  lemma CompletedBootHasRunEverything(steps: seq<string>, db: Store, attempts: seq<Attempt>, step: nat)
    requires Increasing(steps) && db.trace == [] && NeverDowngraded(steps, db, attempts) && attempts != []
    requires var last := attempts[|attempts| - 1];
      last.left >= OperationsNeeded(steps, Boots(steps, db, attempts[..|attempts| - 1]), last.app)
    requires step < |steps|
    requires Due(db.Effective(), steps[step], attempts[|attempts| - 1].app)
    ensures Finished(step) in Boots(steps, db, attempts).trace
  {
    hide Compare, Boot, OperationsNeeded;
    var front, last := attempts[..|attempts| - 1], attempts[|attempts| - 1];
    BootCompletesExactly(steps, Boots(steps, db, front), last.app, last.left);
    BootsKeep(steps, db, attempts);
    assert Done(Boots(steps, db, attempts).trace, step);
  }

  /** The shipped list of steps meets the premise, and newer and newer binaries meet the condition. */
  lemma ShippedSteps(db: Store, attempts: seq<Attempt>)
    requires db.trace == []
    ensures Invariant(UPGRADE_STEPS, db.Effective(), Boots(UPGRADE_STEPS, db, attempts)) <==>
      NeverDowngraded(UPGRADE_STEPS, db, attempts)
    ensures NonDecreasing(db.Effective(), attempts) ==> NeverDowngraded(UPGRADE_STEPS, db, attempts)
  {
    StepsStrictlyIncrease();
    BootsKeep(UPGRADE_STEPS, db, attempts);
    if NonDecreasing(db.Effective(), attempts) {
      NewerBinariesNeverDowngrade(UPGRADE_STEPS, db, attempts);
    }
  }

  /** A database that records no version counts as 0.1.0: all the shipped steps up to the binary's version are due. */
  lemma LegacyDatabaseRunsEverything(trace: seq<Event>, app: string, step: nat)
    requires step < |UPGRADE_STEPS|
    ensures Store(None, trace).Effective() == "0.1.0"
    ensures Due(Store(None, trace).Effective(), UPGRADE_STEPS[step], app) <==> AtMost(UPGRADE_STEPS[step], app)
    ensures forall v :: Store(Some(v), trace).Effective() == v
  {
    StepsStrictlyIncrease();
    hide Compare;
  }

  /** A database left by a pre-release of version `v` still runs the step of `v` once `v` itself starts. */
  lemma ReleasesFollowCandidates(v: string, suffix: string)
    requires '-' !in v
    ensures Due(v + "-" + suffix, v, v) && !Due(v, v + "-" + suffix, v)
  {
    PreReleasesComeFirst(v, suffix);
    TotalPreorder(v, v, v);
    assert v + "-" + suffix == v + ['-'] + suffix;
    hide Compare;
  }

  /**
   * After a completed boot of one binary, a boot of the next, cut off anywhere, starts (and finishes)
   * exactly the steps above the first version and up to the second: above all, it runs again what
   * lies between, if the first was a downgrade.
   */
  lemma DowngradeRunsStepsAgain(
    steps: seq<string>, db: Store, older: string, newer: string, l1: nat, l2: nat, step: nat)
    requires step < |steps| && l1 >= OperationsNeeded(steps, db, older)
    ensures var first := Boot(steps, db, older, l1).0; var second := Boot(steps, first, newer, l2).0;
      var before := DueCount(steps, older, newer, 0, step);
      && first.trace <= second.trace
      && (Started(step) in second.trace[|first.trace|..] <==>
            Compare(older, steps[step]) == Less && AtMost(steps[step], newer) && l2 >= 1 + 2 * before)
      && (Finished(step) in second.trace[|first.trace|..] <==>
            Compare(older, steps[step]) == Less && AtMost(steps[step], newer) && l2 >= 2 + 2 * before)
  {
    BootCompletesExactly(steps, db, older, l1);
    BootRunsExactly(steps, Boot(steps, db, older, l1).0, newer, l2, step);
    hide Compare, Boot, OperationsNeeded, DueCount;
  }

  /** A database at 0.3.2, started with 0.3.1 and then with 0.3.2 again, runs the step of 0.3.2 a second time. */
  lemma DowngradeExample()
    ensures var db := Store(Some("0.3.2"), [Finished(2), Recorded("0.3.2")]);
      var down := Boots(UPGRADE_STEPS, db, [Attempt("0.3.1", 3)]);
      var up := Boots(UPGRADE_STEPS, db, [Attempt("0.3.1", 3), Attempt("0.3.2", 5)]);
      && down == db.Record("0.3.1")
      && up.version == Some("0.3.2") && up.trace == down.trace + [Started(2), Finished(2), Recorded("0.3.2")]
  {
    var db := Store(Some("0.3.2"), [Finished(2), Recorded("0.3.2")]);
    var two := [Attempt("0.3.1", 3), Attempt("0.3.2", 5)];
    assert two[..1] == [Attempt("0.3.1", 3)] && two[..1][..0] == [];
    StepsStrictlyIncrease();
    TotalPreorder("0.3.1", "0.3.2", "0.3.2");
    assert UPGRADE_STEPS[1] == "0.3.1" && UPGRADE_STEPS[2] == "0.3.2";
    assert Compare("0.3.1", "0.3.2") == Less;
    OlderBinaryBoots(UPGRADE_STEPS, db, "0.3.1", 3);
    assert Boots(UPGRADE_STEPS, db, two[..1]) == db.Record("0.3.1");
    DowngradeExampleSteps(db.Record("0.3.1"));
    hide Compare;
  }

  lemma DowngradeExampleSteps(db: Store)
    requires db.version == Some("0.3.1")
    ensures Boot(UPGRADE_STEPS, db, "0.3.2", 5) ==
      (Store(Some("0.3.2"), db.trace + [Started(2), Finished(2), Recorded("0.3.2")]), true)
  {
    ParseSteps();
    hide Parse;
    assert !Due("0.3.1", UPGRADE_STEPS[0], "0.3.2") && !Due("0.3.1", UPGRADE_STEPS[1], "0.3.2");
    assert Due("0.3.1", UPGRADE_STEPS[2], "0.3.2") && !Due("0.3.1", UPGRADE_STEPS[3], "0.3.2");
    hide Due;
    var db3 := db.Log(Started(2)).Log(Finished(2)).Record("0.3.2");
    assert db3.trace == db.trace + [Started(2), Finished(2), Recorded("0.3.2")];
    assert RunSteps(UPGRADE_STEPS, "0.3.1", "0.3.2", 3, db3, 2) == (db3, Some(2));
    assert RunSteps(UPGRADE_STEPS, "0.3.1", "0.3.2", 2, db, 4) == (db3, Some(2));
    assert RunSteps(UPGRADE_STEPS, "0.3.1", "0.3.2", 1, db, 4) == (db3, Some(2));
  }

  // ----- the runner itself

  class Database {
    var version: Option<string>
    var trace: seq<Event>

    function State(): Store
      reads this
    {
      Store(version, trace)
    }

    constructor (version: Option<string>)
      ensures State() == Store(version, [])
    {
      this.version, trace := version, [];
    }

    method SetSystemVersion(v: string)
      modifies this
      ensures State() == old(State()).Record(v)
    {
      version, trace := Some(v), trace + [Recorded(v)];
    }

    /** `run_versioned_upgrades`, of whose database operations only the first `operations` succeed. */
    method RunVersionedUpgrades(steps: seq<string>, app: string, operations: nat) returns (completed: bool)
      modifies this
      ensures (State(), completed) == Boot(steps, old(State()), app, operations)
    {
      hide Due;
      var left := operations;
      if left == 0 {
        return false;
      }
      left := left - 1;
      var stored := version.Or(LEGACY_BASELINE);
      for i := 0 to |steps|
        invariant RunSteps(steps, stored, app, i, State(), left) ==
          RunSteps(steps, stored, app, 0, old(State()), operations - 1)
      {
        if Due(stored, steps[i], app) {
          trace := trace + [Started(i)];
          if left == 0 {
            return false;
          }
          trace := trace + [Finished(i)];
          if left == 1 {
            return false;
          }
          SetSystemVersion(steps[i]);
          left := left - 2;
        }
      }
      if left == 0 {
        return false;
      }
      left := left - 1;
      if version != Some(app) {
        if left == 0 {
          return false;
        }
        SetSystemVersion(app);
      }
      return true;
    }
  }
}
