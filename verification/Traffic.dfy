/** Turning cumulative counters into per-period deltas (`reporter.rs`). */
module Traffic {
  import opened Prelude

  datatype Direction = Up | Down

  datatype Bytes = Bytes(up: int, down: int) {
    function In(d: Direction): int { if d.Up? then up else down }
  }

  // ----- kernel-wide totals

  function Max0(n: int): int { if n < 0 then 0 else n }

  function Min(a: int, b: int): int { if a < b then a else b }

  function Delta(prev: Option<int>, cur: int): int {
    match prev
    case None => cur
    case Some(p) => Max0(cur - p)
  }

  /** `total_delta`: each direction on its own. */
  function TotalDelta(prev: Option<Bytes>, cur: Bytes): Bytes {
    Bytes(Delta(Part(prev, Up), cur.up), Delta(Part(prev, Down), cur.down))
  }

  function Part(b: Option<Bytes>, d: Direction): Option<int> {
    if b.Some? then Some(b.value.In(d)) else None
  }

  /** The sum of the deltas reported for a run of samples of one counter. */
  function Reported(prev: Option<int>, samples: seq<int>): int
    decreases |samples|
  {
    if samples == [] then 0 else Delta(prev, samples[0]) + Reported(Some(samples[0]), samples[1..])
  }

  /** A core process's life: one or more samples of a counter that only grows. */
  predicate IsEpoch(e: seq<int>) {
    e != [] && forall i, j :: 0 <= i < j < |e| ==> e[i] <= e[j]
  }

  predicate AreEpochs(epochs: seq<seq<int>>) {
    forall i :: 0 <= i < |epochs| ==> IsEpoch(epochs[i])
  }

  function Flatten(epochs: seq<seq<int>>): seq<int> {
    if epochs == [] then [] else epochs[0] + Flatten(epochs[1..])
  }

  /** The traffic the cores really carried up to their last samples. */
  function Carried(epochs: seq<seq<int>>): int
    requires AreEpochs(epochs)
  {
    if epochs == [] then 0 else epochs[0][|epochs[0]| - 1] + Carried(epochs[1..])
  }

  /** What a restart hides: the part of the new counter below the old one's last value. */
  function Hidden(before: seq<int>, after: seq<int>): int
    requires IsEpoch(before) && IsEpoch(after)
  {
    Min(before[|before| - 1], after[0])
  }

  function Lost(epochs: seq<seq<int>>): int
    requires AreEpochs(epochs)
  {
    if |epochs| <= 1 then 0 else Hidden(epochs[0], epochs[1]) + Lost(epochs[1..])
  }

  lemma {:induction false} EpochTelescopes(prev: Option<int>, e: seq<int>, rest: seq<int>)
    requires IsEpoch(e)
    ensures Reported(prev, e + rest) == Delta(prev, e[0]) + e[|e| - 1] - e[0] + Reported(Some(e[|e| - 1]), rest)
    decreases |e|
  {
    assert (e + rest)[1..] == e[1..] + rest;
    if |e| > 1 {
      EpochTelescopes(Some(e[0]), e[1..], rest);
    } else {
      assert e[1..] + rest == rest;
    }
  }

  lemma {:induction false} EpochsFrom(prev: Option<int>, epochs: seq<seq<int>>)
    requires AreEpochs(epochs)
    ensures Reported(prev, Flatten(epochs)) == Carried(epochs) - Lost(epochs) -
      (if prev.Some? && epochs != [] then Min(prev.value, epochs[0][0]) else 0)
    decreases |epochs|
  {
    if epochs != [] {
      var e := epochs[0];
      EpochTelescopes(prev, e, Flatten(epochs[1..]));
      EpochsFrom(Some(e[|e| - 1]), epochs[1..]);
    }
  }

  /**
   * Over any number of core restarts, the reported total is the carried total minus, at each
   * restart, the smaller of the last counter before it and the first one after it.
   */
  lemma TotalsAcrossRestarts(epochs: seq<seq<int>>)
    requires AreEpochs(epochs)
    ensures Reported(None, Flatten(epochs)) == Carried(epochs) - Lost(epochs)
  {
    EpochsFrom(None, epochs);
  }

  lemma {:induction false} LostBounds(epochs: seq<seq<int>>)
    requires AreEpochs(epochs) && forall i :: 0 <= i < |epochs| ==> epochs[i][0] >= 0
    ensures 0 <= Lost(epochs)
    ensures Lost(epochs) == 0 <==> forall i :: 0 <= i < |epochs| - 1 ==> Hidden(epochs[i], epochs[i + 1]) == 0
    ensures Lost(epochs) <= Carried(epochs)
  {
    if |epochs| > 1 {
      var tail := epochs[1..];
      LostBounds(tail);
      if forall i :: 0 <= i < |epochs| - 1 ==> Hidden(epochs[i], epochs[i + 1]) == 0 {
        forall i | 0 <= i < |tail| - 1
          ensures Hidden(tail[i], tail[i + 1]) == 0
        {
          assert Hidden(epochs[i + 1], epochs[i + 1 + 1]) == 0;
        }
        assert Hidden(epochs[0], epochs[0 + 1]) == 0;
      }
      if Lost(epochs) == 0 {
        forall i | 0 <= i < |epochs| - 1
          ensures Hidden(epochs[i], epochs[i + 1]) == 0
        {
          if i > 0 {
            assert Hidden(tail[i - 1], tail[i - 1 + 1]) == 0;
          }
        }
      }
    } else if |epochs| == 1 {
      assert epochs[1..] == [];
    }
  }

  /**
   * With counters from zero up, reports are never negative, never exceed the truth, and are exact
   * just when nothing is hidden.
   */
  lemma ReportsAreHonest(epochs: seq<seq<int>>)
    requires AreEpochs(epochs) && forall i :: 0 <= i < |epochs| ==> epochs[i][0] >= 0
    ensures 0 <= Reported(None, Flatten(epochs)) <= Carried(epochs)
    ensures Reported(None, Flatten(epochs)) == Carried(epochs) <==>
      forall i :: 0 <= i < |epochs| - 1 ==> Hidden(epochs[i], epochs[i + 1]) == 0
  {
    TotalsAcrossRestarts(epochs);
    LostBounds(epochs);
  }

  // ----- what the collectors report of the totals

  /** The entry a collection reports, if either direction has something to report. */
  function Inbound(prev: Option<Bytes>, cur: Bytes): Option<Bytes> {
    var delta := TotalDelta(prev, cur);
    if delta.up > 0 || delta.down > 0 then Some(delta) else None
  }

  /** There is an entry exactly when one of the counters has grown, or is positive at the first sample. */
  lemma EntryExactlyWhenGrown(prev: Option<Bytes>, cur: Bytes)
    ensures Inbound(prev, cur).Some? <==>
      if prev.Some? then cur.up > prev.value.up || cur.down > prev.value.down else cur.up > 0 || cur.down > 0
  {
  }

  function Last(totals: seq<Bytes>): Option<Bytes> {
    if totals == [] then None else Some(totals[|totals| - 1])
  }

  /** The sum of the entries reported over a run of collections, in one direction. */
  function InboundFor(totals: seq<Bytes>, d: Direction): int {
    if totals == [] then 0
    else
      var front := totals[..|totals| - 1];
      var entry := Inbound(Last(front), totals[|totals| - 1]);
      InboundFor(front, d) + if entry.Some? then entry.value.In(d) else 0
  }

  /** One direction of a run of totals. */
  function Column(totals: seq<Bytes>, d: Direction): seq<int> {
    if totals == [] then [] else Column(totals[..|totals| - 1], d) + [totals[|totals| - 1].In(d)]
  }

  predicate NonNegative(totals: seq<Bytes>) {
    forall i :: 0 <= i < |totals| ==> totals[i].up >= 0 && totals[i].down >= 0
  }

  lemma {:induction false} ReportedAppend(prev: Option<int>, samples: seq<int>, n: int)
    ensures Reported(prev, samples + [n]) ==
      Reported(prev, samples) + Delta(if samples == [] then prev else Some(samples[|samples| - 1]), n)
    decreases |samples|
  {
    if samples != [] {
      assert (samples + [n])[1..] == samples[1..] + [n];
      ReportedAppend(Some(samples[0]), samples[1..], n);
    } else {
      assert [n][1..] == [] && samples + [n] == [n];
    }
  }

  lemma {:induction false} ColumnLast(totals: seq<Bytes>, d: Direction)
    ensures |Column(totals, d)| == |totals|
    ensures totals != [] ==> Column(totals, d)[|totals| - 1] == totals[|totals| - 1].In(d)
  {
    if totals != [] {
      ColumnLast(totals[..|totals| - 1], d);
    }
  }

  /** The entries a collector reports add up, in each direction, to the deltas of that direction alone. */
  lemma {:induction false} InboundIsReported(totals: seq<Bytes>, d: Direction)
    requires NonNegative(totals)
    ensures InboundFor(totals, d) == Reported(None, Column(totals, d))
  {
    if totals != [] {
      var front, cur := totals[..|totals| - 1], totals[|totals| - 1];
      InboundIsReported(front, d);
      ReportedAppend(None, Column(front, d), cur.In(d));
      ColumnLast(front, d);
      assert TotalDelta(Last(front), cur).In(d) == Delta(Part(Last(front), d), cur.In(d));
      assert TotalDelta(Last(front), cur).up >= 0 && TotalDelta(Last(front), cur).down >= 0;
    }
  }

  /**
   * What a collector reports over any number of core restarts: in each direction the carried total
   * minus, at each restart, the smaller of the last counter before it and the first one after it;
   * so never more than was carried, and all of it just when nothing is hidden.
   */
  lemma InboundAcrossRestarts(totals: seq<Bytes>, d: Direction, epochs: seq<seq<int>>)
    requires NonNegative(totals) && AreEpochs(epochs) && Column(totals, d) == Flatten(epochs)
    ensures InboundFor(totals, d) == Carried(epochs) - Lost(epochs)
    ensures 0 <= InboundFor(totals, d) <= Carried(epochs)
    ensures InboundFor(totals, d) == Carried(epochs) <==>
      forall i :: 0 <= i < |epochs| - 1 ==> Hidden(epochs[i], epochs[i + 1]) == 0
  {
    InboundIsReported(totals, d);
    ColumnNonNegative(totals, d);
    FirstsAreSamples(epochs);
    forall i | 0 <= i < |epochs|
      ensures epochs[i][0] >= 0
    {
      assert epochs[i][0] in Flatten(epochs);
    }
    TotalsAcrossRestarts(epochs);
    ReportsAreHonest(epochs);
  }

  lemma {:induction false} ColumnNonNegative(totals: seq<Bytes>, d: Direction)
    requires NonNegative(totals)
    ensures forall n :: n in Column(totals, d) ==> n >= 0
  {
    if totals != [] {
      ColumnNonNegative(totals[..|totals| - 1], d);
    }
  }

  lemma {:induction false} FirstsAreSamples(epochs: seq<seq<int>>)
    requires AreEpochs(epochs)
    ensures forall i :: 0 <= i < |epochs| ==> epochs[i][0] in Flatten(epochs)
  {
    if epochs != [] {
      FirstsAreSamples(epochs[1..]);
      forall i | 0 <= i < |epochs|
        ensures epochs[i][0] in Flatten(epochs)
      {
        if i > 0 {
          assert epochs[1..][i - 1] == epochs[i];
        }
      }
    }
  }

  /** The totals' part of a collector's state; `None` stands for a sample that could not be read. */
  class MihomoTrafficState {
    var prevTotal: Option<Bytes>
    ghost var totals: seq<Bytes>

    ghost predicate Valid()
      reads this
    {
      prevTotal == Last(totals)
    }

    constructor ()
      ensures Valid() && totals == []
    {
      prevTotal, totals := None, [];
    }

    method Collect(sample: Option<Bytes>) returns (inbound: Option<Bytes>)
      requires Valid()
      modifies this
      ensures Valid()
      ensures sample.None? ==> totals == old(totals) && inbound == None
      ensures sample.Some? ==> totals == old(totals) + [sample.value]
      ensures forall d: Direction ::
        (if inbound.Some? then inbound.value.In(d) else 0) == InboundFor(totals, d) - InboundFor(old(totals), d)
    {
      if sample.None? {
        return None;
      }
      inbound := Inbound(prevTotal, sample.value);
      prevTotal, totals := Some(sample.value), totals + [sample.value];
      assert totals[..|totals| - 1] == old(totals);
    }
  }

  // ----- connections and users

  datatype Conn = Conn(user: string, total: Bytes)

  type Snapshot = map<string, Conn>

  /** Fields of a connection event the reporter reads; `kind` 2 is "closed". */
  datatype ConnEvent = ConnEvent(kind: int, connection: Option<Connection>)
  datatype Connection = Connection(id: string, user: string, total: Bytes)

  predicate Attributable(e: ConnEvent) {
    e.kind != 2 && e.connection.Some? && e.connection.value.user != ""
  }

  predicate About(e: ConnEvent, id: string) {
    Attributable(e) && e.connection.value.id == id
  }

  function SnapshotOf(events: seq<ConnEvent>): Snapshot {
    if events == [] then map[]
    else
      var e, before := events[|events| - 1], SnapshotOf(events[..|events| - 1]);
      if Attributable(e) then before[e.connection.value.id := Conn(e.connection.value.user, e.connection.value.total)]
      else before
  }

  /** The last attributable event about a connection, found by searching backwards. */
  function LastAbout(events: seq<ConnEvent>, id: string): Option<Conn> {
    if events == [] then None
    else
      var e := events[|events| - 1];
      if About(e, id) then Some(Conn(e.connection.value.user, e.connection.value.total))
      else LastAbout(events[..|events| - 1], id)
  }

  lemma {:induction false} SnapshotHoldsLastEvents(events: seq<ConnEvent>, id: string)
    ensures Get(SnapshotOf(events), id) == LastAbout(events, id)
  {
    if events != [] {
      SnapshotHoldsLastEvents(events[..|events| - 1], id);
    }
  }

  /** Closed connections, events without a connection and connections without a user leave the snapshot as it was. */
  lemma SnapshotTakes(events: seq<ConnEvent>, e: ConnEvent)
    ensures e.kind == 2 || e.connection.None? || e.connection.value.user == "" ==>
      SnapshotOf(events + [e]) == SnapshotOf(events)
    ensures e.kind != 2 && e.connection.Some? && e.connection.value.user != "" ==>
      SnapshotOf(events + [e]) ==
        SnapshotOf(events)[e.connection.value.id := Conn(e.connection.value.user, e.connection.value.total)]
  {
    assert (events + [e])[..|events|] == events;
  }

  method ConnectionSnapshot(events: seq<ConnEvent>) returns (snapshot: Snapshot)
    ensures snapshot == SnapshotOf(events)
  {
    snapshot := map[];
    for k := 0 to |events|
      invariant snapshot == SnapshotOf(events[..k])
    {
      var e := events[k];
      assert events[..k + 1][..k] == events[..k];
      if e.kind == 2 || e.connection.None? || e.connection.value.user == "" {
        continue;
      }
      var c := e.connection.value;
      snapshot := snapshot[c.id := Conn(c.user, c.total)];
    }
    assert events[..|events|] == events;
  }

  function ConnDelta(prev: Snapshot, id: string, c: Conn): Bytes {
    TotalDelta(if id in prev then Some(prev[id].total) else None, c.total)
  }

  /** The sum of a table's values; which entry is taken first does not matter (`SumInsert`). */
  ghost function Sum(m: map<string, int>): int
  {
    if m == map[] then 0
    else
      var k :| k in m;
      m[k] + Sum(m - {k})
  }

  lemma {:induction false} SumRemove(m: map<string, int>, k: string)
    requires k in m
    ensures Sum(m) == m[k] + Sum(m - {k})
    decreases |m|
  {
    var first :| first in m && Sum(m) == m[first] + Sum(m - {first});
    if first != k {
      SumRemove(m - {first}, k);
      SumRemove(m - {k}, first);
      assert m - {first} - {k} == m - {k} - {first};
    }
  }

  lemma SumInsert(m: map<string, int>, k: string, v: int)
    requires k !in m
    ensures Sum(m[k := v]) == v + Sum(m)
  {
    SumRemove(m[k := v], k);
    assert m[k := v] - {k} == m;
  }

  function Or0(m: map<string, int>, k: string): int { if k in m then m[k] else 0 }

  lemma {:induction false} SumAdds(whole: map<string, int>, a: map<string, int>, b: map<string, int>)
    requires a.Keys <= whole.Keys && b.Keys <= whole.Keys
    requires forall k :: k in whole ==> whole[k] == Or0(a, k) + Or0(b, k)
    ensures Sum(whole) == Sum(a) + Sum(b)
    decreases |whole|
  {
    if whole == map[] {
      assert a == map[] && b == map[];
    } else {
      var k :| k in whole;
      SumRemove(whole, k);
      if k in a {
        SumRemove(a, k);
      } else {
        assert a - {k} == a;
      }
      if k in b {
        SumRemove(b, k);
      } else {
        assert b - {k} == b;
      }
      SumAdds(whole - {k}, a - {k}, b - {k});
    }
  }

  /** What each connection of a user adds to a report. */
  function Contribution(prev: Snapshot, snapshot: Snapshot, user: string, d: Direction): map<string, int> {
    map id | id in snapshot && snapshot[id].user == user :: ConnDelta(prev, id, snapshot[id]).In(d)
  }

  /** The report: an entry for each user with some non-zero delta, holding the sums over that user's connections. */
  ghost predicate IsReport(prev: Snapshot, snapshot: Snapshot, report: map<string, Bytes>) {
    && (forall u :: u in report <==>
          exists id :: id in snapshot && snapshot[id].user == u && ConnDelta(prev, id, snapshot[id]) != Bytes(0, 0))
    && (forall u, d: Direction :: u in report ==> report[u].In(d) == Sum(Contribution(prev, snapshot, u, d)))
  }

  lemma {:induction false} SumOfZeros(m: map<string, int>)
    requires forall k :: k in m ==> m[k] == 0
    ensures Sum(m) == 0
    decreases |m|
  {
    if m != map[] {
      var k :| k in m;
      SumRemove(m, k);
      SumOfZeros(m - {k});
    }
  }

  /** A report counts every user's deltas, also those of users it omits. */
  lemma ReportCountsAll(prev: Snapshot, snapshot: Snapshot, report: map<string, Bytes>, u: string, d: Direction)
    requires IsReport(prev, snapshot, report)
    ensures (if u in report then report[u].In(d) else 0) == Sum(Contribution(prev, snapshot, u, d))
  {
    if u !in report {
      SumOfZeros(Contribution(prev, snapshot, u, d));
    }
  }

  /** Whatever order a hash map is iterated in, the report is the same. */
  lemma ReportIsUnique(prev: Snapshot, snapshot: Snapshot, a: map<string, Bytes>, b: map<string, Bytes>)
    requires IsReport(prev, snapshot, a) && IsReport(prev, snapshot, b)
    ensures a == b
  {
    forall u | u in a
      ensures u in b && a[u] == b[u]
    {
      assert u in b;
      assert a[u].In(Up) == b[u].In(Up) && a[u].In(Down) == b[u].In(Down);
    }
    assert forall u :: u in b ==> u in a;
  }

  /** `user_deltas`, taking the snapshot's entries in any order. */
  method UserDeltas(prev: Snapshot, snapshot: Snapshot) returns (report: map<string, Bytes>)
    ensures IsReport(prev, snapshot, report)
  {
    report := map[];
    var todo := snapshot.Keys;
    ghost var done: Snapshot := map[];
    while todo != {}
      invariant todo <= snapshot.Keys
      invariant done == map id | id in snapshot && id !in todo :: snapshot[id]
      invariant IsReport(prev, done, report)
    {
      var id :| id in todo;
      todo := todo - {id};
      var c := snapshot[id];
      var delta := ConnDelta(prev, id, c);
      ghost var next := done[id := c];
      assert next == map k | k in snapshot && k !in todo :: snapshot[k];
      if delta == Bytes(0, 0) {
        OneMoreConnection(prev, done, report, id, c, report);
      } else {
        var entry := if c.user in report then report[c.user] else Bytes(0, 0);
        var updated := report[c.user := Bytes(entry.up + delta.up, entry.down + delta.down)];
        OneMoreConnection(prev, done, report, id, c, updated);
        report := updated;
      }
      done := next;
    }
    assert done == snapshot;
  }

  ghost predicate Adds(
    prev: Snapshot, report: map<string, Bytes>, id: string, c: Conn, updated: map<string, Bytes>)
  {
    var delta := ConnDelta(prev, id, c);
    var entry := if c.user in report then report[c.user] else Bytes(0, 0);
    updated == if delta == Bytes(0, 0) then report
      else report[c.user := Bytes(entry.up + delta.up, entry.down + delta.down)]
  }

  lemma OneMoreConnection(
    prev: Snapshot, done: Snapshot, report: map<string, Bytes>, id: string, c: Conn, updated: map<string, Bytes>)
    requires IsReport(prev, done, report) && id !in done && Adds(prev, report, id, c, updated)
    ensures IsReport(prev, done[id := c], updated)
  {
    OneMoreUser(prev, done, report, id, c, updated);
    var next, delta := done[id := c], ConnDelta(prev, id, c);
    forall u, d: Direction | u in updated
      ensures updated[u].In(d) == Sum(Contribution(prev, next, u, d))
    {
      ContributionGrows(prev, done, id, c, u, d);
      ReportCountsAll(prev, done, report, u, d);
    }
  }

  lemma ContributionGrows(prev: Snapshot, done: Snapshot, id: string, c: Conn, u: string, d: Direction)
    requires id !in done
    ensures Sum(Contribution(prev, done[id := c], u, d)) ==
      Sum(Contribution(prev, done, u, d)) + if u == c.user then ConnDelta(prev, id, c).In(d) else 0
  {
    var before, after := Contribution(prev, done, u, d), Contribution(prev, done[id := c], u, d);
    if u == c.user {
      assert after == before[id := ConnDelta(prev, id, c).In(d)];
      SumInsert(before, id, ConnDelta(prev, id, c).In(d));
    } else {
      assert after == before;
    }
  }

  lemma OneMoreUser(
    prev: Snapshot, done: Snapshot, report: map<string, Bytes>, id: string, c: Conn, updated: map<string, Bytes>)
    requires IsReport(prev, done, report) && id !in done && Adds(prev, report, id, c, updated)
    ensures var next := done[id := c]; forall u :: u in updated <==>
      exists k :: k in next && next[k].user == u && ConnDelta(prev, k, next[k]) != Bytes(0, 0)
  {
    var next, delta := done[id := c], ConnDelta(prev, id, c);
    hide ConnDelta;
    forall u | u in updated
      ensures exists k :: k in next && next[k].user == u && ConnDelta(prev, k, next[k]) != Bytes(0, 0)
    {
      if u == c.user && delta != Bytes(0, 0) {
        assert id in next && next[id].user == u;
      } else {
        var k :| k in done && done[k].user == u && ConnDelta(prev, k, done[k]) != Bytes(0, 0);
        assert next[k] == done[k];
      }
    }
  }

  // ----- conservation over a run

  /** The last-seen state of every connection ever seen. */
  function Seen(snaps: seq<Snapshot>): Snapshot {
    if snaps == [] then map[] else Seen(snaps[..|snaps| - 1]) + snaps[|snaps| - 1]
  }

  function Previous(snaps: seq<Snapshot>): Snapshot {
    if snaps == [] then map[] else snaps[|snaps| - 1]
  }

  /** Last-seen counters of a user's connections. */
  function Counters(seen: Snapshot, user: string, d: Direction): map<string, int> {
    map id | id in seen && seen[id].user == user :: seen[id].total.In(d)
  }

  /** A connection keeps its user, and its counters do not fall between two snapshots that both have it. */
  ghost predicate Steady(seen: Snapshot, prev: Snapshot, next: Snapshot) {
    && (forall id :: id in next && id in seen ==> next[id].user == seen[id].user)
    && (forall id :: id in next && id in prev ==>
          prev[id].total.up <= next[id].total.up && prev[id].total.down <= next[id].total.down)
  }

  ghost predicate SteadyRun(snaps: seq<Snapshot>) {
    forall i :: 0 <= i < |snaps| ==> Steady(Seen(snaps[..i]), Previous(snaps[..i]), snaps[i])
  }

  /** What is counted a second time: the old counters of a user's connections that vanished and came back. */
  function Recounted(seen: Snapshot, prev: Snapshot, next: Snapshot, user: string, d: Direction): map<string, int> {
    map id | id in next && id in seen && id !in prev && seen[id].user == user :: seen[id].total.In(d)
  }

  ghost function RecountedFor(snaps: seq<Snapshot>, user: string, d: Direction): int {
    if snaps == [] then 0
    else
      var front, last := snaps[..|snaps| - 1], snaps[|snaps| - 1];
      RecountedFor(front, user, d) + Sum(Recounted(Seen(front), Previous(front), last, user, d))
  }

  /** No connection comes back once it has vanished. */
  ghost predicate NoReturns(snaps: seq<Snapshot>) {
    forall i, id :: 0 <= i < |snaps| && id in snaps[i] && id in Seen(snaps[..i]) ==> id in Previous(snaps[..i])
  }

  /** The sum of everything reported for a user over a run of snapshots. */
  ghost function ReportedFor(snaps: seq<Snapshot>, user: string, d: Direction): int {
    if snaps == [] then 0
    else
      var front, last := snaps[..|snaps| - 1], snaps[|snaps| - 1];
      ReportedFor(front, user, d) + Sum(Contribution(Previous(front), last, user, d))
  }

  lemma StepBalances(seen: Snapshot, prev: Snapshot, next: Snapshot, user: string, d: Direction)
    requires Steady(seen, prev, next)
    requires forall id :: id in prev ==> id in seen && seen[id] == prev[id]
    ensures Sum(Counters(seen + next, user, d)) + Sum(Recounted(seen, prev, next, user, d)) ==
      Sum(Counters(seen, user, d)) + Sum(Contribution(prev, next, user, d))
  {
    var after, before := Counters(seen + next, user, d), Counters(seen, user, d);
    var added, again := Contribution(prev, next, user, d), Recounted(seen, prev, next, user, d);
    var both := map id | id in after :: after[id] + Or0(again, id);
    forall id | id in both
      ensures both[id] == Or0(before, id) + Or0(added, id)
    {
    }
    SumAdds(both, after, again);
    SumAdds(both, before, added);
  }

  /**
   * Conservation: for every run in which connections keep their user and count upwards, a user's
   * reports add up to that user's last-seen counters, plus exactly what connections that vanished
   * and came back had counted before.
   */
  lemma {:induction false} UserTrafficBalance(snaps: seq<Snapshot>, user: string, d: Direction)
    requires SteadyRun(snaps)
    ensures ReportedFor(snaps, user, d) == Sum(Counters(Seen(snaps), user, d)) + RecountedFor(snaps, user, d)
  {
    hide Counters, Contribution, Recounted;
    if snaps == [] {
      NothingSeen(user, d);
    } else {
      var front, last := snaps[..|snaps| - 1], snaps[|snaps| - 1];
      forall i | 0 <= i < |front|
        ensures Steady(Seen(front[..i]), Previous(front[..i]), front[i])
      {
        assert front[..i] == snaps[..i];
      }
      UserTrafficBalance(front, user, d);
      StepBalances(Seen(front), Previous(front), last, user, d);
    }
  }

  /** When no connection returns, nothing is counted twice. */
  lemma {:induction false} UserTrafficIsConserved(snaps: seq<Snapshot>, user: string, d: Direction)
    requires SteadyRun(snaps) && NoReturns(snaps)
    ensures ReportedFor(snaps, user, d) == Sum(Counters(Seen(snaps), user, d))
  {
    UserTrafficBalance(snaps, user, d);
    NothingRecounted(snaps, user, d);
  }

  lemma {:induction false} NothingRecounted(snaps: seq<Snapshot>, user: string, d: Direction)
    requires NoReturns(snaps)
    ensures RecountedFor(snaps, user, d) == 0
  {
    if snaps != [] {
      var front, last := snaps[..|snaps| - 1], snaps[|snaps| - 1];
      forall i, id | 0 <= i < |front| && id in front[i] && id in Seen(front[..i])
        ensures id in Previous(front[..i])
      {
        assert front[..i] == snaps[..i] && id in snaps[i];
      }
      NothingRecounted(front, user, d);
      assert Recounted(Seen(front), Previous(front), last, user, d) == map[];
    }
  }

  // ----- counters that fall, and connections that change hands

  /** With counters from zero up, no entry of a report is negative, whatever the counters do. */
  lemma {:induction false} ReportsAreNonNegative(
    prev: Snapshot, snapshot: Snapshot, report: map<string, Bytes>, u: string, d: Direction)
    requires IsReport(prev, snapshot, report) && u in report
    requires forall id :: id in snapshot ==> snapshot[id].total.up >= 0 && snapshot[id].total.down >= 0
    ensures report[u].In(d) >= 0
  {
    SumNonNegative(Contribution(prev, snapshot, u, d));
  }

  /** The connection has carried something since the last snapshot, or is new and has carried something at all. */
  predicate Grown(prev: Snapshot, id: string, total: Bytes) {
    if id in prev then total.up > prev[id].total.up || total.down > prev[id].total.down else total != Bytes(0, 0)
  }

  /** A user is listed exactly when one of their connections has grown. */
  lemma ListedExactlyWhenGrown(prev: Snapshot, snapshot: Snapshot, report: map<string, Bytes>, u: string)
    requires IsReport(prev, snapshot, report)
    ensures u in report <==>
      exists id :: id in snapshot && snapshot[id].user == u && Grown(prev, id, snapshot[id].total)
  {
    forall id | id in snapshot
      ensures ConnDelta(prev, id, snapshot[id]) != Bytes(0, 0) <==> Grown(prev, id, snapshot[id].total)
    {
    }
    hide ConnDelta, Grown;
  }

  lemma {:induction false} SumNonNegative(m: map<string, int>)
    requires forall k :: k in m ==> m[k] >= 0
    ensures Sum(m) >= 0
    decreases |m|
  {
    if m != map[] {
      var k :| k in m;
      SumRemove(m, k);
      SumNonNegative(m - {k});
    }
  }

  /** Last-seen counters of a user's connections that a new snapshot replaces. */
  function Superseded(seen: Snapshot, next: Snapshot, user: string, d: Direction): map<string, int> {
    map id | id in next && id in seen && seen[id].user == user :: seen[id].total.In(d)
  }

  /** What a report leaves out of a connection's counter: the smaller of the old one and the new. */
  function Deducted(prev: Snapshot, next: Snapshot, user: string, d: Direction): map<string, int> {
    map id | id in next && id in prev && next[id].user == user ::
      Min(prev[id].total.In(d), next[id].total.In(d))
  }

  ghost function SupersededFor(snaps: seq<Snapshot>, user: string, d: Direction): int {
    if snaps == [] then 0
    else
      var front, last := snaps[..|snaps| - 1], snaps[|snaps| - 1];
      SupersededFor(front, user, d) + Sum(Superseded(Seen(front), last, user, d))
  }

  ghost function DeductedFor(snaps: seq<Snapshot>, user: string, d: Direction): int {
    if snaps == [] then 0
    else
      var front, last := snaps[..|snaps| - 1], snaps[|snaps| - 1];
      DeductedFor(front, user, d) + Sum(Deducted(Previous(front), last, user, d))
  }

  /** The counters of a user's connections in one snapshot. */
  lemma SnapshotSplits(prev: Snapshot, next: Snapshot, user: string, d: Direction)
    ensures Sum(Counters(next, user, d)) ==
      Sum(Contribution(prev, next, user, d)) + Sum(Deducted(prev, next, user, d))
  {
    SumAdds(Counters(next, user, d), Contribution(prev, next, user, d), Deducted(prev, next, user, d));
  }

  lemma SeenSplits(seen: Snapshot, next: Snapshot, user: string, d: Direction)
    ensures Sum(Counters(seen + next, user, d)) + Sum(Superseded(seen, next, user, d)) ==
      Sum(Counters(seen, user, d)) + Sum(Counters(next, user, d))
  {
    var after, gone := Counters(seen + next, user, d), Superseded(seen, next, user, d);
    var before, now := Counters(seen, user, d), Counters(next, user, d);
    var both := map id | id in after.Keys + gone.Keys :: Or0(after, id) + Or0(gone, id);
    forall id | id in both
      ensures both[id] == Or0(before, id) + Or0(now, id)
    {
    }
    SumAdds(both, after, gone);
    SumAdds(both, before, now);
  }

  /**
   * The balance of every run whatever, with counters that fall and connections that change user:
   * reports plus what they left out are last-seen counters plus what those replaced.
   */
  lemma {:induction false} UserTrafficAlways(snaps: seq<Snapshot>, user: string, d: Direction)
    ensures ReportedFor(snaps, user, d) + DeductedFor(snaps, user, d) ==
      Sum(Counters(Seen(snaps), user, d)) + SupersededFor(snaps, user, d)
  {
    hide Counters, Contribution, Superseded, Deducted;
    if snaps == [] {
      NothingSeen(user, d);
    } else {
      var front, last := snaps[..|snaps| - 1], snaps[|snaps| - 1];
      UserTrafficAlways(front, user, d);
      SeenSplits(Seen(front), last, user, d);
      SnapshotSplits(Previous(front), last, user, d);
    }
  }

  /** A connection that vanishes at 5 bytes and comes back at 7 is reported with 12. */
  lemma ReturningConnectionExample()
    ensures var five, seven := map["id" := Conn("u", Bytes(5, 0))], map["id" := Conn("u", Bytes(7, 0))];
      ReportedFor([five, map[], seven], "u", Up) == 12 && Seen([five, map[], seven])["id"].total.up == 7
  {
    var five, seven := map["id" := Conn("u", Bytes(5, 0))], map["id" := Conn("u", Bytes(7, 0))];
    var snaps := [five, map[], seven];
    assert snaps[..2] == [five, map[]] && snaps[..2][..1] == [five] && [five][..0] == [];
    assert Contribution(map[], five, "u", Up) == map["id" := 5];
    assert Contribution(five, map[], "u", Up) == map[];
    assert Contribution(map[], seven, "u", Up) == map["id" := 7];
    SumRemove(map["id" := 5], "id");
    SumRemove(map["id" := 7], "id");
    assert map["id" := 5] - {"id"} == map[] && map["id" := 7] - {"id"} == map[];
    assert Sum(map["id" := 5]) == 5 && Sum(map["id" := 7]) == 7 && Sum(map[]) == 0;
    hide Contribution, Sum;
    assert ReportedFor([five], "u", Up) == 5;
    assert ReportedFor([five, map[]], "u", Up) == 5;
  }

  lemma NothingSeen(user: string, d: Direction)
    ensures Counters(map[], user, d) == map[]
  {
  }

  /** `SingboxTrafficState` and its update; `None` stands for a gRPC failure, which leaves the state alone. */
  class SingboxTrafficState {
    var prevTotal: Option<Bytes>
    var prevConns: Snapshot
    ghost var totals: seq<Bytes>
    ghost var snaps: seq<Snapshot>

    ghost predicate Valid()
      reads this
    {
      prevTotal == Last(totals) && prevConns == Previous(snaps)
    }

    constructor ()
      ensures Valid() && totals == [] && snaps == []
    {
      prevTotal, prevConns, totals, snaps := None, map[], [], [];
    }

    method Collect(sample: Option<(Bytes, seq<ConnEvent>)>) returns (inbound: Option<Bytes>, users: map<string, Bytes>)
      requires Valid()
      modifies this
      ensures Valid()
      ensures sample.None? ==>
        totals == old(totals) && snaps == old(snaps) && inbound == None && users == map[]
      ensures sample.Some? ==>
        && totals == old(totals) + [sample.value.0]
        && prevConns == SnapshotOf(sample.value.1) && snaps == old(snaps) + [prevConns]
        && (forall d: Direction ::
              (if inbound.Some? then inbound.value.In(d) else 0) == InboundFor(totals, d) - InboundFor(old(totals), d))
        && (forall u, d: Direction ::
              (if u in users then users[u].In(d) else 0) == ReportedFor(snaps, u, d) - ReportedFor(old(snaps), u, d))
    {
      if sample.None? {
        return None, map[];
      }
      var (total, events) := sample.value;
      var snapshot := ConnectionSnapshot(events);
      inbound := Inbound(prevTotal, total);
      prevTotal, totals := Some(total), totals + [total];
      assert totals[..|totals| - 1] == old(totals);
      users := UserDeltas(prevConns, snapshot);
      forall u, d: Direction
        ensures (if u in users then users[u].In(d) else 0) == Sum(Contribution(prevConns, snapshot, u, d))
      {
        ReportCountsAll(prevConns, snapshot, users, u, d);
      }
      prevConns := snapshot;
      snaps := snaps + [snapshot];
    }
  }
}
