/** The multi-table purge of the 0.2.0 data upgrade (`purge_xray_data`), which may be cut off anywhere. */
module XrayPurge {
  import opened Prelude

  type Id = nat

  datatype Json = Text(s: string) | Array(items: seq<Json>) | Scalar(repr: string) | Object(fields: map<string, Json>)

  // Rows; `data` stands for the columns the purge neither reads nor writes.
  datatype Config = Config(core: string, data: string)
  datatype Binding = Binding(config: Id, data: string)
  datatype Link = Link(binding: Id, data: string)
  datatype CoreVersion = CoreVersion(core: string, data: string)
  datatype AgentLog = AgentLog(target: string, data: string)
  datatype Node = Node(cores: Json, data: string)

  datatype Tables = Tables(
    configs: map<Id, Config>, bindings: map<Id, Binding>, links: map<Id, Link>,
    versions: map<Id, CoreVersion>, logs: map<Id, AgentLog>, nodes: map<Id, Node>)

  function XrayConfigs(t: Tables): set<Id> {
    set c | c in t.configs && t.configs[c].core == "xray"
  }

  function XrayBindings(t: Tables): set<Id> {
    set b | b in t.bindings && t.bindings[b].config in XrayConfigs(t)
  }

  function XrayLinks(t: Tables): set<Id> {
    set l | l in t.links && t.links[l].binding in XrayBindings(t)
  }

  function XrayVersions(t: Tables): set<Id> {
    set v | v in t.versions && t.versions[v].core == "xray"
  }

  function XrayLogs(t: Tables): set<Id> {
    set l | l in t.logs && t.logs[l].target == "core-xray"
  }

  function WithoutXray(items: seq<Json>): seq<Json> {
    if items == [] then []
    else (if items[0] == Text("xray") then [] else [items[0]]) + WithoutXray(items[1..])
  }

  function Cleaned(n: Node): Node {
    if n.cores.Array? then n.(cores := Array(WithoutXray(n.cores.items))) else n
  }

  /** The database an uninterrupted purge leaves. */
  function Purged(t: Tables): Tables {
    Tables(
      t.configs - XrayConfigs(t), t.bindings - XrayBindings(t), t.links - XrayLinks(t),
      t.versions - XrayVersions(t), t.logs - XrayLogs(t), map n | n in t.nodes :: Cleaned(t.nodes[n]))
  }

  /** Every row of `a` is in `b`, unaltered. */
  ghost predicate Within<R>(a: map<Id, R>, b: map<Id, R>) {
    forall k :: k in a ==> k in b && a[k] == b[k]
  }

  /**
   * A point at which a purge of `t` may be cut off.  Rows go one by one, links before the bindings
   * they name, bindings before the configs they name, and nothing that is not xray is altered.
   */
  ghost predicate CutOff(t: Tables, mid: Tables) {
    var p := Purged(t);
    && ReferencesCutOff(t, mid)
    && Within(p.versions, mid.versions) && Within(mid.versions, t.versions)
    && Within(p.logs, mid.logs) && Within(mid.logs, t.logs)
    && mid.nodes.Keys == t.nodes.Keys
    && (forall n :: n in t.nodes ==> mid.nodes[n] == t.nodes[n] || mid.nodes[n] == Cleaned(t.nodes[n]))
  }

  /** No reference that resolved in `t` has stopped resolving. */
  ghost predicate NoNewDangling(t: Tables, mid: Tables) {
    && (forall b :: b in mid.bindings && mid.bindings[b].config in t.configs ==> mid.bindings[b].config in mid.configs)
    && (forall l :: l in mid.links && mid.links[l].binding in t.bindings ==> mid.links[l].binding in mid.bindings)
  }

  lemma {:induction false} FilterTwice(items: seq<Json>)
    ensures WithoutXray(WithoutXray(items)) == WithoutXray(items)
  {
    if items != [] {
      FilterTwice(items[1..]);
      if items[0] != Text("xray") {
        assert ([items[0]] + WithoutXray(items[1..]))[1..] == WithoutXray(items[1..]);
      } else {
        assert [] + WithoutXray(items[1..]) == WithoutXray(items[1..]);
      }
    }
  }

  lemma {:induction false} FilterLength(items: seq<Json>)
    ensures |WithoutXray(items)| <= |items|
    ensures |WithoutXray(items)| == |items| <==> WithoutXray(items) == items
    ensures Text("xray") !in WithoutXray(items)
  {
    if items != [] {
      FilterLength(items[1..]);
      assert items == [items[0]] + items[1..];
    }
  }

  /** Wherever a purge is cut off, running it again reaches exactly the uninterrupted result. */
  lemma PurgeResumes(t: Tables, mid: Tables)
    requires CutOff(t, mid)
    ensures Purged(mid) == Purged(t)
  {
    var p, q := Purged(t), Purged(mid);
    ReferencesResume(t, mid);
    hide ReferencesCutOff, XrayConfigs, XrayBindings, XrayLinks;
    assert q.versions == p.versions;
    assert q.logs == p.logs;
    forall n | n in t.nodes
      ensures q.nodes[n] == p.nodes[n]
    {
      if t.nodes[n].cores.Array? {
        FilterTwice(t.nodes[n].cores.items);
      }
    }
    assert q.nodes == p.nodes;
  }

  /** The three tables that refer to one another. */
  ghost predicate ReferencesCutOff(t: Tables, mid: Tables) {
    var p := Purged(t);
    && Within(p.links, mid.links) && Within(mid.links, t.links)
    && Within(p.bindings, mid.bindings) && Within(mid.bindings, t.bindings)
    && Within(p.configs, mid.configs) && Within(mid.configs, t.configs)
    && (mid.bindings != t.bindings ==> mid.links == p.links)
    && (mid.configs != t.configs ==> mid.bindings == p.bindings && mid.links == p.links)
  }

  lemma ConfigsResume(t: Tables, mid: Tables)
    requires Within(t.configs - XrayConfigs(t), mid.configs) && Within(mid.configs, t.configs)
    ensures mid.configs - XrayConfigs(mid) == t.configs - XrayConfigs(t)
  {
  }

  lemma BindingsResume(t: Tables, mid: Tables)
    requires Within(t.bindings - XrayBindings(t), mid.bindings) && Within(mid.bindings, t.bindings)
    requires Within(mid.configs, t.configs)
    requires mid.configs != t.configs ==> mid.bindings == t.bindings - XrayBindings(t)
    ensures mid.bindings - XrayBindings(mid) == t.bindings - XrayBindings(t)
  {
    if mid.configs == t.configs {
      assert XrayConfigs(mid) == XrayConfigs(t);
    } else {
      assert XrayBindings(mid) == {};
    }
  }

  lemma LinksResume(t: Tables, mid: Tables)
    requires Within(t.links - XrayLinks(t), mid.links) && Within(mid.links, t.links)
    requires Within(mid.configs, t.configs) && Within(mid.bindings, t.bindings)
    requires mid.configs != t.configs || mid.bindings != t.bindings ==> mid.links == t.links - XrayLinks(t)
    ensures mid.links - XrayLinks(mid) == t.links - XrayLinks(t)
  {
    assert XrayBindings(mid) <= XrayBindings(t);
    if mid.configs == t.configs && mid.bindings == t.bindings {
      assert XrayBindings(mid) == XrayBindings(t);
    } else {
      assert XrayLinks(mid) == {};
    }
  }

  lemma ReferencesResume(t: Tables, mid: Tables)
    requires ReferencesCutOff(t, mid)
    ensures Purged(mid).configs == Purged(t).configs
    ensures Purged(mid).bindings == Purged(t).bindings
    ensures Purged(mid).links == Purged(t).links
  {
    hide XrayConfigs, XrayBindings, XrayLinks, Within;
    ConfigsResume(t, mid);
    BindingsResume(t, mid);
    LinksResume(t, mid);
  }

  lemma CutOffKeepsReferences(t: Tables, mid: Tables)
    requires CutOff(t, mid)
    ensures NoNewDangling(t, mid)
  {
  }

  /** A cut-off purge of a cut-off purge is again a cut-off purge of the original. */
  lemma CutOffAgain(t: Tables, mid: Tables, next: Tables)
    requires CutOff(t, mid) && CutOff(mid, next)
    ensures CutOff(t, next)
  {
    PurgeResumes(t, mid);
    ReferencesCutOffAgain(t, mid, next);
    hide Purged, ReferencesCutOff;
    forall n | n in t.nodes && t.nodes[n].cores.Array?
      ensures Cleaned(Cleaned(t.nodes[n])) == Cleaned(t.nodes[n])
    {
      FilterTwice(t.nodes[n].cores.items);
    }
  }

  lemma ReferencesCutOffAgain(t: Tables, mid: Tables, next: Tables)
    requires ReferencesCutOff(t, mid) && ReferencesCutOff(mid, next)
    ensures ReferencesCutOff(t, next)
  {
    ReferencesResume(t, mid);
    var p := Purged(t);
    assert Within(mid.links, t.links) && Within(mid.bindings, t.bindings) && Within(mid.configs, t.configs);
    hide Purged, XrayConfigs, XrayBindings, XrayLinks;
    if mid.bindings != t.bindings {
      assert next.links == p.links;
    }
    if mid.configs != t.configs {
      assert next.bindings == p.bindings;
      assert next.links == p.links;
    }
  }

  /** Purges cut off over and over: each state in `states` is where the next attempt began and was cut off. */
  lemma {:induction false} RepeatedCutOffs(t: Tables, states: seq<Tables>)
    requires states != [] && states[0] == t
    requires forall i :: 0 <= i < |states| - 1 ==> CutOff(states[i], states[i + 1])
    ensures forall s :: s in states ==> CutOff(t, s) && NoNewDangling(t, s) && Purged(s) == Purged(t)
  {
    var k := 1;
    CutOffNowhere(t);
    while k < |states|
      invariant 1 <= k <= |states|
      invariant forall i :: 0 <= i < k ==> CutOff(t, states[i])
    {
      CutOffAgain(t, states[k - 1], states[k]);
      k := k + 1;
    }
    forall s | s in states
      ensures CutOff(t, s) && NoNewDangling(t, s) && Purged(s) == Purged(t)
    {
      CutOffKeepsReferences(t, s);
      PurgeResumes(t, s);
    }
  }

  lemma CutOffNowhere(t: Tables)
    ensures CutOff(t, t)
  {
  }

  /** Row `k` of a table that is not doomed is there afterwards, unaltered. */
  ghost predicate Spared<R>(before: map<Id, R>, after: map<Id, R>, doomed: set<Id>) {
    forall k :: k in before && k !in doomed ==> Get(after, k) == Some(before[k])
  }

  /**
   * Purging leaves no xray row, nor any binding or link that led to one before, and every row that
   * is not xray's is still there and unaltered.
   */
  lemma PurgeIsComplete(t: Tables)
    ensures var p := Purged(t);
      && (forall c :: c in p.configs ==> p.configs[c].core != "xray")
      && (forall b :: b in p.bindings ==> p.bindings[b].config !in XrayConfigs(t))
      && (forall l :: l in p.links ==> p.links[l].binding !in XrayBindings(t))
      && (forall v :: v in p.versions ==> p.versions[v].core != "xray")
      && (forall l :: l in p.logs ==> p.logs[l].target != "core-xray")
      && (forall n :: n in p.nodes && p.nodes[n].cores.Array? ==> Text("xray") !in p.nodes[n].cores.items)
    ensures var p := Purged(t);
      && Spared(t.configs, p.configs, XrayConfigs(t)) && Spared(t.bindings, p.bindings, XrayBindings(t))
      && Spared(t.links, p.links, XrayLinks(t)) && Spared(t.versions, p.versions, XrayVersions(t))
      && Spared(t.logs, p.logs, XrayLogs(t))
      && (forall n :: n in t.nodes && (t.nodes[n].cores.Array? ==> Text("xray") !in t.nodes[n].cores.items) ==>
            Get(p.nodes, n) == Some(t.nodes[n]))
    ensures Within(Purged(t).configs, t.configs) && Within(Purged(t).bindings, t.bindings)
    ensures Within(Purged(t).links, t.links) && Within(Purged(t).versions, t.versions)
    ensures Within(Purged(t).logs, t.logs) && Purged(t).nodes.Keys == t.nodes.Keys
    ensures forall n :: n in t.nodes ==> Purged(t).nodes[n].data == t.nodes[n].data
  {
    var p := Purged(t);
    forall n | n in t.nodes && t.nodes[n].cores.Array?
      ensures Text("xray") !in p.nodes[n].cores.items
      ensures Text("xray") !in t.nodes[n].cores.items ==> p.nodes[n] == t.nodes[n]
    {
      FilterLength(t.nodes[n].cores.items);
      if Text("xray") !in t.nodes[n].cores.items {
        FilterNothing(t.nodes[n].cores.items);
      }
    }
  }

  /**
   * Exactly these rows go: configs of core "xray", bindings to such a config, links to such a binding,
   * versions of core "xray" and logs of target "core-xray".  Every other row stays as it is.
   */
  lemma OnlyXrayGoes(t: Tables)
    ensures forall c :: c in t.configs ==>
      Get(Purged(t).configs, c) == if t.configs[c].core == "xray" then None else Some(t.configs[c])
    ensures forall b :: b in t.bindings ==>
      Get(Purged(t).bindings, b) ==
        if LeadsToXray(t, t.bindings[b]) then None else Some(t.bindings[b])
    ensures forall l :: l in t.links ==>
      Get(Purged(t).links, l) ==
        if t.links[l].binding in t.bindings && LeadsToXray(t, t.bindings[t.links[l].binding]) then None
        else Some(t.links[l])
    ensures forall v :: v in t.versions ==>
      Get(Purged(t).versions, v) == if t.versions[v].core == "xray" then None else Some(t.versions[v])
    ensures forall l :: l in t.logs ==>
      Get(Purged(t).logs, l) == if t.logs[l].target == "core-xray" then None else Some(t.logs[l])
  {
  }

  predicate LeadsToXray(t: Tables, b: Binding) {
    b.config in t.configs && t.configs[b.config].core == "xray"
  }

  /** A list of cores is filtered entry by entry, in order. */
  lemma {:induction false} FilterJoins(a: seq<Json>, b: seq<Json>, x: Json)
    ensures WithoutXray(a + b) == WithoutXray(a) + WithoutXray(b)
    ensures WithoutXray([x]) == if x == Text("xray") then [] else [x]
  {
    assert [x][1..] == [];
    if a == [] {
      assert a + b == b;
    } else {
      assert (a + b)[1..] == a[1..] + b;
      FilterJoins(a[1..], b, x);
    }
  }

  /** A node changes by its list of cores only. */
  lemma NodesAreCleaned(t: Tables, n: Id)
    requires n in t.nodes
    ensures n in Purged(t).nodes && Purged(t).nodes[n].data == t.nodes[n].data
    ensures Purged(t).nodes[n].cores ==
      if t.nodes[n].cores.Array? then Array(WithoutXray(t.nodes[n].cores.items)) else t.nodes[n].cores
  {
  }

  /** Filtering a node's cores takes out the xray entries only: every other entry stays as often as it was. */
  lemma {:induction false} FilterKeepsTheRest(items: seq<Json>, other: Json)
    requires other != Text("xray")
    ensures multiset(WithoutXray(items))[other] == multiset(items)[other]
  {
    if items != [] {
      FilterKeepsTheRest(items[1..], other);
      assert items == [items[0]] + items[1..];
    }
  }

  lemma {:induction false} FilterNothing(items: seq<Json>)
    requires Text("xray") !in items
    ensures WithoutXray(items) == items
  {
    if items != [] {
      FilterNothing(items[1..]);
      assert items == [items[0]] + items[1..];
    }
  }

  class Database {
    var t: Tables

    constructor (t: Tables)
      ensures this.t == t
    {
      this.t := t;
    }

    /** One delete statement: it removes its rows, or (when `mayFail`) fails after any of them. */
    static method Delete<R>(table: map<Id, R>, doomed: set<Id>, mayFail: bool) returns (ok: bool, after: map<Id, R>)
      ensures Within(table - doomed, after) && Within(after, table)
      ensures ok ==> after == table - doomed
      ensures !mayFail ==> ok
    {
      ok := *;
      if ok || !mayFail {
        return true, table - doomed;
      }
      var gone: set<Id> := *;
      return false, table - (gone * doomed);
    }

    /** With `mayFail`, any query or statement may fail, which ends the purge there. */
    method PurgeXrayData(mayFail: bool) returns (ok: bool)
      modifies this
      ensures CutOff(old(t), t)
      ensures ok ==> t == Purged(old(t))
      ensures !mayFail ==> ok
    {
      ghost var t0 := t;
      var found := *;
      if mayFail && !found {
        return false;
      }
      var configIds := XrayConfigs(t);
      if configIds != {} {
        var bindingIds := XrayBindings(t);
        if bindingIds != {} {
          var links;
          ok, links := Delete(t.links, (set l | l in t.links && t.links[l].binding in bindingIds), mayFail);
          t := t.(links := links);
          if !ok {
            return;
          }
          var bindings;
          ok, bindings := Delete(t.bindings, bindingIds, mayFail);
          t := t.(bindings := bindings);
          if !ok {
            return;
          }
        }
        assert t.bindings == Purged(t0).bindings && t.links == Purged(t0).links;
        var configs;
        ok, configs := Delete(t.configs, configIds, mayFail);
        t := t.(configs := configs);
        if !ok {
          return;
        }
      }
      assert t.bindings == Purged(t0).bindings && t.links == Purged(t0).links && t.configs == Purged(t0).configs;
      var versions, logs;
      ok, versions := Delete(t.versions, XrayVersions(t), mayFail);
      t := t.(versions := versions);
      if !ok {
        return;
      }
      ok, logs := Delete(t.logs, XrayLogs(t), mayFail);
      t := t.(logs := logs);
      if !ok {
        return;
      }
      ok := CleanNodes(mayFail);
    }

    /** The last loop, over the nodes in whatever order the query returns them. */
    method CleanNodes(mayFail: bool) returns (ok: bool)
      modifies this
      ensures t == old(t).(nodes := t.nodes) && t.nodes.Keys == old(t).nodes.Keys
      ensures forall n :: n in t.nodes ==> t.nodes[n] == old(t).nodes[n] || t.nodes[n] == Cleaned(old(t).nodes[n])
      ensures ok ==> t.nodes == Purged(old(t)).nodes
      ensures !mayFail ==> ok
    {
      var todo := t.nodes.Keys;
      while todo != {}
        invariant todo <= t.nodes.Keys
        invariant t == old(t).(nodes := t.nodes) && t.nodes.Keys == old(t).nodes.Keys
        invariant forall n :: n in todo ==> t.nodes[n] == old(t).nodes[n]
        invariant forall n :: n in t.nodes && n !in todo ==> t.nodes[n] == Cleaned(old(t).nodes[n])
      {
        var n :| n in todo;
        var row := t.nodes[n];
        if row.cores.Array? {
          var filtered := WithoutXray(row.cores.items);
          FilterLength(row.cores.items);
          if |filtered| != |row.cores.items| {
            var updated := *;
            if mayFail && !updated {
              return false;
            }
            t := t.(nodes := t.nodes[n := row.(cores := Array(filtered))]);
          }
        }
        todo := todo - {n};
      }
      assert t.nodes == Purged(old(t)).nodes;
      return true;
    }
  }
}
