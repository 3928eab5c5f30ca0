/** The `finalize_ng_components` step of every variant, as functions on the
    node-group table: which client and dependency components each variant
    adds to which node groups. */
module Augment {
  import opened Strings
  import opened Topology
  import opened Catalog

  const HdfsClient := "HDFS_CLIENT"
  const MapReduceClient := "MAPREDUCE_CLIENT"
  const ZookeeperClient := "ZOOKEEPER_CLIENT"
  const ZookeeperServer := "ZOOKEEPER_SERVER"
  const GangliaMonitor := "GANGLIA_MONITOR"
  const HiveServer := "HIVE_SERVER"
  const HiveMetastore := "HIVE_METASTORE"
  const MysqlServer := "MYSQL_SERVER"
  const WebHCatServer := "WEBHCAT_SERVER"
  const OozieServer := "OOZIE_SERVER"
  const OozieClient := "OOZIE_CLIENT"
  const SqoopComponent := "SQOOP"

  /** `if c not in cs: cs.append(c)`. */
  function AppendIfAbsent(cs: seq<string>, c: string): seq<string>
  {
    if c in cs then cs else cs + [c]
  }

  /** The guarded append of each name in turn. */
  function AppendAllIfAbsent(cs: seq<string>, names: seq<string>): seq<string>
    decreases |names|
  {
    if |names| == 0 then cs else AppendAllIfAbsent(AppendIfAbsent(cs, names[0]), names[1..])
  }

  function WithAll(g: NodeGroup, names: seq<string>): NodeGroup
  {
    g.(components := AppendAllIfAbsent(g.components, names))
  }

  /** One guarded append. */
  lemma WithAllOne(g: NodeGroup, c: string)
    ensures WithAll(g, [c]) == g.(components := AppendIfAbsent(g.components, c))
  {
    var cs := AppendIfAbsent(g.components, c);
    assert [c][1..] == [];
    assert AppendAllIfAbsent(cs, []) == cs;
    assert AppendAllIfAbsent(g.components, [c]) == AppendAllIfAbsent(cs, [c][1..]);
  }

  /** Two guarded appends in turn. */
  lemma WithAllTwo(g: NodeGroup, c: string, d: string)
    ensures WithAll(g, [c, d]) == g.(components := AppendIfAbsent(AppendIfAbsent(g.components, c), d))
  {
    var cs := AppendIfAbsent(g.components, c);
    var ds := AppendIfAbsent(cs, d);
    assert [c, d][1..] == [d] && [d][1..] == [];
    assert AppendAllIfAbsent(ds, []) == ds;
    assert AppendAllIfAbsent(cs, [d]) == AppendAllIfAbsent(ds, [d][1..]);
    assert AppendAllIfAbsent(g.components, [c, d]) == AppendAllIfAbsent(cs, [c, d][1..]);
  }

  /** An unguarded `components.append(c)` on group `i`. */
  function AppendTo(groups: seq<NodeGroup>, i: nat, c: string): seq<NodeGroup>
    requires i < |groups|
  {
    groups[i := groups[i].(components := groups[i].components + [c])]
  }

  /** The guarded appends of `names` on every group that lists `member`. */
  function AugmentWhere(groups: seq<NodeGroup>, member: string, names: seq<string>): (r: seq<NodeGroup>)
    ensures |r| == |groups|
  {
    seq(|groups|, i requires 0 <= i < |groups| =>
      if member in groups[i].components then WithAll(groups[i], names) else groups[i])
  }

  /** The elements `after` has beyond its prefix `before`. */
  function Added(before: seq<string>, after: seq<string>): seq<string>
    requires |before| <= |after|
  {
    after[|before|..]
  }

  /** `after` is `before` with components appended, all taken from `names`;
      nothing is removed or reordered and no other field changes. */
  predicate GrowsBy(before: seq<NodeGroup>, after: seq<NodeGroup>, names: set<string>)
  {
    |before| == |after| &&
    forall i :: 0 <= i < |before| ==> GroupGrows(before[i], after[i], names)
  }

  /** One group of `GrowsBy`. */
  predicate GroupGrows(before: NodeGroup, after: NodeGroup, names: set<string>)
  {
    after == before.(components := after.components) &&
    before.components <= after.components &&
    forall x :: x in Added(before.components, after.components) ==> x in names
  }

  // ---------------------------------------------------------------------
  // The variants.

  /** Ganglia: every node group runs the monitoring agent. */
  function GangliaAugmented(groups: seq<NodeGroup>): (r: seq<NodeGroup>)
    ensures |r| == |groups|
  {
    seq(|groups|, i requires 0 <= i < |groups| => WithAll(groups[i], [GangliaMonitor]))
  }

  /** Sqoop: every group with `SQOOP` gets the HDFS and MapReduce clients. */
  function SqoopAugmented(groups: seq<NodeGroup>): seq<NodeGroup>
  {
    AugmentWhere(groups, SqoopComponent, [HdfsClient, MapReduceClient])
  }

  /** Index of the first group that lists `c`. */
  function FirstGroup(groups: seq<NodeGroup>, c: string): (i: nat)
    requires GroupsContaining(groups, c) != []
    ensures i < |groups| && c in groups[i].components
  {
    GroupsContaining(groups, c)[0]
  }

  /** The clients added to the first group of `server`. */
  function ServerClients(groups: seq<NodeGroup>, server: string): (r: seq<NodeGroup>)
    requires GroupsContaining(groups, server) != []
    ensures |r| == |groups|
  {
    var s := FirstGroup(groups, server);
    groups[s := WithAll(groups[s], [HdfsClient, MapReduceClient])]
  }

  /** The group the MapReduce client append after the Oozie client loop
      reaches: the `components` left over from the last client group, or
      from the server group when there is none. */
  function OozieLastGroup(groups: seq<NodeGroup>): (i: nat)
    requires GroupsContaining(groups, OozieServer) != []
    ensures i < |groups|
    ensures GroupsContaining(groups, OozieClient) == [] ==> i == FirstGroup(groups, OozieServer)
    ensures GroupsContaining(groups, OozieClient) != [] ==>
      OozieClient in groups[i].components &&
      forall j :: i < j < |groups| ==> OozieClient !in groups[j].components
  {
    var clients := GroupsContaining(groups, OozieClient);
    if clients == [] then FirstGroup(groups, OozieServer)
    else
      var i := clients[|clients| - 1];
      assert forall j :: i < j < |groups| ==> OozieClient !in groups[j].components by {
        forall j | i < j < |groups| && OozieClient in groups[j].components ensures false {
          LastContaining(groups, OozieClient, j);
        }
      }
      i
  }

  /** Oozie as the source is written: the server group gets both clients,
      every client group gets the HDFS client, but the guarded append of the
      MapReduce client sits after the loop and so reaches only
      `OozieLastGroup`. */
  function OozieAugmentedAsWritten(groups: seq<NodeGroup>): (r: seq<NodeGroup>)
    requires GroupsContaining(groups, OozieServer) != []
    ensures |r| == |groups|
  {
    // The source lists the client groups after the server step, which
    // leaves that list as it was (ServerClientsKeepsGroups).
    var g2 := AugmentWhere(ServerClients(groups, OozieServer), OozieClient, [HdfsClient]);
    var last := OozieLastGroup(groups);
    g2[last := WithAll(g2[last], [MapReduceClient])]
  }

  /** Oozie as intended by the comment on the client loop: both clients on
      the server group and on every client group. */
  function OozieAugmented(groups: seq<NodeGroup>): (r: seq<NodeGroup>)
    requires GroupsContaining(groups, OozieServer) != []
    ensures |r| == |groups|
  {
    AugmentWhere(ServerClients(groups, OozieServer), OozieClient, [HdfsClient, MapReduceClient])
  }

  /** `if not get_deployed_node_group_count(c): components.append(c)`. */
  function AppendWhenUndeployed(groups: seq<NodeGroup>, i: nat, c: string): (r: seq<NodeGroup>)
    requires i < |groups|
    ensures |r| == |groups|
  {
    if DeployedCount(groups, c) == 0 then AppendTo(groups, i, c) else groups
  }

  /** Hive up to the Zookeeper check: metastore and database server on the
      first Hive server group when none runs anywhere. */
  function HiveBeforeZookeeper(groups: seq<NodeGroup>): (r: seq<NodeGroup>)
    requires GroupsContaining(groups, HiveServer) != []
    ensures |r| == |groups|
  {
    var h := FirstGroup(groups, HiveServer);
    AppendWhenUndeployed(AppendWhenUndeployed(groups, h, HiveMetastore), h, MysqlServer)
  }

  /** Hive: then the Zookeeper server as well when none runs anywhere. */
  function HiveAugmented(groups: seq<NodeGroup>): (r: seq<NodeGroup>)
    requires GroupsContaining(groups, HiveServer) != []
    ensures |r| == |groups|
  {
    AppendWhenUndeployed(HiveBeforeZookeeper(groups), FirstGroup(groups, HiveServer), ZookeeperServer)
  }

  /** WebHCat up to the Zookeeper check: both clients on the first WebHCat
      server group. */
  function WebHCatBeforeZookeeper(groups: seq<NodeGroup>): (r: seq<NodeGroup>)
    requires GroupsContaining(groups, WebHCatServer) != []
    ensures |r| == |groups|
  {
    ServerClients(groups, WebHCatServer)
  }

  /** The WebHCat server group's component list afterwards: both clients if
      missing; then, when the Zookeeper client is missing, the Zookeeper
      server (unless one runs) followed by the Zookeeper client. */
  function WebHCatComponents(cs: seq<string>, zookeeperRuns: bool): seq<string>
  {
    var withClients := AppendAllIfAbsent(cs, [HdfsClient, MapReduceClient]);
    if ZookeeperClient in withClients then withClients
    else withClients + (if zookeeperRuns then [] else [ZookeeperServer]) + [ZookeeperClient]
  }

  /** WebHCat: only the first WebHCat server group changes.  The source
      counts Zookeeper servers after adding the two clients, which leaves
      that count as it was, so the count is taken on the table as given. */
  function WebHCatAugmented(groups: seq<NodeGroup>): (r: seq<NodeGroup>)
    requires GroupsContaining(groups, WebHCatServer) != []
    ensures |r| == |groups|
  {
    var w := FirstGroup(groups, WebHCatServer);
    groups[w := groups[w].(components :=
      WebHCatComponents(groups[w].components, DeployedCount(groups, ZookeeperServer) > 0))]
  }

  /** The WebHCat group lacks the Zookeeper client and no Zookeeper server
      runs anywhere. */
  predicate WebHCatNeedsZookeeper(groups: seq<NodeGroup>)
    requires GroupsContaining(groups, WebHCatServer) != []
  {
    var w := FirstGroup(groups, WebHCatServer);
    ZookeeperClient !in groups[w].components && DeployedCount(groups, ZookeeperServer) == 0
  }

  // ---------------------------------------------------------------------
  // Dispatch over the variants.

  /** The server component whose first group a variant indexes with `[0]`. */
  function AnchorComponent(k: Kind): Wrappers.Option<string>
  {
    match k
    case Hive => Wrappers.Some(HiveServer)
    case WebHCat => Wrappers.Some(WebHCatServer)
    case Oozie => Wrappers.Some(OozieServer)
    case _ => Wrappers.None
  }

  /** The `[0]` lookups of the variant find a group. */
  predicate AugmentReady(k: Kind, groups: seq<NodeGroup>)
  {
    AnchorComponent(k).Some? ==> GroupsContaining(groups, AnchorComponent(k).value) != []
  }

  /** The variant sets the Zookeeper service's `deployed` flag. */
  predicate ActivatesZookeeper(k: Kind, groups: seq<NodeGroup>)
    requires AugmentReady(k, groups)
  {
    match k
    case Hive => DeployedCount(HiveBeforeZookeeper(groups), ZookeeperServer) == 0
    case WebHCat => WebHCatNeedsZookeeper(groups)
    case _ => false
  }

  /** The table when the Zookeeper service cannot be found: the appends made
      before the failing lookup stay. */
  function BeforeZookeeper(k: Kind, groups: seq<NodeGroup>): seq<NodeGroup>
    requires AugmentReady(k, groups) && ActivatesZookeeper(k, groups)
  {
    match k
    case Hive => HiveBeforeZookeeper(groups)
    case WebHCat => WebHCatBeforeZookeeper(groups)
  }

  /** `finalize_ng_components` of each variant, as the source is written. */
  function Augmented(k: Kind, groups: seq<NodeGroup>): seq<NodeGroup>
    requires AugmentReady(k, groups)
  {
    match k
    case Ganglia => GangliaAugmented(groups)
    case Sqoop => SqoopAugmented(groups)
    case Oozie => OozieAugmentedAsWritten(groups)
    case Hive => HiveAugmented(groups)
    case WebHCat => WebHCatAugmented(groups)
    case _ => groups
  }

  /** The components a variant may add. */
  function AddedNames(k: Kind): set<string>
  {
    match k
    case Ganglia => {GangliaMonitor}
    case Sqoop => {HdfsClient, MapReduceClient}
    case Oozie => {HdfsClient, MapReduceClient}
    case Hive => {HiveMetastore, MysqlServer, ZookeeperServer}
    case WebHCat => {HdfsClient, MapReduceClient, ZookeeperServer, ZookeeperClient}
    case _ => {}
  }

  // ---------------------------------------------------------------------
  // Building blocks.

  lemma AppendAllFacts(cs: seq<string>, names: seq<string>)
    ensures var r := AppendAllIfAbsent(cs, names);
      && cs <= r
      && (forall x :: x in Added(cs, r) <==> x in names && x !in cs)
      && (forall x :: x in r <==> x in cs || x in names)
      && (NoDup(cs) ==> NoDup(r))
  {
    AppendAllExtends(cs, names);
    var r := AppendAllIfAbsent(cs, names);
    assert r == cs + Added(cs, r);
    if NoDup(cs) {
      AppendAllNoDup(cs, names);
    }
  }

  /** The guarded appends only extend the list, by exactly the names it
      lacked. */
  lemma {:induction false} AppendAllExtends(cs: seq<string>, names: seq<string>)
    ensures cs <= AppendAllIfAbsent(cs, names)
    ensures forall x :: x in Added(cs, AppendAllIfAbsent(cs, names)) <==> x in names && x !in cs
    decreases |names|
  {
    if |names| > 0 {
      var n := names[0];
      var cs1 := AppendIfAbsent(cs, n);
      var r := AppendAllIfAbsent(cs1, names[1..]);
      assert r == AppendAllIfAbsent(cs, names);
      AppendAllExtends(cs1, names[1..]);
      AppendOneAdded(cs, n);
      AddedConcat(cs, cs1, r);
      assert forall x :: x in names <==> x == n || x in names[1..] by {
        assert names == [n] + names[1..];
      }
      forall x ensures x in Added(cs, r) <==> x in names && x !in cs {
        assert x in Added(cs, r) <==> x in Added(cs, cs1) || x in Added(cs1, r);
        assert x !in cs1 <==> x !in cs && x != n;
      }
    }
  }

  lemma AppendOneAdded(cs: seq<string>, c: string)
    ensures cs <= AppendIfAbsent(cs, c)
    ensures Added(cs, AppendIfAbsent(cs, c)) == if c in cs then [] else [c]
    ensures forall x :: x in AppendIfAbsent(cs, c) <==> x in cs || x == c
  {
  }

  lemma AddedConcat(a: seq<string>, b: seq<string>, c: seq<string>)
    requires a <= b && b <= c
    ensures a <= c
    ensures Added(a, c) == Added(a, b) + Added(b, c)
  {
    assert c[..|a|] == c[..|b|][..|a|];
  }

  /** The guarded appends never introduce a duplicate. */
  lemma {:induction false} AppendAllNoDup(cs: seq<string>, names: seq<string>)
    requires NoDup(cs)
    ensures NoDup(AppendAllIfAbsent(cs, names))
    decreases |names|
  {
    if |names| > 0 {
      var cs1 := AppendIfAbsent(cs, names[0]);
      if names[0] !in cs {
        forall i, j | 0 <= i < j < |cs1| ensures cs1[i] != cs1[j] {
          if j == |cs| { assert cs1[i] == cs[i]; }
        }
      }
      AppendAllNoDup(cs1, names[1..]);
    }
  }

  /** Guarded appends of names already present change nothing. */
  lemma {:induction false} AppendAllPresent(cs: seq<string>, names: seq<string>)
    requires forall n :: n in names ==> n in cs
    ensures AppendAllIfAbsent(cs, names) == cs
    decreases |names|
  {
    if |names| > 0 {
      assert names[0] in names;
      AppendAllPresent(cs, names[1..]);
    }
  }

  lemma GrowsByRefl(groups: seq<NodeGroup>, names: set<string>)
    ensures GrowsBy(groups, groups, names)
  {
    forall i | 0 <= i < |groups| ensures Added(groups[i].components, groups[i].components) == [] { }
  }

  lemma GrowsByTrans(a: seq<NodeGroup>, b: seq<NodeGroup>, c: seq<NodeGroup>, n1: set<string>, n2: set<string>)
    requires GrowsBy(a, b, n1) && GrowsBy(b, c, n2)
    ensures GrowsBy(a, c, n1 + n2)
  {
    forall i | 0 <= i < |a|
      ensures a[i].components <= c[i].components
      ensures forall x :: x in Added(a[i].components, c[i].components) ==> x in n1 + n2
    {
      var xa, xb, xc := a[i].components, b[i].components, c[i].components;
      assert xc[..|xa|] == xc[..|xb|][..|xa|];
      assert Added(xa, xc) == Added(xa, xb) + Added(xb, xc);
    }
  }

  lemma GrowsPointwise(before: seq<NodeGroup>, after: seq<NodeGroup>, i: nat, names: set<string>)
    requires GrowsBy(before, after, names) && i < |before|
    ensures forall x :: x in before[i].components ==> x in after[i].components
    ensures forall x :: x in after[i].components && x !in names ==> x in before[i].components
    ensures after[i].count == before[i].count
  {
    var xs, ys := before[i].components, after[i].components;
    assert ys == xs + Added(xs, ys);
  }

  /** Growth that adds none of `c` leaves everything about `c` as it was. */
  lemma GrowsFrame(before: seq<NodeGroup>, after: seq<NodeGroup>, names: set<string>, c: string)
    requires GrowsBy(before, after, names) && c !in names
    ensures SameFor(before, after, c)
    ensures GroupsContaining(before, c) == GroupsContaining(after, c)
    ensures DeployedCount(before, c) == DeployedCount(after, c)
  {
    forall i | 0 <= i < |before|
      ensures before[i].count == after[i].count && (c in before[i].components <==> c in after[i].components)
    {
      GrowsPointwise(before, after, i, names);
    }
    GroupsContainingFrame(before, after, c);
    DeployedCountFrame(before, after, c);
  }

  /** A running component keeps running as the table grows. */
  lemma GrowsKeepsDeployed(before: seq<NodeGroup>, after: seq<NodeGroup>, names: set<string>, c: string)
    requires GrowsBy(before, after, names) && DeployedCount(before, c) > 0
    ensures DeployedCount(after, c) > 0
  {
    DeployedCountPositive(before, c);
    var i :| 0 <= i < |before| && c in before[i].components && before[i].count > 0;
    GrowsPointwise(before, after, i, names);
    DeployedCountPositive(after, c);
  }

  lemma WithAllGrows(groups: seq<NodeGroup>, i: nat, names: seq<string>)
    requires i < |groups|
    ensures GrowsBy(groups, groups[i := WithAll(groups[i], names)], set x | x in names)
  {
    AppendAllFacts(groups[i].components, names);
    var r := groups[i := WithAll(groups[i], names)];
    forall j | 0 <= j < |groups| && j != i ensures Added(groups[j].components, r[j].components) == [] { }
  }

  lemma AppendToGrows(groups: seq<NodeGroup>, i: nat, c: string)
    requires i < |groups|
    ensures GrowsBy(groups, AppendTo(groups, i, c), {c})
  {
    var r := AppendTo(groups, i, c);
    assert Added(groups[i].components, r[i].components) == [c];
    forall j | 0 <= j < |groups| && j != i ensures Added(groups[j].components, r[j].components) == [] { }
  }

  lemma AugmentWhereGrows(groups: seq<NodeGroup>, member: string, names: seq<string>)
    ensures GrowsBy(groups, AugmentWhere(groups, member, names), set x | x in names)
  {
    var r := AugmentWhere(groups, member, names);
    forall i | 0 <= i < |groups|
      ensures groups[i].components <= r[i].components
      ensures forall x :: x in Added(groups[i].components, r[i].components) ==> x in names
    {
      AppendAllFacts(groups[i].components, names);
    }
  }

  lemma ServerClientsGrows(groups: seq<NodeGroup>, server: string)
    requires GroupsContaining(groups, server) != []
    ensures GrowsBy(groups, ServerClients(groups, server), {HdfsClient, MapReduceClient})
  {
    WithAllGrows(groups, FirstGroup(groups, server), [HdfsClient, MapReduceClient]);
    assert (set x | x in [HdfsClient, MapReduceClient]) == {HdfsClient, MapReduceClient};
  }

  lemma AppendWhenUndeployedGrows(groups: seq<NodeGroup>, i: nat, c: string)
    requires i < |groups|
    ensures GrowsBy(groups, AppendWhenUndeployed(groups, i, c), {c})
  {
    if DeployedCount(groups, c) == 0 {
      AppendToGrows(groups, i, c);
    } else {
      GrowsByRefl(groups, {c});
    }
  }

  lemma HiveBeforeZookeeperGrows(groups: seq<NodeGroup>)
    requires GroupsContaining(groups, HiveServer) != []
    ensures GrowsBy(groups, HiveBeforeZookeeper(groups), {HiveMetastore, MysqlServer})
  {
    var h := FirstGroup(groups, HiveServer);
    var g1 := AppendWhenUndeployed(groups, h, HiveMetastore);
    AppendWhenUndeployedGrows(groups, h, HiveMetastore);
    AppendWhenUndeployedGrows(g1, h, MysqlServer);
    GrowsByTrans(groups, g1, HiveBeforeZookeeper(groups), {HiveMetastore}, {MysqlServer});
  }

  // ---------------------------------------------------------------------
  // Properties.

  /** Every variant only appends its own dependency components: no group
      loses a component, no component moves, and the names, storage paths,
      counts and hosts are untouched. */
  lemma AugmentedGrows(k: Kind, groups: seq<NodeGroup>)
    requires AugmentReady(k, groups)
    ensures GrowsBy(groups, Augmented(k, groups), AddedNames(k))
  {
    match k
    case Ganglia => GangliaGrows(groups);
    case Sqoop => SqoopGrows(groups);
    case Oozie => OozieAsWrittenGrows(groups);
    case Hive => HiveGrows(groups);
    case WebHCat => WebHCatGrows(groups);
    case _ => GrowsByRefl(groups, {});
  }

  lemma GangliaGrows(groups: seq<NodeGroup>)
    ensures GrowsBy(groups, GangliaAugmented(groups), {GangliaMonitor})
  {
    var r := GangliaAugmented(groups);
    forall i | 0 <= i < |groups|
      ensures groups[i].components <= r[i].components
      ensures forall x :: x in Added(groups[i].components, r[i].components) ==> x in {GangliaMonitor}
    {
      AppendAllFacts(groups[i].components, [GangliaMonitor]);
    }
  }

  lemma SqoopGrows(groups: seq<NodeGroup>)
    ensures GrowsBy(groups, SqoopAugmented(groups), {HdfsClient, MapReduceClient})
  {
    AugmentWhereGrows(groups, SqoopComponent, [HdfsClient, MapReduceClient]);
    assert (set x | x in [HdfsClient, MapReduceClient]) == {HdfsClient, MapReduceClient};
  }

  lemma OozieGrows(groups: seq<NodeGroup>)
    requires GroupsContaining(groups, OozieServer) != []
    ensures GrowsBy(groups, OozieAugmented(groups), {HdfsClient, MapReduceClient})
  {
    var g1 := ServerClients(groups, OozieServer);
    ServerClientsGrows(groups, OozieServer);
    AugmentWhereGrows(g1, OozieClient, [HdfsClient, MapReduceClient]);
    assert (set x | x in [HdfsClient, MapReduceClient]) == {HdfsClient, MapReduceClient};
    GrowsByTrans(groups, g1, OozieAugmented(groups), {HdfsClient, MapReduceClient}, {HdfsClient, MapReduceClient});
  }

  lemma OozieAsWrittenGrows(groups: seq<NodeGroup>)
    requires GroupsContaining(groups, OozieServer) != []
    ensures GrowsBy(groups, OozieAugmentedAsWritten(groups), {HdfsClient, MapReduceClient})
  {
    var g1 := ServerClients(groups, OozieServer);
    var g2 := AugmentWhere(g1, OozieClient, [HdfsClient]);
    ServerClientsGrows(groups, OozieServer);
    AugmentWhereGrows(g1, OozieClient, [HdfsClient]);
    assert (set x | x in [HdfsClient]) == {HdfsClient};
    WithAllGrows(g2, OozieLastGroup(groups), [MapReduceClient]);
    assert (set x | x in [MapReduceClient]) == {MapReduceClient};
    GrowsByTrans(groups, g1, g2, {HdfsClient, MapReduceClient}, {HdfsClient});
    assert {HdfsClient, MapReduceClient} + {HdfsClient} == {HdfsClient, MapReduceClient};
    GrowsByTrans(groups, g2, OozieAugmentedAsWritten(groups), {HdfsClient, MapReduceClient}, {MapReduceClient});
    assert {HdfsClient, MapReduceClient} + {MapReduceClient} == {HdfsClient, MapReduceClient};
  }

  lemma HiveGrows(groups: seq<NodeGroup>)
    requires GroupsContaining(groups, HiveServer) != []
    ensures GrowsBy(groups, HiveAugmented(groups), {HiveMetastore, MysqlServer, ZookeeperServer})
  {
    var g2 := HiveBeforeZookeeper(groups);
    HiveBeforeZookeeperGrows(groups);
    AppendWhenUndeployedGrows(g2, FirstGroup(groups, HiveServer), ZookeeperServer);
    GrowsByTrans(groups, g2, HiveAugmented(groups), {HiveMetastore, MysqlServer}, {ZookeeperServer});
  }

  lemma WebHCatGrows(groups: seq<NodeGroup>)
    requires GroupsContaining(groups, WebHCatServer) != []
    ensures GrowsBy(groups, WebHCatAugmented(groups), {HdfsClient, MapReduceClient, ZookeeperServer, ZookeeperClient})
  {
    var w := FirstGroup(groups, WebHCatServer);
    var cs := groups[w].components;
    var runs := DeployedCount(groups, ZookeeperServer) > 0;
    WebHCatComponentsFacts(cs, runs);
    UpdateOneGrows(groups, w, groups[w].(components := WebHCatComponents(cs, runs)),
      {HdfsClient, MapReduceClient, ZookeeperServer, ZookeeperClient});
  }

  /** Every node group runs the Ganglia monitor afterwards. */
  lemma GangliaMonitorsEverywhere(groups: seq<NodeGroup>, i: nat)
    requires i < |groups|
    ensures GangliaMonitor in GangliaAugmented(groups)[i].components
  {
    AppendAllFacts(groups[i].components, [GangliaMonitor]);
  }

  /** Exactly the Sqoop groups change, and each then runs both clients. */
  lemma SqoopClientsColocated(groups: seq<NodeGroup>, i: nat)
    requires i < |groups|
    ensures SqoopComponent in groups[i].components ==>
      HdfsClient in SqoopAugmented(groups)[i].components && MapReduceClient in SqoopAugmented(groups)[i].components
    ensures SqoopComponent !in groups[i].components ==> SqoopAugmented(groups)[i] == groups[i]
  {
    AppendAllFacts(groups[i].components, [HdfsClient, MapReduceClient]);
  }

  /** The first Oozie server group and every Oozie client group run both
      clients afterwards; every other group is left as it was. */
  lemma OozieClientsColocated(groups: seq<NodeGroup>, i: nat)
    requires GroupsContaining(groups, OozieServer) != [] && i < |groups|
    ensures var r := OozieAugmented(groups);
      (i == FirstGroup(groups, OozieServer) || OozieClient in groups[i].components) ==>
        HdfsClient in r[i].components && MapReduceClient in r[i].components
    ensures var r := OozieAugmented(groups);
      i != FirstGroup(groups, OozieServer) && OozieClient !in groups[i].components ==> r[i] == groups[i]
  {
    var s := FirstGroup(groups, OozieServer);
    var g1 := ServerClients(groups, OozieServer);
    var both := [HdfsClient, MapReduceClient];
    var r := OozieAugmented(groups);
    assert r == AugmentWhere(g1, OozieClient, both);
    assert r[i] == if OozieClient in g1[i].components then WithAll(g1[i], both) else g1[i];
    if i == s {
      AppendAllFacts(groups[i].components, both);
      assert g1[i] == WithAll(groups[i], both);
      if OozieClient in g1[i].components {
        AppendAllFacts(g1[i].components, both);
      }
    } else {
      assert g1[i] == groups[i];
      if OozieClient in g1[i].components {
        AppendAllFacts(g1[i].components, both);
      }
    }
  }

  /** Three groups: an Oozie server group followed by two client groups. */
  function OozieExample(): seq<NodeGroup>
  {
    [NodeGroup("server", [OozieServer], [], 1, []),
     NodeGroup("client1", [OozieClient], [], 1, []),
     NodeGroup("client2", [OozieClient], [], 1, [])]
  }

  /** The source's own Oozie step on two client groups after the server
      group leaves the first client group without the MapReduce client,
      which the intended step adds. */
  lemma OozieAsWrittenMissesClient()
    ensures GroupsContaining(OozieExample(), OozieServer) != []
    ensures MapReduceClient !in OozieAugmentedAsWritten(OozieExample())[1].components
    ensures MapReduceClient in OozieAugmented(OozieExample())[1].components
  {
    var groups := OozieExample();
    FirstContaining(groups, OozieServer, 0);
    assert FirstGroup(groups, OozieServer) == 0;
    var g1 := ServerClients(groups, OozieServer);
    assert g1[1] == groups[1] && g1[2] == groups[2];
    var clients := GroupsContaining(groups, OozieClient);
    assert OozieClient in groups[2].components;
    assert clients == GroupsContaining(groups[..2], OozieClient) + [2];
    var g2 := AugmentWhere(g1, OozieClient, [HdfsClient]);
    assert AppendIfAbsent([OozieClient], HdfsClient) == [OozieClient, HdfsClient];
    assert [HdfsClient][1..] == [];
    assert AppendAllIfAbsent([OozieClient], [HdfsClient]) == [OozieClient, HdfsClient];
    assert g1[1].components == [OozieClient];
    assert g2[1] == WithAll(g1[1], [HdfsClient]);
    assert g2[1].components == [OozieClient, HdfsClient];
    assert OozieAugmentedAsWritten(groups)[1] == g2[1];
    OozieClientsColocated(groups, 1);
  }

  /** The source's own Oozie step: the server group gets both clients and
      every client group the HDFS client, while the MapReduce client reaches
      `OozieLastGroup` and no group besides it and the server group; every
      other group is unchanged. */
  lemma OozieAsWrittenFacts(groups: seq<NodeGroup>, i: nat)
    requires GroupsContaining(groups, OozieServer) != [] && i < |groups|
    ensures var r := OozieAugmentedAsWritten(groups);
      i == FirstGroup(groups, OozieServer) ==>
        HdfsClient in r[i].components && MapReduceClient in r[i].components
    ensures OozieClient in groups[i].components ==> HdfsClient in OozieAugmentedAsWritten(groups)[i].components
    ensures i == OozieLastGroup(groups) ==> MapReduceClient in OozieAugmentedAsWritten(groups)[i].components
    ensures i != FirstGroup(groups, OozieServer) && i != OozieLastGroup(groups) ==>
      (MapReduceClient in OozieAugmentedAsWritten(groups)[i].components <==> MapReduceClient in groups[i].components)
    ensures i != FirstGroup(groups, OozieServer) && OozieClient !in groups[i].components ==>
      OozieAugmentedAsWritten(groups)[i] == groups[i]
  {
    var g2 := AugmentWhere(ServerClients(groups, OozieServer), OozieClient, [HdfsClient]);
    OozieAfterLoop(groups, i);
    WithAllOne(g2[i], MapReduceClient);
    assert OozieAugmentedAsWritten(groups)[i] == if i == OozieLastGroup(groups) then WithAll(g2[i], [MapReduceClient]) else g2[i];
  }

  /** The Oozie table after the client loop, before the MapReduce client
      append that follows it. */
  lemma OozieAfterLoop(groups: seq<NodeGroup>, i: nat)
    requires GroupsContaining(groups, OozieServer) != [] && i < |groups|
    ensures var g2 := AugmentWhere(ServerClients(groups, OozieServer), OozieClient, [HdfsClient]);
      && (i == FirstGroup(groups, OozieServer) ==>
           HdfsClient in g2[i].components && MapReduceClient in g2[i].components)
      && (OozieClient in groups[i].components ==> HdfsClient in g2[i].components)
      && (i != FirstGroup(groups, OozieServer) ==>
           (MapReduceClient in g2[i].components <==> MapReduceClient in groups[i].components))
      && (i != FirstGroup(groups, OozieServer) && OozieClient !in groups[i].components ==> g2[i] == groups[i])
  {
    if i == FirstGroup(groups, OozieServer) {
      OozieServerGroupAfterLoop(groups);
    } else {
      OozieOtherGroupAfterLoop(groups, i);
    }
  }

  lemma OozieServerGroupAfterLoop(groups: seq<NodeGroup>)
    requires GroupsContaining(groups, OozieServer) != []
    ensures var g2 := AugmentWhere(ServerClients(groups, OozieServer), OozieClient, [HdfsClient]);
      var s := FirstGroup(groups, OozieServer);
      HdfsClient in g2[s].components && MapReduceClient in g2[s].components
  {
    var s := FirstGroup(groups, OozieServer);
    var g1 := ServerClients(groups, OozieServer);
    WithAllTwo(groups[s], HdfsClient, MapReduceClient);
    WithAllOne(g1[s], HdfsClient);
  }

  lemma OozieOtherGroupAfterLoop(groups: seq<NodeGroup>, i: nat)
    requires GroupsContaining(groups, OozieServer) != [] && i < |groups|
    requires i != FirstGroup(groups, OozieServer)
    ensures var g2 := AugmentWhere(ServerClients(groups, OozieServer), OozieClient, [HdfsClient]);
      && (OozieClient in groups[i].components ==> g2[i] == WithAll(groups[i], [HdfsClient]))
      && (OozieClient !in groups[i].components ==> g2[i] == groups[i])
    ensures OozieClient in groups[i].components ==>
      var cs := WithAll(groups[i], [HdfsClient]).components;
      HdfsClient in cs && (MapReduceClient in cs <==> MapReduceClient in groups[i].components)
  {
    var g1 := ServerClients(groups, OozieServer);
    assert g1[i] == groups[i];
    HdfsKeepsMapReduce(groups[i].components);
    WithAllOne(groups[i], HdfsClient);
  }

  /** The HDFS client append neither adds nor removes the MapReduce client. */
  lemma HdfsKeepsMapReduce(cs: seq<string>)
    ensures HdfsClient in AppendIfAbsent(cs, HdfsClient)
    ensures MapReduceClient in AppendIfAbsent(cs, HdfsClient) <==> MapReduceClient in cs
  {
    assert HdfsClient[0] != MapReduceClient[0];
  }

  /** Adding the two clients to a server group leaves the membership of
      every other component as it was. */
  lemma ServerClientsKeepsMembership(groups: seq<NodeGroup>, server: string, c: string, i: nat)
    requires GroupsContaining(groups, server) != [] && i < |groups|
    requires c != HdfsClient && c != MapReduceClient
    ensures c in ServerClients(groups, server)[i].components <==> c in groups[i].components
  {
    var s := FirstGroup(groups, server);
    AppendAllFacts(groups[s].components, [HdfsClient, MapReduceClient]);
  }

  /** ... and so the groups listing any other component. */
  lemma ServerClientsKeepsGroups(groups: seq<NodeGroup>, server: string, c: string)
    requires GroupsContaining(groups, server) != []
    requires c != HdfsClient && c != MapReduceClient
    ensures GroupsContaining(ServerClients(groups, server), c) == GroupsContaining(groups, c)
  {
    var g1 := ServerClients(groups, server);
    forall i | 0 <= i < |groups| ensures c in g1[i].components <==> c in groups[i].components {
      ServerClientsKeepsMembership(groups, server, c, i);
    }
    GroupsContainingFrame(g1, groups, c);
  }

  /** `[c]` when no instance runs `c`, nothing otherwise. */
  function Missing(groups: seq<NodeGroup>, c: string): seq<string>
  {
    if DeployedCount(groups, c) == 0 then [c] else []
  }

  /** The Hive dependencies no instance runs, in the order the source checks
      them. */
  function HiveMissing(groups: seq<NodeGroup>): seq<string>
  {
    Missing(groups, HiveMetastore) + Missing(groups, MysqlServer) + Missing(groups, ZookeeperServer)
  }

  /** The missing Hive dependencies are listed once each, and a dependency
      is listed exactly when no instance runs it. */
  lemma HiveMissingMembers(groups: seq<NodeGroup>)
    ensures NoDup(HiveMissing(groups))
    ensures forall x :: x in HiveMissing(groups) <==>
      x in {HiveMetastore, MysqlServer, ZookeeperServer} && DeployedCount(groups, x) == 0
  {
    var a, b, c := Missing(groups, HiveMetastore), Missing(groups, MysqlServer), Missing(groups, ZookeeperServer);
    forall x ensures x in a + b + c <==> x in a || x in b || x in c { }
  }

  /** Hive touches only the first Hive server group, and appends to it
      exactly the dependencies (metastore, database server, Zookeeper
      server) of which no instance ran before. */
  lemma HiveDependencies(groups: seq<NodeGroup>)
    requires GroupsContaining(groups, HiveServer) != []
    ensures var h := FirstGroup(groups, HiveServer);
      HiveAugmented(groups) == groups[h := groups[h].(components := groups[h].components + HiveMissing(groups))]
  {
    ThreeGuardedAppends(groups, FirstGroup(groups, HiveServer), HiveMetastore, MysqlServer, ZookeeperServer);
  }

  lemma ThreeGuardedAppends(groups: seq<NodeGroup>, h: nat, c: string, d: string, e: string)
    requires h < |groups| && c != d && c != e && d != e
    ensures AppendWhenUndeployed(AppendWhenUndeployed(AppendWhenUndeployed(groups, h, c), h, d), h, e)
      == groups[h := groups[h].(components := groups[h].components + (Missing(groups, c) + Missing(groups, d) + Missing(groups, e)))]
  {
    var m1, m2, m3 := Missing(groups, c), Missing(groups, d), Missing(groups, e);
    var g1 := AppendWhenUndeployed(groups, h, c);
    var g2 := AppendWhenUndeployed(g1, h, d);
    AppendWhenUndeployedFrame(groups, h, c, d);
    AppendWhenUndeployedFrame(groups, h, c, e);
    AppendWhenUndeployedFrame(g1, h, d, e);
    assert Missing(g1, d) == m2 && Missing(g2, e) == m3;
    AppendWhenUndeployedShape(groups, h, c);
    AppendWhenUndeployedShape(g1, h, d);
    AppendWhenUndeployedShape(g2, h, e);
    AppendTwice(groups, h, m1, m2);
    AppendTwice(groups, h, m1 + m2, m3);
  }

  lemma AppendTwice(groups: seq<NodeGroup>, h: nat, x: seq<string>, y: seq<string>)
    requires h < |groups|
    ensures var g1 := groups[h := groups[h].(components := groups[h].components + x)];
      g1[h := g1[h].(components := g1[h].components + y)]
        == groups[h := groups[h].(components := groups[h].components + (x + y))]
  {
    assert groups[h].components + x + y == groups[h].components + (x + y);
  }

  lemma AppendWhenUndeployedShape(groups: seq<NodeGroup>, i: nat, c: string)
    requires i < |groups|
    ensures AppendWhenUndeployed(groups, i, c) ==
      groups[i := groups[i].(components := groups[i].components + Missing(groups, c))]
  {
    if DeployedCount(groups, c) != 0 {
      assert groups[i].components + [] == groups[i].components;
      assert groups[i := groups[i]] == groups;
    }
  }

  /** Appending one component leaves the count of every other as it was. */
  lemma AppendWhenUndeployedFrame(groups: seq<NodeGroup>, i: nat, c: string, d: string)
    requires i < |groups| && c != d
    ensures DeployedCount(AppendWhenUndeployed(groups, i, c), d) == DeployedCount(groups, d)
  {
    var r := AppendWhenUndeployed(groups, i, c);
    assert SameFor(groups, r, d) by {
      forall j | 0 <= j < |groups| ensures d in r[j].components <==> d in groups[j].components {
        if j == i && r != groups {
          assert r[j].components == groups[j].components + [c];
        }
      }
    }
    DeployedCountFrame(groups, r, d);
  }

  /** Once the Hive server group has instances, afterwards the metastore,
      the database server and the Zookeeper server all run. */
  lemma HiveDependenciesRun(groups: seq<NodeGroup>)
    requires GroupsContaining(groups, HiveServer) != []
    requires groups[FirstGroup(groups, HiveServer)].count > 0
    ensures DeployedCount(HiveAugmented(groups), HiveMetastore) > 0
    ensures DeployedCount(HiveAugmented(groups), MysqlServer) > 0
    ensures DeployedCount(HiveAugmented(groups), ZookeeperServer) > 0
  {
    var h := FirstGroup(groups, HiveServer);
    var r := HiveAugmented(groups);
    HiveDependencies(groups);
    AugmentedGrows(Hive, groups);
    forall x | x in {HiveMetastore, MysqlServer, ZookeeperServer}
      ensures DeployedCount(r, x) > 0
    {
      if DeployedCount(groups, x) == 0 {
        assert r[h].components == groups[h].components + HiveMissing(groups);
        HiveMissingMembers(groups);
        assert x in HiveMissing(groups);
        assert x in r[h].components;
        DeployedCountPositive(r, x);
      } else {
        GrowsKeepsDeployed(groups, r, AddedNames(Hive), x);
      }
    }
  }

  /** Changing one group by growth is growth of the table. */
  lemma UpdateOneGrows(groups: seq<NodeGroup>, i: nat, g: NodeGroup, names: set<string>)
    requires i < |groups| && GroupGrows(groups[i], g, names)
    ensures GrowsBy(groups, groups[i := g], names)
  {
    forall j | 0 <= j < |groups| && j != i ensures GroupGrows(groups[j], groups[j], names) {
      assert Added(groups[j].components, groups[j].components) == [];
    }
  }

  /** The WebHCat server group afterwards runs both clients and the
      Zookeeper client; only these and the Zookeeper server are added, the
      Zookeeper server exactly when the client was missing and none ran. */
  lemma WebHCatComponentsFacts(cs: seq<string>, zookeeperRuns: bool)
    ensures var r := WebHCatComponents(cs, zookeeperRuns);
      && cs <= r
      && HdfsClient in r && MapReduceClient in r && ZookeeperClient in r
      && (forall x :: x in Added(cs, r) ==> x in {HdfsClient, MapReduceClient, ZookeeperServer, ZookeeperClient})
      && (ZookeeperServer in Added(cs, r) <==> ZookeeperClient !in cs && !zookeeperRuns)
  {
    var both := [HdfsClient, MapReduceClient];
    var c1 := AppendAllIfAbsent(cs, both);
    var r := WebHCatComponents(cs, zookeeperRuns);
    AppendAllFacts(cs, both);
    if ZookeeperClient !in c1 {
      var zs: seq<string> := if zookeeperRuns then [] else [ZookeeperServer];
      assert r == c1 + zs + [ZookeeperClient];
      assert Added(cs, r) == Added(cs, c1) + zs + [ZookeeperClient];
    }
  }

  /** Every group lists each component at most once. */
  predicate AllNoDup(groups: seq<NodeGroup>)
  {
    forall i :: 0 <= i < |groups| ==> NoDup(groups[i].components)
  }

  lemma AugmentWhereNoDup(groups: seq<NodeGroup>, member: string, names: seq<string>)
    requires AllNoDup(groups)
    ensures AllNoDup(AugmentWhere(groups, member, names))
  {
    var r := AugmentWhere(groups, member, names);
    forall i | 0 <= i < |r| ensures NoDup(r[i].components) {
      if member in groups[i].components {
        AppendAllNoDup(groups[i].components, names);
      }
    }
  }

  lemma ServerClientsNoDup(groups: seq<NodeGroup>, server: string)
    requires GroupsContaining(groups, server) != [] && AllNoDup(groups)
    ensures AllNoDup(ServerClients(groups, server))
  {
    var s := FirstGroup(groups, server);
    AppendAllNoDup(groups[s].components, [HdfsClient, MapReduceClient]);
  }

  /** The guarded appends of Ganglia, Sqoop and Oozie create no duplicate
      component in any group. */
  lemma GuardedAppendsNoDup(k: Kind, groups: seq<NodeGroup>)
    requires k == Ganglia || k == Sqoop || k == Oozie
    requires AugmentReady(k, groups) && AllNoDup(groups)
    ensures AllNoDup(Augmented(k, groups))
  {
    match k
    case Ganglia =>
      var r := GangliaAugmented(groups);
      forall i | 0 <= i < |r| ensures NoDup(r[i].components) {
        AppendAllNoDup(groups[i].components, [GangliaMonitor]);
      }
    case Sqoop =>
      AugmentWhereNoDup(groups, SqoopComponent, [HdfsClient, MapReduceClient]);
    case Oozie => OozieAsWrittenNoDup(groups);
  }

  /** The source's own Oozie step creates no duplicate component. */
  lemma OozieAsWrittenNoDup(groups: seq<NodeGroup>)
    requires GroupsContaining(groups, OozieServer) != [] && AllNoDup(groups)
    ensures AllNoDup(OozieAugmentedAsWritten(groups))
  {
    var g1 := ServerClients(groups, OozieServer);
    var g2 := AugmentWhere(g1, OozieClient, [HdfsClient]);
    ServerClientsNoDup(groups, OozieServer);
    AugmentWhereNoDup(g1, OozieClient, [HdfsClient]);
    AppendAllNoDup(g2[OozieLastGroup(groups)].components, [MapReduceClient]);
  }

  /** Nor does the intended one. */
  lemma OozieNoDup(groups: seq<NodeGroup>)
    requires GroupsContaining(groups, OozieServer) != [] && AllNoDup(groups)
    ensures AllNoDup(OozieAugmented(groups))
  {
    ServerClientsNoDup(groups, OozieServer);
    AugmentWhereNoDup(ServerClients(groups, OozieServer), OozieClient, [HdfsClient, MapReduceClient]);
  }

  /** A list without duplicates keeps none, provided the Zookeeper server is
      not already on it unseen by the count. */
  lemma WebHCatComponentsNoDup(cs: seq<string>, zookeeperRuns: bool)
    requires NoDup(cs) && (zookeeperRuns || ZookeeperServer !in cs)
    ensures NoDup(WebHCatComponents(cs, zookeeperRuns))
  {
    var both := [HdfsClient, MapReduceClient];
    var c1 := AppendAllIfAbsent(cs, both);
    var r := WebHCatComponents(cs, zookeeperRuns);
    AppendAllFacts(cs, both);
    if ZookeeperClient !in c1 {
      var zs: seq<string> := if zookeeperRuns then [] else [ZookeeperServer];
      assert r == c1 + zs + [ZookeeperClient];
      forall i, j | 0 <= i < j < |r| ensures r[i] != r[j] {
        if j >= |c1| {
          assert r[j] in zs + [ZookeeperClient];
          if i < |c1| { assert r[i] in c1; }
        }
      }
    }
  }

  /** A second pass over the WebHCat group changes nothing, whatever the
      Zookeeper count then is. */
  lemma WebHCatComponentsIdempotent(cs: seq<string>, zookeeperRuns: bool, again: bool)
    ensures WebHCatComponents(WebHCatComponents(cs, zookeeperRuns), again) == WebHCatComponents(cs, zookeeperRuns)
  {
    var r := WebHCatComponents(cs, zookeeperRuns);
    WebHCatComponentsFacts(cs, zookeeperRuns);
    AppendAllPresent(r, [HdfsClient, MapReduceClient]);
  }

  /** On the table: the first WebHCat server group runs both clients and the
      Zookeeper client, and the Zookeeper server is added to it exactly when
      the deployed flag of the Zookeeper service is set. */
  lemma WebHCatDependencies(groups: seq<NodeGroup>)
    requires GroupsContaining(groups, WebHCatServer) != []
    ensures var w, r := FirstGroup(groups, WebHCatServer), WebHCatAugmented(groups);
      HdfsClient in r[w].components && MapReduceClient in r[w].components && ZookeeperClient in r[w].components
    ensures var w, r := FirstGroup(groups, WebHCatServer), WebHCatAugmented(groups);
      groups[w].components <= r[w].components &&
      (ZookeeperServer in Added(groups[w].components, r[w].components) <==> ActivatesZookeeper(WebHCat, groups))
  {
    var w := FirstGroup(groups, WebHCatServer);
    WebHCatComponentsFacts(groups[w].components, DeployedCount(groups, ZookeeperServer) > 0);
  }

  /** WebHCat decides on the Zookeeper client after adding the two clients;
      this gives the same answer as asking before. */
  lemma WebHCatNeedsZookeeperAfterClients(groups: seq<NodeGroup>)
    requires GroupsContaining(groups, WebHCatServer) != []
    ensures var w, g1 := FirstGroup(groups, WebHCatServer), WebHCatBeforeZookeeper(groups);
      WebHCatNeedsZookeeper(groups) <==>
        ZookeeperClient !in g1[w].components && DeployedCount(g1, ZookeeperServer) == 0
  {
    var w := FirstGroup(groups, WebHCatServer);
    ServerClientsGrows(groups, WebHCatServer);
    GrowsFrame(groups, WebHCatBeforeZookeeper(groups), {HdfsClient, MapReduceClient}, ZookeeperServer);
    AppendAllFacts(groups[w].components, [HdfsClient, MapReduceClient]);
  }

  /** WebHCat as the source performs it: the two client appends first,
      then, on that table, nothing, the Zookeeper client, or the Zookeeper
      server and client. */
  lemma WebHCatAugmentedAfterClients(groups: seq<NodeGroup>)
    requires GroupsContaining(groups, WebHCatServer) != []
    ensures var w, g1 := FirstGroup(groups, WebHCatServer), ServerClients(groups, WebHCatServer);
      ZookeeperClient in g1[w].components ==> WebHCatAugmented(groups) == g1
    ensures var w, g1 := FirstGroup(groups, WebHCatServer), ServerClients(groups, WebHCatServer);
      ZookeeperClient !in g1[w].components && DeployedCount(g1, ZookeeperServer) > 0 ==>
        WebHCatAugmented(groups) == AppendTo(g1, w, ZookeeperClient)
    ensures var w, g1 := FirstGroup(groups, WebHCatServer), ServerClients(groups, WebHCatServer);
      ZookeeperClient !in g1[w].components && DeployedCount(g1, ZookeeperServer) == 0 ==>
        WebHCatAugmented(groups) == AppendTo(AppendTo(g1, w, ZookeeperServer), w, ZookeeperClient)
  {
    var w, g1 := FirstGroup(groups, WebHCatServer), ServerClients(groups, WebHCatServer);
    ServerClientsKeepsCount(groups, WebHCatServer, ZookeeperServer);
    var cs := g1[w].components;
    var runs := DeployedCount(groups, ZookeeperServer) > 0;
    assert g1[w] == groups[w].(components := cs);
    if ZookeeperClient in cs {
      assert WebHCatComponents(groups[w].components, runs) == cs;
    } else if runs {
      assert WebHCatComponents(groups[w].components, runs) == cs + [ZookeeperClient];
    } else {
      assert WebHCatComponents(groups[w].components, runs) == cs + [ZookeeperServer] + [ZookeeperClient];
      assert AppendTo(g1, w, ZookeeperServer)[w].components == cs + [ZookeeperServer];
    }
  }

  /** The client appends leave the count of any other component as it was. */
  lemma ServerClientsKeepsCount(groups: seq<NodeGroup>, server: string, c: string)
    requires GroupsContaining(groups, server) != []
    requires c != HdfsClient && c != MapReduceClient
    ensures DeployedCount(ServerClients(groups, server), c) == DeployedCount(groups, c)
  {
    ServerClientsGrows(groups, server);
    GrowsFrame(groups, ServerClients(groups, server), {HdfsClient, MapReduceClient}, c);
  }


  /** The deployed flag of the Zookeeper service is set by Hive exactly when
      no Zookeeper server ran. */
  lemma HiveActivatesZookeeperIff(groups: seq<NodeGroup>)
    requires GroupsContaining(groups, HiveServer) != []
    ensures ActivatesZookeeper(Hive, groups) <==> DeployedCount(groups, ZookeeperServer) == 0
  {
    HiveBeforeZookeeperGrows(groups);
    GrowsFrame(groups, HiveBeforeZookeeper(groups), {HiveMetastore, MysqlServer}, ZookeeperServer);
  }

  /** The guarded appends on groups listing `member` change nothing once
      every such group has all the names. */
  lemma AugmentWhereNoop(groups: seq<NodeGroup>, member: string, names: seq<string>)
    requires forall i, n :: 0 <= i < |groups| && member in groups[i].components && n in names ==> n in groups[i].components
    ensures AugmentWhere(groups, member, names) == groups
  {
    forall i | 0 <= i < |groups| && member in groups[i].components
      ensures WithAll(groups[i], names) == groups[i]
    {
      AppendAllPresent(groups[i].components, names);
    }
  }

  lemma GangliaIdempotent(groups: seq<NodeGroup>)
    ensures GangliaAugmented(GangliaAugmented(groups)) == GangliaAugmented(groups)
  {
    var r := GangliaAugmented(groups);
    forall i | 0 <= i < |groups| ensures WithAll(r[i], [GangliaMonitor]) == r[i] {
      AppendAllFacts(groups[i].components, [GangliaMonitor]);
      AppendAllPresent(r[i].components, [GangliaMonitor]);
    }
  }

  lemma SqoopIdempotent(groups: seq<NodeGroup>)
    ensures SqoopAugmented(SqoopAugmented(groups)) == SqoopAugmented(groups)
  {
    var r := SqoopAugmented(groups);
    forall i, n | 0 <= i < |r| && SqoopComponent in r[i].components && n in [HdfsClient, MapReduceClient]
      ensures n in r[i].components
    {
      AppendAllFacts(groups[i].components, [HdfsClient, MapReduceClient]);
      SqoopClientsColocated(groups, i);
    }
    AugmentWhereNoop(r, SqoopComponent, [HdfsClient, MapReduceClient]);
  }

  /** Oozie adds only the two clients, so whether a group lists any other
      component stays as it was. */
  lemma OozieKeepsMembership(groups: seq<NodeGroup>, c: string)
    requires GroupsContaining(groups, OozieServer) != []
    requires c != HdfsClient && c != MapReduceClient
    ensures forall i :: 0 <= i < |groups| ==>
      (c in OozieAugmented(groups)[i].components <==> c in groups[i].components)
    ensures GroupsContaining(OozieAugmented(groups), c) == GroupsContaining(groups, c)
  {
    var both := [HdfsClient, MapReduceClient];
    var g1 := ServerClients(groups, OozieServer);
    var r := OozieAugmented(groups);
    forall i | 0 <= i < |groups| ensures c in r[i].components <==> c in groups[i].components {
      ServerClientsKeepsMembership(groups, OozieServer, c, i);
      AppendAllFacts(g1[i].components, both);
    }
    GroupsContainingFrame(r, groups, c);
  }

  lemma OozieIdempotent(groups: seq<NodeGroup>)
    requires GroupsContaining(groups, OozieServer) != []
    ensures GroupsContaining(OozieAugmented(groups), OozieServer) != []
    ensures OozieAugmented(OozieAugmented(groups)) == OozieAugmented(groups)
  {
    var r := OozieAugmented(groups);
    var both := [HdfsClient, MapReduceClient];
    OozieKeepsMembership(groups, OozieServer);
    OozieKeepsMembership(groups, OozieClient);
    var s := FirstGroup(groups, OozieServer);
    OozieClientsColocated(groups, s);
    AppendAllPresent(r[s].components, both);
    assert ServerClients(r, OozieServer) == r;
    forall i, n | 0 <= i < |r| && OozieClient in r[i].components && n in both
      ensures n in r[i].components
    {
      OozieClientsColocated(groups, i);
    }
    AugmentWhereNoop(r, OozieClient, both);
  }

  /** The source's own Oozie step also adds only the two clients. */
  lemma OozieAsWrittenKeepsMembership(groups: seq<NodeGroup>, c: string)
    requires GroupsContaining(groups, OozieServer) != []
    requires c != HdfsClient && c != MapReduceClient
    ensures forall i :: 0 <= i < |groups| ==>
      (c in OozieAugmentedAsWritten(groups)[i].components <==> c in groups[i].components)
    ensures GroupsContaining(OozieAugmentedAsWritten(groups), c) == GroupsContaining(groups, c)
  {
    OozieAsWrittenGrows(groups);
    GrowsFrame(groups, OozieAugmentedAsWritten(groups), {HdfsClient, MapReduceClient}, c);
  }

  /** A second run of the source's own Oozie step changes nothing: the server
      and client groups are where they were, the server group and the client
      groups already have what the step appends, and so has the group the
      MapReduce client append reaches. */
  lemma OozieAsWrittenIdempotent(groups: seq<NodeGroup>)
    requires GroupsContaining(groups, OozieServer) != []
    ensures GroupsContaining(OozieAugmentedAsWritten(groups), OozieServer) != []
    ensures OozieAugmentedAsWritten(OozieAugmentedAsWritten(groups)) == OozieAugmentedAsWritten(groups)
  {
    var r := OozieAugmentedAsWritten(groups);
    var s := FirstGroup(groups, OozieServer);
    var last := OozieLastGroup(groups);
    OozieAsWrittenKeepsMembership(groups, OozieServer);
    OozieAsWrittenKeepsMembership(groups, OozieClient);
    assert OozieLastGroup(r) == last;
    OozieAsWrittenFacts(groups, s);
    AppendAllPresent(r[s].components, [HdfsClient, MapReduceClient]);
    assert ServerClients(r, OozieServer) == r;
    forall i, n | 0 <= i < |r| && OozieClient in r[i].components && n in [HdfsClient]
      ensures n in r[i].components
    {
      OozieAsWrittenFacts(groups, i);
    }
    AugmentWhereNoop(r, OozieClient, [HdfsClient]);
    OozieAsWrittenFacts(groups, last);
    AppendAllPresent(r[last].components, [MapReduceClient]);
  }

  /** A second Hive step changes nothing once the first Hive server group
      has instances, so that the components it received are counted. */
  lemma HiveIdempotent(groups: seq<NodeGroup>)
    requires GroupsContaining(groups, HiveServer) != []
    requires groups[FirstGroup(groups, HiveServer)].count > 0
    ensures GroupsContaining(HiveAugmented(groups), HiveServer) != []
    ensures HiveAugmented(HiveAugmented(groups)) == HiveAugmented(groups)
    ensures !ActivatesZookeeper(Hive, HiveAugmented(groups))
  {
    var r := HiveAugmented(groups);
    AugmentedGrows(Hive, groups);
    GrowsFrame(groups, r, AddedNames(Hive), HiveServer);
    HiveDependenciesRun(groups);
    var h := FirstGroup(groups, HiveServer);
    assert HiveMissing(r) == [];
    HiveDependencies(r);
    assert r[h].components + [] == r[h].components;
    assert r[h := r[h]] == r;
    HiveActivatesZookeeperIff(r);
  }

  /** When the first Hive server group has no instances and no instance
      runs the metastore, the metastore the Hive step appends is still not
      counted as deployed, so a second step appends it again. */
  lemma HiveRepeatsOnEmptyServerGroup(groups: seq<NodeGroup>)
    requires GroupsContaining(groups, HiveServer) != []
    requires groups[FirstGroup(groups, HiveServer)].count == 0
    requires DeployedCount(groups, HiveMetastore) == 0
    ensures GroupsContaining(HiveAugmented(groups), HiveServer) != []
    ensures HiveAugmented(HiveAugmented(groups)) != HiveAugmented(groups)
  {
    var r := HiveAugmented(groups);
    var h := FirstGroup(groups, HiveServer);
    AugmentedGrows(Hive, groups);
    GrowsFrame(groups, r, AddedNames(Hive), HiveServer);
    HiveDependencies(groups);
    DeployedCountPositive(groups, HiveMetastore);
    DeployedCountPositive(r, HiveMetastore);
    forall i | 0 <= i < |r| && HiveMetastore in r[i].components
      ensures r[i].count == 0
    {
      GrowsPointwise(groups, r, i, AddedNames(Hive));
      if i != h {
        assert r[i] == groups[i];
      }
    }
    assert HiveMetastore in HiveMissing(r);
    HiveDependencies(r);
    assert |HiveAugmented(r)[h].components| > |r[h].components|;
  }

  /** The WebHCat step leaves the set of WebHCat server groups as it is. */
  lemma WebHCatKeepsServerGroups(groups: seq<NodeGroup>)
    requires GroupsContaining(groups, WebHCatServer) != []
    ensures GroupsContaining(WebHCatAugmented(groups), WebHCatServer) == GroupsContaining(groups, WebHCatServer)
  {
    var r := WebHCatAugmented(groups);
    var w := FirstGroup(groups, WebHCatServer);
    var cs := groups[w].components;
    var after := r[w].components;
    WebHCatComponentsFacts(cs, DeployedCount(groups, ZookeeperServer) > 0);
    assert WebHCatServer in after <==> WebHCatServer in cs by {
      assert after == cs + Added(cs, after);
    }
    forall i | 0 <= i < |groups| ensures WebHCatServer in r[i].components <==> WebHCatServer in groups[i].components {
      if i != w { assert r[i] == groups[i]; }
    }
    GroupsContainingFrame(r, groups, WebHCatServer);
  }

  lemma WebHCatIdempotent(groups: seq<NodeGroup>)
    requires GroupsContaining(groups, WebHCatServer) != []
    ensures GroupsContaining(WebHCatAugmented(groups), WebHCatServer) != []
    ensures WebHCatAugmented(WebHCatAugmented(groups)) == WebHCatAugmented(groups)
    ensures !ActivatesZookeeper(WebHCat, WebHCatAugmented(groups))
  {
    var r := WebHCatAugmented(groups);
    var w := FirstGroup(groups, WebHCatServer);
    var cs := groups[w].components;
    var runs := DeployedCount(groups, ZookeeperServer) > 0;
    WebHCatKeepsServerGroups(groups);
    assert FirstGroup(r, WebHCatServer) == w;
    assert r[w].components == WebHCatComponents(cs, runs);
    WebHCatComponentsFacts(cs, runs);
    WebHCatComponentsIdempotent(cs, runs, DeployedCount(r, ZookeeperServer) > 0);
    assert r[w].(components := r[w].components) == r[w];
    assert r[w := r[w]] == r;
  }

  /** Running the step a second time changes nothing (for Hive, once its
      server group has instances), and no longer sets the Zookeeper flag. */
  lemma AugmentedIdempotent(k: Kind, groups: seq<NodeGroup>)
    requires AugmentReady(k, groups)
    requires k == Hive ==> groups[FirstGroup(groups, HiveServer)].count > 0
    ensures AugmentReady(k, Augmented(k, groups))
    ensures Augmented(k, Augmented(k, groups)) == Augmented(k, groups)
    ensures !ActivatesZookeeper(k, Augmented(k, groups))
  {
    match k
    case Ganglia => GangliaIdempotent(groups);
    case Sqoop => SqoopIdempotent(groups);
    case Oozie => OozieAsWrittenIdempotent(groups);
    case Hive => HiveIdempotent(groups);
    case WebHCat => WebHCatIdempotent(groups);
    case _ =>
  }
}
