/** The service objects and the parts of the cluster specification they
    change in place: the configuration dict, the node groups' component and
    storage-path lists, the other services' `deployed` flags and the
    service's own users. */
module Services {
  import opened Wrappers
  import opened Strings
  import opened Topology
  import opened StoragePaths
  import opened Catalog
  import opened Augment
  import opened Config
  import opened Users

  /** `cluster_spec.configurations`: a dict of dicts written in place. */
  class Configurations {
    var sections: Configs

    constructor(initial: Configs)
      ensures sections == initial
    {
      sections := initial;
    }

    /** `configurations[s][key] = value`. */
    method SetProperty(s: string, key: string, value: string)
      requires s in sections
      modifies this
      ensures sections == Store(old(sections), s, key, value)
    {
      sections := sections[s := sections[s][key := value]];
    }

    /** `section[name] = value` for each pair of `props` in turn. */
    method SetProperties(s: string, props: seq<(string, string)>)
      requires s in sections
      modifies this
      ensures sections == old(sections)[s := WriteProps(old(sections)[s], props)]
    {
      var k := 0;
      while k < |props|
        invariant 0 <= k <= |props|
        invariant sections == old(sections)[s := WriteProps(old(sections)[s], props[..k])]
      {
        assert props[..k + 1][..k] == props[..k];
        sections := sections[s := sections[s][props[k].0 := props[k].1]];
        k := k + 1;
      }
      assert props[..k] == props;
    }

    /** `_replace_config_token(cluster_spec, token, value, props)`: for each
        section named in `props`, in the dict's own order, each listed
        property is rewritten with `str.replace(token, value)`. */
    method ReplaceConfigToken(token: string, value: string, props: PropDict)
      requires PropsPresent(sections, props)
      modifies this
      ensures sections == ReplaceTokens(old(sections), token, value, props)
    {
      ghost var f := Replacer(token, value);
      var todo := props.Keys;
      ghost var done: set<string> := {};
      RewrittenNone(sections, f, props);
      while todo != {}
        invariant todo <= props.Keys && done == props.Keys - todo
        invariant sections == Rewritten(old(sections), f, props, done)
        decreases |todo|
      {
        var name := PickOne(todo);
        RewrittenPending(old(sections), f, props, done, name);
        RewriteProperties(name, token, value, props[name]);
        RewrittenStep(old(sections), f, props, done, name);
        todo := todo - {name};
        done := done + {name};
      }
      RewrittenAll(old(sections), token, value, props, done);
    }

    /** The inner loop of `_replace_config_token`: each property listed in
        `names` of section `name`, in order, has the token replaced. */
    method RewriteProperties(name: string, token: string, value: string, names: seq<string>)
      requires name in sections && NamesPresent(sections[name], names)
      modifies this
      ensures sections == old(sections)[name := RewriteSection(old(sections)[name], Replacer(token, value), names)]
    {
      ghost var f := Replacer(token, value);
      EmptyRewrite(sections[name], f, names);
      var j := 0;
      while j < |names|
        invariant 0 <= j <= |names|
        invariant sections == old(sections)[name := RewriteSection(old(sections)[name], f, names[..j])]
      {
        RewriteSectionStep(old(sections)[name], f, names, j);
        var p := names[j];
        sections := sections[name := sections[name][p := ReplaceAll(sections[name][p], token, value)]];
        j := j + 1;
      }
      assert names[..j] == names;
    }
  }

  /** The sections in `done` rewritten, the others as they were. */
  ghost function Rewritten(configs: Configs, f: string -> string, props: PropDict, done: set<string>): Configs
    requires PropsPresent(configs, props)
  {
    map s | s in configs :: if s in props && s in done then RewriteSection(configs[s], f, props[s]) else configs[s]
  }

  /** No section visited yet. */
  lemma RewrittenNone(configs: Configs, f: string -> string, props: PropDict)
    requires PropsPresent(configs, props)
    ensures Rewritten(configs, f, props, {}) == configs
  {
  }

  /** A section not yet visited is as it was. */
  lemma RewrittenPending(configs: Configs, f: string -> string, props: PropDict, done: set<string>, name: string)
    requires PropsPresent(configs, props) && name in props && name !in done
    ensures var r := Rewritten(configs, f, props, done);
      name in r && r[name] == configs[name] && NamesPresent(r[name], props[name])
  {
  }

  lemma RewrittenStep(configs: Configs, f: string -> string, props: PropDict, done: set<string>, name: string)
    requires PropsPresent(configs, props) && name in props && name !in done
    ensures Rewritten(configs, f, props, done + {name}) ==
      Rewritten(configs, f, props, done)[name := RewriteSection(configs[name], f, props[name])]
  {
  }

  /** Every section visited. */
  lemma RewrittenAll(configs: Configs, token: string, value: string, props: PropDict, done: set<string>)
    requires PropsPresent(configs, props) && done == props.Keys
    ensures Rewritten(configs, Replacer(token, value), props, done) == ReplaceTokens(configs, token, value, props)
  {
  }

  /** Nothing rewritten yet. */
  lemma EmptyRewrite(sec: Section, f: string -> string, names: seq<string>)
    ensures NamesPresent(sec, names[..0]) && RewriteSection(sec, f, names[..0]) == sec
  {
  }

  /** Some element of a non-empty set: the order in which a dict's items
      are visited is not fixed. */
  method PickOne(s: set<string>) returns (x: string)
    requires s != {}
    ensures x in s
  {
    x :| x in s;
  }

  /** The index of the first service with the name, or none: the
      `next(service for service in cluster_spec.services if ...)` lookup. */
  function FirstServiceNamed(services: seq<Service>, name: string): (r: Option<nat>)
    ensures r.Some? ==> r.value < |services| && services[r.value].name == name
    ensures r.Some? ==> forall j :: 0 <= j < r.value ==> services[j].name != name
    ensures r.None? <==> forall j :: 0 <= j < |services| ==> services[j].name != name
  {
    var names := seq(|services|, i requires 0 <= i < |services| => services[i].name);
    assert forall j :: 0 <= j < |services| ==> names[j] == services[j].name;
    FirstIndexOf(names, name)
  }

  /** The node groups and failure after `finalize_ng_components`:
      a missing `[0]` group fails before anything changes, a missing
      Zookeeper service fails after the appends made before the lookup. */
  function NgOutcome(k: Kind, groups: seq<NodeGroup>, zookeeperFound: bool): (r: (seq<NodeGroup>, Option<Failure>))
    ensures r.1.None? <==> AugmentReady(k, groups) && (ActivatesZookeeper(k, groups) ==> zookeeperFound)
    ensures r.1.None? ==> r.0 == Augmented(k, groups)
  {
    if !AugmentReady(k, groups) then (groups, Some(NoGroupWith(AnchorComponent(k).value)))
    else if ActivatesZookeeper(k, groups) && !zookeeperFound then
      (BeforeZookeeper(k, groups), Some(NoServiceNamed(ServiceId(Zookeeper))))
    else (Augmented(k, groups), None)
  }

  /** The variant sets the Zookeeper service's `deployed` flag, provided
      that service is found. */
  predicate SetsDeployed(k: Kind, groups: seq<NodeGroup>)
  {
    AugmentReady(k, groups) && ActivatesZookeeper(k, groups)
  }

  /** The cluster specification: its node groups, its services, and its
      configuration dict. */
  class ClusterSpec {
    var nodeGroups: seq<NodeGroup>
    var services: seq<Service>
    const configurations: Configurations

    constructor(groups: seq<NodeGroup>, svcs: seq<Service>, configs: Configurations)
      ensures nodeGroups == groups && services == svcs && configurations == configs
    {
      nodeGroups := groups;
      services := svcs;
      configurations := configs;
    }

    /** `components.append(c)` on the component list of group `i`. */
    method AppendComponent(i: nat, c: string)
      requires i < |nodeGroups|
      modifies this`nodeGroups
      ensures nodeGroups == AppendTo(old(nodeGroups), i, c)
    {
      nodeGroups := nodeGroups[i := nodeGroups[i].(components := nodeGroups[i].components + [c])];
    }
  }

  /** A service of the cluster.  `kind` is the class `create_service`
      picked; `adminUserName` is the Ambari service's admin name and stays
      empty for the other variants (they have no such attribute). */
  class Service {
    const name: string
    const kind: Kind
    var configurations: set<string>
    var components: seq<string>
    var users: seq<User>
    var deployed: bool
    var adminUserName: string

    /** `create_service(name)`: the variant whose identifier is `name`, or
        the base service; it carries the name, the variant's sections, no
        components and no users, and is not deployed. */
    constructor(n: string)
      ensures name == n && kind == KindOf(n)
      ensures configurations == Sections(KindOf(n))
      ensures components == [] && users == [] && !deployed
      ensures adminUserName == if KindOf(n) == Ambari then DefaultAdmin else ""
    {
      name := n;
      kind := KindOf(n);
      var sections := {"global", "core-site"};
      match ExtraSection(KindOf(n)) {
        case Some(s) => sections := sections + {s};
        case None =>
      }
      configurations := sections;
      components := [];
      users := [];
      deployed := false;
      adminUserName := if KindOf(n) == Ambari then DefaultAdmin else "";
    }

    /** `add_component(component)`. */
    method AddComponent(c: string)
      modifies this`components
      ensures components == old(components) + [c]
    {
      components := components + [c];
    }

    /** `add_user(user)`. */
    method AddUser(u: User)
      modifies this`users
      ensures users == old(users) + [u]
    {
      users := users + [u];
    }

    /** `_get_common_paths(node_groups)` for the groups at `idx`.  With one
        group the list returned is that group's own, so removing `/mnt`
        from it changes the group too. */
    method GetCommonPaths(spec: ClusterSpec, idx: seq<nat>) returns (paths: seq<string>)
      requires |idx| > 0 && ValidIndices(spec.nodeGroups, idx)
      modifies spec`nodeGroups
      ensures paths == CommonPaths(old(spec.nodeGroups), idx)
      ensures spec.nodeGroups == AfterCommonPaths(old(spec.nodeGroups), idx)
    {
      if |idx| == 1 {
        paths := spec.nodeGroups[idx[0]].storagePaths;
      } else {
        paths := Intersection(spec.nodeGroups, idx);
      }
      if |paths| > 1 && DefaultMount in paths {
        paths := RemoveFirst(paths, DefaultMount);
        if |idx| == 1 {
          spec.nodeGroups := spec.nodeGroups[idx[0] := spec.nodeGroups[idx[0]].(storagePaths := paths)];
        }
      } else if |idx| == 1 {
        assert spec.nodeGroups[idx[0] := spec.nodeGroups[idx[0]].(storagePaths := paths)] == spec.nodeGroups;
      }
    }

    // -------------------------------------------------------------------
    // finalize_ng_components

    /** Ganglia: the monitoring agent on every node group that lacks it. */
    method GangliaNgComponents(spec: ClusterSpec)
      requires kind == Ganglia
      modifies spec`nodeGroups
      ensures spec.nodeGroups == GangliaAugmented(old(spec.nodeGroups))
    {
      var i := 0;
      while i < |spec.nodeGroups|
        invariant 0 <= i <= |spec.nodeGroups| == |old(spec.nodeGroups)|
        invariant forall j :: 0 <= j < i ==> spec.nodeGroups[j] == WithAll(old(spec.nodeGroups)[j], [GangliaMonitor])
        invariant forall j :: i <= j < |spec.nodeGroups| ==> spec.nodeGroups[j] == old(spec.nodeGroups)[j]
      {
        WithAllOne(spec.nodeGroups[i], GangliaMonitor);
        if GangliaMonitor !in spec.nodeGroups[i].components {
          spec.AppendComponent(i, GangliaMonitor);
        }
        i := i + 1;
      }
    }

    /** The loop over the groups listing `member`: the HDFS and MapReduce
        clients on each group that lacks them. */
    method AddClientsWhere(spec: ClusterSpec, member: string)
      modifies spec`nodeGroups
      ensures spec.nodeGroups == AugmentWhere(old(spec.nodeGroups), member, [HdfsClient, MapReduceClient])
    {
      var ngs := GroupsContaining(spec.nodeGroups, member);
      var k := 0;
      while k < |ngs|
        invariant 0 <= k <= |ngs|
        invariant spec.nodeGroups == WithAllAt(old(spec.nodeGroups), ngs[..k], [HdfsClient, MapReduceClient])
      {
        var i := ngs[k];
        WithAllAtNext(old(spec.nodeGroups), ngs, k, [HdfsClient, MapReduceClient]);
        WithAllTwo(spec.nodeGroups[i], HdfsClient, MapReduceClient);
        if HdfsClient !in spec.nodeGroups[i].components {
          spec.AppendComponent(i, HdfsClient);
        }
        if MapReduceClient !in spec.nodeGroups[i].components {
          spec.AppendComponent(i, MapReduceClient);
        }
        k := k + 1;
      }
      WithAllAtAll(old(spec.nodeGroups), member, ngs, [HdfsClient, MapReduceClient]);
    }

    /** Sqoop: both clients on every group that runs Sqoop. */
    method SqoopNgComponents(spec: ClusterSpec)
      requires kind == Sqoop
      modifies spec`nodeGroups
      ensures spec.nodeGroups == SqoopAugmented(old(spec.nodeGroups))
    {
      AddClientsWhere(spec, SqoopComponent);
    }

    /** The two guarded client appends on the first group listing `server`. */
    method AddClientsToServer(spec: ClusterSpec, server: string) returns (failure: Option<Failure>)
      modifies spec`nodeGroups
      ensures GroupsContaining(old(spec.nodeGroups), server) == [] ==>
        failure == Some(NoGroupWith(server)) && spec.nodeGroups == old(spec.nodeGroups)
      ensures GroupsContaining(old(spec.nodeGroups), server) != [] ==>
        failure == None && spec.nodeGroups == ServerClients(old(spec.nodeGroups), server)
    {
      var servers := GroupsContaining(spec.nodeGroups, server);
      if servers == [] {
        return Some(NoGroupWith(server));
      }
      var s := servers[0];
      WithAllTwo(spec.nodeGroups[s], HdfsClient, MapReduceClient);
      if HdfsClient !in spec.nodeGroups[s].components {
        spec.AppendComponent(s, HdfsClient);
      }
      if MapReduceClient !in spec.nodeGroups[s].components {
        spec.AppendComponent(s, MapReduceClient);
      }
      return None;
    }

    /** The HDFS client on every group that lists `member`: the Oozie client
        loop as written, with only this append inside it. */
    method AddHdfsClientWhere(spec: ClusterSpec, member: string)
      modifies spec`nodeGroups
      ensures spec.nodeGroups == AugmentWhere(old(spec.nodeGroups), member, [HdfsClient])
    {
      var ngs := GroupsContaining(spec.nodeGroups, member);
      var k := 0;
      while k < |ngs|
        invariant 0 <= k <= |ngs|
        invariant spec.nodeGroups == WithAllAt(old(spec.nodeGroups), ngs[..k], [HdfsClient])
      {
        var i := ngs[k];
        WithAllAtNext(old(spec.nodeGroups), ngs, k, [HdfsClient]);
        WithAllOne(spec.nodeGroups[i], HdfsClient);
        if HdfsClient !in spec.nodeGroups[i].components {
          spec.AppendComponent(i, HdfsClient);
        }
        k := k + 1;
      }
      WithAllAtAll(old(spec.nodeGroups), member, ngs, [HdfsClient]);
    }

    /** Oozie as the source is written: both clients on the server group,
        the HDFS client on every client group, and the MapReduce client only
        on the group whose `components` the loop leaves behind. */
    method OozieNgComponents(spec: ClusterSpec) returns (failure: Option<Failure>)
      requires kind == Oozie
      modifies spec`nodeGroups
      ensures (spec.nodeGroups, failure) == NgOutcome(Oozie, old(spec.nodeGroups), true)
    {
      ghost var before := spec.nodeGroups;
      OozieOutcome(before);
      failure := AddClientsToServer(spec, OozieServer);
      if failure.None? {
        ServerClientsKeepsGroups(before, OozieServer, OozieServer);
        ServerClientsKeepsGroups(before, OozieServer, OozieClient);
        var last := OozieLastGroup(spec.nodeGroups);
        assert last == OozieLastGroup(before);
        AddHdfsClientWhere(spec, OozieClient);
        ghost var afterLoop := spec.nodeGroups;
        WithAllOne(afterLoop[last], MapReduceClient);
        if MapReduceClient !in spec.nodeGroups[last].components {
          spec.AppendComponent(last, MapReduceClient);
        }
        assert spec.nodeGroups == afterLoop[last := WithAll(afterLoop[last], [MapReduceClient])];
      }
    }

    /** The `next(...)` lookup of the Zookeeper service and its
        `deployed = True`; `found` is false where `next` raises, and then
        no flag changes. */
    method DeployZookeeper(spec: ClusterSpec) returns (found: bool)
      modifies spec.services`deployed
      ensures var z := FirstServiceNamed(spec.services, ServiceId(Zookeeper));
        found == z.Some? &&
        forall s :: s in spec.services ==>
          s.deployed == (old(s.deployed) || (found && s == spec.services[z.value]))
    {
      var z := FirstServiceNamed(spec.services, ServiceId(Zookeeper));
      if z.None? {
        return false;
      }
      spec.services[z.value].deployed := true;
      return true;
    }

    /** Hive: the metastore and the database server on the first Hive server
        group unless they run somewhere, then the Zookeeper server likewise,
        marking the Zookeeper service deployed. */
    method HiveNgComponents(spec: ClusterSpec) returns (failure: Option<Failure>)
      requires kind == Hive
      modifies spec`nodeGroups, spec.services`deployed
      ensures var z := FirstServiceNamed(spec.services, ServiceId(Zookeeper));
        (spec.nodeGroups, failure) == NgOutcome(Hive, old(spec.nodeGroups), z.Some?)
      ensures var z := FirstServiceNamed(spec.services, ServiceId(Zookeeper));
        forall s :: s in spec.services ==>
          s.deployed == (old(s.deployed) || (SetsDeployed(Hive, old(spec.nodeGroups)) && z.Some? && s == spec.services[z.value]))
    {
      var hs := GroupsContaining(spec.nodeGroups, HiveServer);
      if hs == [] {
        return Some(NoGroupWith(HiveServer));
      }
      var h := hs[0];
      ghost var z := FirstServiceNamed(spec.services, ServiceId(Zookeeper));
      HiveStep(spec.nodeGroups, z.Some?);
      ghost var sets := SetsDeployed(Hive, spec.nodeGroups);
      if DeployedCount(spec.nodeGroups, HiveMetastore) == 0 {
        spec.AppendComponent(h, HiveMetastore);
      }
      if DeployedCount(spec.nodeGroups, MysqlServer) == 0 {
        spec.AppendComponent(h, MysqlServer);
      }
      assert spec.nodeGroups == HiveBeforeZookeeper(old(spec.nodeGroups));
      if DeployedCount(spec.nodeGroups, ZookeeperServer) == 0 {
        assert sets;
        var found := DeployZookeeper(spec);
        if !found {
          return Some(NoServiceNamed(ServiceId(Zookeeper)));
        }
        spec.AppendComponent(h, ZookeeperServer);
      } else {
        assert !sets;
      }
      return None;
    }

    /** WebHCat: both clients on the first WebHCat server group; when it
        lacks the Zookeeper client, the Zookeeper server too unless one runs
        (marking the Zookeeper service deployed), then the client. */
    method WebHCatNgComponents(spec: ClusterSpec) returns (failure: Option<Failure>)
      requires kind == WebHCat
      modifies spec`nodeGroups, spec.services`deployed
      ensures var z := FirstServiceNamed(spec.services, ServiceId(Zookeeper));
        (spec.nodeGroups, failure) == NgOutcome(WebHCat, old(spec.nodeGroups), z.Some?)
      ensures var z := FirstServiceNamed(spec.services, ServiceId(Zookeeper));
        forall s :: s in spec.services ==>
          s.deployed == (old(s.deployed) || (SetsDeployed(WebHCat, old(spec.nodeGroups)) && z.Some? && s == spec.services[z.value]))
    {
      failure := AddClientsToServer(spec, WebHCatServer);
      if failure.Some? {
        return;
      }
      ghost var z := FirstServiceNamed(spec.services, ServiceId(Zookeeper));
      WebHCatStep(old(spec.nodeGroups), spec.nodeGroups, z.Some?);
      ghost var sets := SetsDeployed(WebHCat, old(spec.nodeGroups));
      var w := GroupsContaining(spec.nodeGroups, WebHCatServer)[0];
      if ZookeeperClient !in spec.nodeGroups[w].components {
        if DeployedCount(spec.nodeGroups, ZookeeperServer) == 0 {
          assert sets;
          var found := DeployZookeeper(spec);
          if !found {
            return Some(NoServiceNamed(ServiceId(Zookeeper)));
          }
          spec.AppendComponent(w, ZookeeperServer);
        } else {
          assert !sets;
        }
        spec.AppendComponent(w, ZookeeperClient);
      } else {
        assert !sets;
      }
    }

    /** `finalize_ng_components(cluster_spec)` of this service's variant;
        the other variants change nothing.  No `deployed` flag is ever
        cleared. */
    method FinalizeNgComponents(spec: ClusterSpec) returns (failure: Option<Failure>)
      modifies spec`nodeGroups, spec.services`deployed
      ensures var z := FirstServiceNamed(spec.services, ServiceId(Zookeeper));
        (spec.nodeGroups, failure) == NgOutcome(kind, old(spec.nodeGroups), z.Some?)
      ensures var z := FirstServiceNamed(spec.services, ServiceId(Zookeeper));
        forall s :: s in spec.services ==>
          s.deployed == (old(s.deployed) || (SetsDeployed(kind, old(spec.nodeGroups)) && z.Some? && s == spec.services[z.value]))
    {
      match kind {
        case Ganglia =>
          GangliaNgComponents(spec);
          failure := None;
        case Sqoop =>
          SqoopNgComponents(spec);
          failure := None;
        case Oozie =>
          failure := OozieNgComponents(spec);
        case Hive =>
          failure := HiveNgComponents(spec);
        case WebHCat =>
          failure := WebHCatNgComponents(spec);
        case _ =>
          failure := None;
      }
    }

    // -------------------------------------------------------------------
    // finalize_configuration

    /** One host-token block: `hosts = determine_component_hosts(c)`, and
        when there are any, `_replace_config_token` with the name of the
        host `pick`. */
    method ReplaceHostToken(spec: ClusterSpec, step: TokenStep, pick: Host)
      requires StepReady(spec.configurations.sections, spec.nodeGroups, step)
      modifies spec.configurations
      ensures spec.configurations.sections == ApplyStep(old(spec.configurations.sections), spec.nodeGroups, step, pick)
    {
      var hosts := ComponentHosts(spec.nodeGroups, step.component);
      if hosts != {} {
        spec.configurations.ReplaceConfigToken(step.token, pick.fqdn, step.props);
      }
    }

    /** HDFS: the NameNode and secondary NameNode blocks, the Swift
        properties into `core-site`, then the name directory from the first
        NameNode group and the data directory from the DataNode groups'
        common paths. */
    method HdfsBlocks(spec: ClusterSpec, steps: seq<TokenStep>, picks: seq<Host>, swift: seq<(string, string)>)
      returns (failure: Option<Failure>)
      requires kind == Hdfs && |steps| == 2
      requires StepsReady(spec.configurations.sections, spec.nodeGroups, steps, picks)
      requires "core-site" in spec.configurations.sections
      requires GroupsContaining(spec.nodeGroups, "NAMENODE") != [] ==>
        "hdfs-site" in spec.configurations.sections && "global" in spec.configurations.sections
      modifies spec`nodeGroups, spec.configurations
      ensures Outcome(spec.configurations.sections, spec.nodeGroups, failure) ==
        HdfsDirs(WithSwift(ApplySteps(old(spec.configurations.sections), old(spec.nodeGroups), steps, picks), swift),
                 old(spec.nodeGroups))
    {
      HostTokenBlocks(spec, steps, picks);
      spec.configurations.SetProperties("core-site", swift);
      failure := HdfsStorageDirs(spec);
    }

    /** The storage-path part of HDFS `finalize_configuration`. */
    method HdfsStorageDirs(spec: ClusterSpec) returns (failure: Option<Failure>)
      requires GroupsContaining(spec.nodeGroups, "NAMENODE") != [] ==>
        "hdfs-site" in spec.configurations.sections && "global" in spec.configurations.sections
      modifies spec`nodeGroups, spec.configurations
      ensures Outcome(spec.configurations.sections, spec.nodeGroups, failure) ==
        HdfsDirs(old(spec.configurations.sections), old(spec.nodeGroups))
    {
      var nn := GroupsContaining(spec.nodeGroups, "NAMENODE");
      if nn == [] {
        return Some(NoGroupWith("NAMENODE"));
      }
      var nnGroup := nn[0];
      var dn := GroupsContaining(spec.nodeGroups, "DATANODE");
      var common: seq<string> := [];
      if dn != [] {
        common := GetCommonPaths(spec, dn);
      }
      var nameDir := GenerateStoragePath(spec.nodeGroups[nnGroup].storagePaths, NameNodeSubpath);
      spec.configurations.SetProperty("hdfs-site", "dfs.name.dir", nameDir);
      spec.configurations.SetProperty("global", "dfs_name_dir", nameDir);
      if common != [] {
        var dataDir := GenerateStoragePath(common, DataNodeSubpath);
        spec.configurations.SetProperty("hdfs-site", "dfs.data.dir", dataDir);
        spec.configurations.SetProperty("global", "dfs_data_dir", dataDir);
      }
      return None;
    }

    /** MapReduce: the JobTracker block, then the local directory from the
        TaskTracker groups' common paths when there are such groups. */
    method MapReduceBlocks(spec: ClusterSpec, steps: seq<TokenStep>, picks: seq<Host>)
      requires kind == MapReduce && |steps| == 1
      requires StepsReady(spec.configurations.sections, spec.nodeGroups, steps, picks)
      requires GroupsContaining(spec.nodeGroups, "TASKTRACKER") != [] ==>
        "mapred-site" in spec.configurations.sections && "global" in spec.configurations.sections
      modifies spec`nodeGroups, spec.configurations
      ensures Outcome(spec.configurations.sections, spec.nodeGroups, None) ==
        MapReduceDirs(ApplySteps(old(spec.configurations.sections), old(spec.nodeGroups), steps, picks), old(spec.nodeGroups))
    {
      HostTokenBlocks(spec, steps, picks);
      var tt := GroupsContaining(spec.nodeGroups, "TASKTRACKER");
      if tt != [] {
        var common := GetCommonPaths(spec, tt);
        var localDir := GenerateStoragePath(common, MapRedSubpath);
        spec.configurations.SetProperty("mapred-site", "mapred.local.dir", localDir);
        spec.configurations.SetProperty("global", "mapred_local_dir", localDir);
      }
    }

    /** The variant's host-token blocks in order: Hive and WebHCat have
        three, HDFS two, MapReduce and Oozie one. */
    method HostTokenBlocks(spec: ClusterSpec, steps: seq<TokenStep>, picks: seq<Host>)
      requires 1 <= |steps| <= 3
      requires StepsReady(spec.configurations.sections, spec.nodeGroups, steps, picks)
      modifies spec.configurations
      ensures spec.configurations.sections == ApplySteps(old(spec.configurations.sections), spec.nodeGroups, steps, picks)
    {
      ApplyStepsUnrolled(spec.configurations.sections, spec.nodeGroups, steps, picks);
      ReplaceHostToken(spec, steps[0], picks[0]);
      if |steps| >= 2 {
        ReplaceHostToken(spec, steps[1], picks[1]);
      }
      if |steps| == 3 {
        ReplaceHostToken(spec, steps[2], picks[2]);
      }
    }

    /** `finalize_configuration(cluster_spec)` of this service's variant,
        `picks` the hosts the `pop()` calls return and `swift` the Swift
        properties; the other variants change nothing. */
    method FinalizeConfiguration(spec: ClusterSpec, picks: seq<Host>, swift: seq<(string, string)>) returns (failure: Option<Failure>)
      requires FinalizeReady(kind, spec.configurations.sections, spec.nodeGroups, picks)
      modifies spec`nodeGroups, spec.configurations
      ensures Outcome(spec.configurations.sections, spec.nodeGroups, failure) ==
        Finalized(kind, old(spec.configurations.sections), old(spec.nodeGroups), picks, swift)
    {
      match kind {
        case Hdfs =>
          failure := HdfsConfiguration(spec, picks, swift);
        case MapReduce =>
          MapReduceConfiguration(spec, picks);
          failure := None;
        case Hive =>
          HostTokenConfiguration(spec, picks);
          failure := None;
        case WebHCat =>
          HostTokenConfiguration(spec, picks);
          failure := None;
        case Oozie =>
          HostTokenConfiguration(spec, picks);
          failure := None;
        case _ =>
          FinalizedOther(kind, spec.configurations.sections, spec.nodeGroups, picks, swift);
          failure := None;
      }
    }

    /** HDFS `finalize_configuration` with its own host-token blocks. */
    method HdfsConfiguration(spec: ClusterSpec, picks: seq<Host>, swift: seq<(string, string)>) returns (failure: Option<Failure>)
      requires kind == Hdfs && FinalizeReady(Hdfs, spec.configurations.sections, spec.nodeGroups, picks)
      modifies spec`nodeGroups, spec.configurations
      ensures Outcome(spec.configurations.sections, spec.nodeGroups, failure) ==
        Finalized(Hdfs, old(spec.configurations.sections), old(spec.nodeGroups), picks, swift)
    {
      FinalizedHdfs(spec.configurations.sections, spec.nodeGroups, picks, swift);
      failure := HdfsBlocks(spec, HostTokenSteps(Hdfs), picks, swift);
    }

    /** MapReduce `finalize_configuration` with its own host-token block. */
    method MapReduceConfiguration(spec: ClusterSpec, picks: seq<Host>)
      requires kind == MapReduce && FinalizeReady(MapReduce, spec.configurations.sections, spec.nodeGroups, picks)
      modifies spec`nodeGroups, spec.configurations
      ensures Outcome(spec.configurations.sections, spec.nodeGroups, None) ==
        Finalized(MapReduce, old(spec.configurations.sections), old(spec.nodeGroups), picks, [])
    {
      FinalizedMapReduce(spec.configurations.sections, spec.nodeGroups, picks, []);
      MapReduceBlocks(spec, HostTokenSteps(MapReduce), picks);
    }

    /** Hive, WebHCat and Oozie `finalize_configuration` with their own
        host-token blocks. */
    method HostTokenConfiguration(spec: ClusterSpec, picks: seq<Host>)
      requires kind == Hive || kind == WebHCat || kind == Oozie
      requires FinalizeReady(kind, spec.configurations.sections, spec.nodeGroups, picks)
      modifies spec.configurations
      ensures Outcome(spec.configurations.sections, spec.nodeGroups, None) ==
        Finalized(kind, old(spec.configurations.sections), spec.nodeGroups, picks, [])
    {
      FinalizedHostTokens(kind, spec.configurations.sections, spec.nodeGroups, picks, []);
      HostTokenBlocks(spec, HostTokenSteps(kind), picks);
    }

    // -------------------------------------------------------------------
    // User-input handlers

    /** The Hive metastore and Oozie database handlers: the user's value
        under the site key, then under the matching `global` key. */
    method HandleConfigInput(h: Handler, value: string, configurations: Configurations)
      requires HandlerOwner(h) == kind && HandlerKeys(h).Some?
      requires HandlerReady(h, configurations.sections)
      modifies configurations
      ensures configurations.sections == HandlerConfigs(h, old(configurations.sections), value)
    {
      var t := HandlerKeys(h).value;
      configurations.SetProperty(t.site, t.siteKey, value);
      configurations.SetProperty("global", t.globalKey, value);
    }

    /** `_handle_user_property_admin_user`: the first user named `admin`
        is renamed and the new name becomes the admin name. */
    method HandleAdminUser(value: string) returns (failure: Option<Failure>)
      requires kind == Ambari
      modifies this`users, this`adminUserName
      ensures RenameAdmin(old(users), value).None? ==>
        failure == Some(NoUserNamed(DefaultAdmin)) && users == old(users) && adminUserName == old(adminUserName)
      ensures RenameAdmin(old(users), value).Some? ==>
        failure == None && users == RenameAdmin(old(users), value).value && adminUserName == value
    {
      var i := FirstNamed(users, DefaultAdmin);
      if i.None? {
        return Some(NoUserNamed(DefaultAdmin));
      }
      users := users[i.value := users[i.value].(name := value)];
      adminUserName := value;
      return None;
    }

    /** `_handle_user_property_admin_password`: the first user with the
        admin name takes the new password. */
    method HandleAdminPassword(value: string) returns (failure: Option<Failure>)
      requires kind == Ambari
      modifies this`users
      ensures SetPassword(old(users), adminUserName, value).None? ==>
        failure == Some(NoUserNamed(adminUserName)) && users == old(users)
      ensures SetPassword(old(users), adminUserName, value).Some? ==>
        failure == None && users == SetPassword(old(users), adminUserName, value).value
    {
      var i := FirstNamed(users, adminUserName);
      if i.None? {
        return Some(NoUserNamed(adminUserName));
      }
      users := users[i.value := users[i.value].(password := value)];
      return None;
    }
  }

  /** The groups at the indices `idx` with the guarded appends of `names`
      made, the others as they were. */
  ghost function WithAllAt(groups: seq<NodeGroup>, idx: seq<nat>, names: seq<string>): (r: seq<NodeGroup>)
    ensures |r| == |groups|
  {
    seq(|groups|, j requires 0 <= j < |groups| => if j in idx then WithAll(groups[j], names) else groups[j])
  }

  /** The loop over increasing indices reaches one more group, which it
      finds as it was. */
  lemma WithAllAtNext(groups: seq<NodeGroup>, ngs: seq<nat>, k: nat, names: seq<string>)
    requires k < |ngs| && ngs[k] < |groups|
    requires forall a, b :: 0 <= a < b < |ngs| ==> ngs[a] < ngs[b]
    ensures WithAllAt(groups, ngs[..k], names)[ngs[k]] == groups[ngs[k]]
    ensures WithAllAt(groups, ngs[..k + 1], names) ==
      WithAllAt(groups, ngs[..k], names)[ngs[k] := WithAll(groups[ngs[k]], names)]
  {
    assert forall j :: j in ngs[..k + 1] <==> j in ngs[..k] || j == ngs[k] by {
      assert ngs[..k + 1] == ngs[..k] + [ngs[k]];
    }
    assert ngs[k] !in ngs[..k];
  }

  /** Once the loop has visited every group listing `member`, the result is
      the guarded appends on exactly those groups. */
  lemma WithAllAtAll(groups: seq<NodeGroup>, member: string, ngs: seq<nat>, names: seq<string>)
    requires ngs == GroupsContaining(groups, member)
    ensures WithAllAt(groups, ngs[..|ngs|], names) == AugmentWhere(groups, member, names)
  {
    assert ngs[..|ngs|] == ngs;
  }

  /** The outcome of the Oozie method's two paths. */
  lemma OozieOutcome(groups: seq<NodeGroup>)
    ensures GroupsContaining(groups, OozieServer) == [] ==>
      NgOutcome(Oozie, groups, true) == (groups, Some(NoGroupWith(OozieServer)))
    ensures GroupsContaining(groups, OozieServer) != [] ==>
      NgOutcome(Oozie, groups, true) == (OozieAugmentedAsWritten(groups), None)
  {
  }

  /** The outcome of each of the Hive method's three paths, on the table
      after the metastore and database-server appends. */
  lemma HiveStep(groups: seq<NodeGroup>, found: bool)
    requires GroupsContaining(groups, HiveServer) != []
    ensures SetsDeployed(Hive, groups) <==> DeployedCount(HiveBeforeZookeeper(groups), ZookeeperServer) == 0
    ensures DeployedCount(HiveBeforeZookeeper(groups), ZookeeperServer) > 0 ==>
      NgOutcome(Hive, groups, found) == (HiveBeforeZookeeper(groups), None)
    ensures DeployedCount(HiveBeforeZookeeper(groups), ZookeeperServer) == 0 && found ==>
      NgOutcome(Hive, groups, found) ==
        (AppendTo(HiveBeforeZookeeper(groups), FirstGroup(groups, HiveServer), ZookeeperServer), None)
    ensures DeployedCount(HiveBeforeZookeeper(groups), ZookeeperServer) == 0 && !found ==>
      NgOutcome(Hive, groups, found) == (HiveBeforeZookeeper(groups), Some(NoServiceNamed(ServiceId(Zookeeper))))
  {
  }

  /** The WebHCat state after the client appends: the group the method
      works on, when the Zookeeper service is needed, and the outcome of
      each of the method's four paths, all on the changed table. */
  lemma WebHCatStep(groups: seq<NodeGroup>, g1: seq<NodeGroup>, found: bool)
    requires GroupsContaining(groups, WebHCatServer) != []
    requires g1 == ServerClients(groups, WebHCatServer)
    ensures GroupsContaining(g1, WebHCatServer) != []
    ensures GroupsContaining(g1, WebHCatServer)[0] == FirstGroup(groups, WebHCatServer)
    ensures var w := FirstGroup(groups, WebHCatServer);
      SetsDeployed(WebHCat, groups) <==>
        ZookeeperClient !in g1[w].components && DeployedCount(g1, ZookeeperServer) == 0
    ensures var w := FirstGroup(groups, WebHCatServer);
      ZookeeperClient in g1[w].components ==> NgOutcome(WebHCat, groups, found) == (g1, None)
    ensures var w := FirstGroup(groups, WebHCatServer);
      ZookeeperClient !in g1[w].components && DeployedCount(g1, ZookeeperServer) > 0 ==>
        NgOutcome(WebHCat, groups, found) == (AppendTo(g1, w, ZookeeperClient), None)
    ensures var w := FirstGroup(groups, WebHCatServer);
      ZookeeperClient !in g1[w].components && DeployedCount(g1, ZookeeperServer) == 0 && found ==>
        NgOutcome(WebHCat, groups, found) == (AppendTo(AppendTo(g1, w, ZookeeperServer), w, ZookeeperClient), None)
    ensures var w := FirstGroup(groups, WebHCatServer);
      ZookeeperClient !in g1[w].components && DeployedCount(g1, ZookeeperServer) == 0 && !found ==>
        NgOutcome(WebHCat, groups, found) == (g1, Some(NoServiceNamed(ServiceId(Zookeeper))))
  {
    ServerClientsKeepsGroups(groups, WebHCatServer, WebHCatServer);
    WebHCatNeedsZookeeperAfterClients(groups);
    WebHCatAugmentedAfterClients(groups);
  }

}
