/** The configuration side of the services: sections of string properties,
    the host-token substitution every `finalize_configuration` performs,
    the storage-directory properties of HDFS and MapReduce and the
    properties the user-input handlers write. */
module Config {
  import opened Wrappers
  import opened Strings
  import opened Topology
  import opened StoragePaths
  import opened Catalog

  /** One configuration section: property name to value. */
  type Section = map<string, string>

  /** `cluster_spec.configurations`: section name to section. */
  type Configs = map<string, Section>

  /** The argument `props` of `_replace_config_token`: for each section the
      properties to rewrite. */
  type PropDict = map<string, seq<string>>

  /** The errors the services raise without catching: `[0]` on an empty
      list of node groups (`IndexError`), `next` finding no service or user
      (`StopIteration`). */
  datatype Failure = NoGroupWith(component: string) | NoServiceNamed(name: string) | NoUserNamed(name: string)

  predicate NamesPresent(sec: Section, names: seq<string>)
  {
    forall p :: p in names ==> p in sec
  }

  /** Every section `props` names exists and holds every property listed
      under it; otherwise `_replace_config_token` raises `KeyError`. */
  predicate PropsPresent(configs: Configs, props: PropDict)
  {
    forall s :: s in props ==> s in configs && NamesPresent(configs[s], props[s])
  }

  /** No property is listed twice under a section. */
  predicate WellFormed(props: PropDict)
  {
    forall s :: s in props ==> NoDup(props[s])
  }

  /** Same sections, and the same properties in each. */
  predicate SameKeys(a: Configs, b: Configs)
  {
    a.Keys == b.Keys && forall s :: s in a ==> a[s].Keys == b[s].Keys
  }

  lemma PropsPresentKept(a: Configs, b: Configs, props: PropDict)
    requires SameKeys(a, b) && PropsPresent(a, props)
    ensures PropsPresent(b, props)
  {
    forall s | s in props ensures s in b && NamesPresent(b[s], props[s]) {
      assert s in a;
    }
  }

  /** How often `p` is listed in `names`. */
  function Count(names: seq<string>, p: string): (r: nat)
    ensures r == 0 <==> p !in names
    decreases |names|
  {
    if |names| == 0 then 0
    else
      var n := |names| - 1;
      assert forall q :: q in names <==> q in names[..n] || q == names[n] by {
        assert names == names[..n] + [names[n]];
      }
      Count(names[..n], p) + (if names[n] == p then 1 else 0)
  }

  /** `f` applied `n` times. */
  function Iterate(f: string -> string, x: string, n: nat): string
  {
    if n == 0 then x else f(Iterate(f, x, n - 1))
  }

  /** The inner loop of `_replace_config_token`, for any rewrite `f`: every
      property of the section has been rewritten once for each time it is
      listed. */
  function RewriteSection(sec: Section, f: string -> string, names: seq<string>): (r: Section)
    requires NamesPresent(sec, names)
    ensures r.Keys == sec.Keys
  {
    map p | p in sec :: Iterate(f, sec[p], Count(names, p))
  }

  /** `str.replace(token, value)` as a rewrite. */
  function Replacer(token: string, value: string): string -> string
  {
    x => ReplaceAll(x, token, value)
  }

  /** `_replace_config_token(cluster_spec, token, value, props)` on the
      configurations: the listed sections rewritten, the others as they
      were.  The sections can be visited in any order. */
  function ReplaceTokens(configs: Configs, token: string, value: string, props: PropDict): (r: Configs)
    requires PropsPresent(configs, props)
    ensures SameKeys(configs, r)
  {
    map s | s in configs :: if s in props then RewriteSection(configs[s], Replacer(token, value), props[s]) else configs[s]
  }

  /** A property listed once is counted once. */
  lemma {:induction false} CountNoDup(names: seq<string>, p: string)
    requires NoDup(names) && p in names
    ensures Count(names, p) == 1
    decreases |names|
  {
    var n := |names| - 1;
    assert forall q :: q in names <==> q in names[..n] || q == names[n] by {
      assert names == names[..n] + [names[n]];
    }
    assert NoDup(names[..n]);
    if names[n] == p {
      assert p !in names[..n];
    } else {
      CountNoDup(names[..n], p);
    }
  }

  /** One more property handled by the inner loop. */
  lemma RewriteSectionStep(sec: Section, f: string -> string, names: seq<string>, j: nat)
    requires NamesPresent(sec, names) && j < |names|
    ensures NamesPresent(sec, names[..j]) && NamesPresent(sec, names[..j + 1])
    ensures var prev := RewriteSection(sec, f, names[..j]);
      names[j] in prev &&
      RewriteSection(sec, f, names[..j + 1]) == prev[names[j] := f(prev[names[j]])]
  {
    assert forall q :: q in names[..j] ==> q in names;
    assert forall q :: q in names[..j + 1] ==> q in names;
    assert names[..j + 1][..j] == names[..j];
    var prev := RewriteSection(sec, f, names[..j]);
    var next := RewriteSection(sec, f, names[..j + 1]);
    assert names[j] in sec;
    forall q | q in sec ensures next[q] == prev[names[j] := f(prev[names[j]])][q] {
      assert Count(names[..j + 1], q) == Count(names[..j], q) + (if names[j] == q then 1 else 0);
    }
  }

  /** `_replace_config_token` rewrites exactly the listed properties: each
      becomes its old value with every leftmost non-overlapping occurrence
      of the token replaced; every other property of every section keeps
      its value, and no section or property appears or disappears. */
  lemma ReplaceTokensEffect(configs: Configs, token: string, value: string, props: PropDict, s: string, p: string)
    requires PropsPresent(configs, props) && WellFormed(props)
    requires s in configs && p in configs[s]
    ensures SameKeys(configs, ReplaceTokens(configs, token, value, props))
    ensures ReplaceTokens(configs, token, value, props)[s][p] ==
      if s in props && p in props[s] then ReplaceAll(configs[s][p], token, value) else configs[s][p]
  {
    if s in props && p in props[s] {
      CountNoDup(props[s], p);
      assert Iterate(Replacer(token, value), configs[s][p], 1) == ReplaceAll(configs[s][p], token, value);
    }
  }

  /** The properties `finalize_configuration` rewrites for one host token:
      when some host runs `component`, `token` is replaced by one such
      host's name in the properties `props`. */
  datatype TokenStep = TokenStep(component: string, token: string, props: PropDict)

  /** The host-token steps of each variant, in the order the source runs
      them. */
  function HostTokenSteps(k: Kind): seq<TokenStep>
  {
    match k
    case Hdfs => [
      TokenStep("NAMENODE", "%NN_HOST%",
        map["core-site" := ["fs.default.name"], "hdfs-site" := ["dfs.http.address", "dfs.https.address"]]),
      TokenStep("SECONDARY_NAMENODE", "%SNN_HOST%", map["hdfs-site" := ["dfs.secondary.http.address"]])]
    case MapReduce => [
      TokenStep("JOBTRACKER", "%JT_HOST%",
        map["mapred-site" := ["mapred.job.tracker", "mapred.job.tracker.http.address",
                              "mapreduce.history.server.http.address"]])]
    case Hive => [
      TokenStep("HIVE_SERVER", "%HIVE_HOST%",
        map["global" := ["hive_hostname"], "core-site" := ["hadoop.proxyuser.hive.hosts"],
            "hive-site" := ["javax.jdo.option.ConnectionURL"]]),
      TokenStep("HIVE_METASTORE", "%HIVE_METASTORE_HOST%", map["hive-site" := ["hive.metastore.uris"]]),
      TokenStep("MYSQL_SERVER", "%HIVE_MYSQL_HOST%", map["global" := ["hive_jdbc_connection_url"]])]
    case WebHCat => [
      TokenStep("WEBHCAT_SERVER", "%WEBHCAT_HOST%", map["core-site" := ["hadoop.proxyuser.hcat.hosts"]]),
      TokenStep("HIVE_METASTORE", "%HIVE_METASTORE_HOST%", map["webhcat-site" := ["templeton.hive.properties"]]),
      TokenStep("ZOOKEEPER_SERVER", "%ZOOKEEPER_HOST%", map["webhcat-site" := ["templeton.zookeeper.hosts"]])]
    case Oozie => [
      TokenStep("OOZIE_SERVER", "%OOZIE_HOST%",
        map["global" := ["oozie_hostname"], "core-site" := ["hadoop.proxyuser.oozie.hosts"],
            "oozie-site" := ["oozie.base.url"]])]
    case _ => []
  }

  /** The step's substitution can run: when some host runs the component,
      the properties it rewrites exist. */
  predicate StepReady(configs: Configs, groups: seq<NodeGroup>, step: TokenStep)
  {
    ComponentHosts(groups, step.component) != {} ==> PropsPresent(configs, step.props)
  }

  /** `pick` is a legal result of `determine_component_hosts(c).pop()`. */
  predicate LegalPick(groups: seq<NodeGroup>, step: TokenStep, pick: Host)
  {
    ComponentHosts(groups, step.component) != {} ==> pick in ComponentHosts(groups, step.component)
  }

  /** One `if hosts: self._replace_config_token(...)` block, with `pick` the
      host that `pop()` returned. */
  function ApplyStep(configs: Configs, groups: seq<NodeGroup>, step: TokenStep, pick: Host): (r: Configs)
    requires StepReady(configs, groups, step)
    ensures SameKeys(configs, r)
  {
    if ComponentHosts(groups, step.component) == {} then configs
    else ReplaceTokens(configs, step.token, pick.fqdn, step.props)
  }

  /** The host-token blocks in order, `picks[i]` the host chosen in block
      `i`. */
  function ApplySteps(configs: Configs, groups: seq<NodeGroup>, steps: seq<TokenStep>, picks: seq<Host>): (r: Configs)
    requires |picks| == |steps|
    requires forall i :: 0 <= i < |steps| ==> StepReady(configs, groups, steps[i])
    ensures SameKeys(configs, r)
    decreases |steps|
  {
    if |steps| == 0 then configs
    else
      var n := |steps| - 1;
      var c1 := ApplySteps(configs, groups, steps[..n], picks[..n]);
      assert StepReady(c1, groups, steps[n]) by {
        assert StepReady(configs, groups, steps[n]);
        if ComponentHosts(groups, steps[n].component) != {} {
          PropsPresentKept(configs, c1, steps[n].props);
        }
      }
      ApplyStep(c1, groups, steps[n], picks[n])
  }

  /** One pick per block, and every block's properties present. */
  predicate StepsReady(configs: Configs, groups: seq<NodeGroup>, steps: seq<TokenStep>, picks: seq<Host>)
  {
    |picks| == |steps| && forall i :: 0 <= i < |steps| ==> StepReady(configs, groups, steps[i])
  }

  /** One more block: the first `n + 1` blocks are the first `n` followed
      by block `n`, which can run on what the first `n` left. */
  lemma ApplyStepsNext(configs: Configs, groups: seq<NodeGroup>, steps: seq<TokenStep>, picks: seq<Host>, n: nat)
    requires |picks| == |steps| && n < |steps|
    requires forall i :: 0 <= i < |steps| ==> StepReady(configs, groups, steps[i])
    ensures var c1 := ApplySteps(configs, groups, steps[..n], picks[..n]);
      && StepReady(c1, groups, steps[n])
      && ApplySteps(configs, groups, steps[..n + 1], picks[..n + 1]) == ApplyStep(c1, groups, steps[n], picks[n])
  {
    assert steps[..n + 1][..n] == steps[..n] && picks[..n + 1][..n] == picks[..n];
    var c1 := ApplySteps(configs, groups, steps[..n], picks[..n]);
    assert StepReady(configs, groups, steps[n]);
    if ComponentHosts(groups, steps[n].component) != {} {
      PropsPresentKept(configs, c1, steps[n].props);
    }
  }

  /** One to three blocks written out one after the other, each able to
      run on what the blocks before it left. */
  lemma ApplyStepsUnrolled(configs: Configs, groups: seq<NodeGroup>, steps: seq<TokenStep>, picks: seq<Host>)
    requires StepsReady(configs, groups, steps, picks) && 1 <= |steps| <= 3
    ensures StepReady(configs, groups, steps[0])
    ensures |steps| == 1 ==> ApplySteps(configs, groups, steps, picks) == ApplyStep(configs, groups, steps[0], picks[0])
    ensures |steps| >= 2 ==> StepReady(ApplyStep(configs, groups, steps[0], picks[0]), groups, steps[1])
    ensures |steps| == 2 ==> (ApplySteps(configs, groups, steps, picks) ==
      ApplyStep(ApplyStep(configs, groups, steps[0], picks[0]), groups, steps[1], picks[1]))
    ensures |steps| == 3 ==>
      StepReady(ApplyStep(ApplyStep(configs, groups, steps[0], picks[0]), groups, steps[1], picks[1]), groups, steps[2])
    ensures |steps| == 3 ==> (ApplySteps(configs, groups, steps, picks) ==
      ApplyStep(ApplyStep(ApplyStep(configs, groups, steps[0], picks[0]), groups, steps[1], picks[1]), groups, steps[2], picks[2]))
  {
    assert steps[..0] == [] && picks[..0] == [];
    ApplyStepsNext(configs, groups, steps, picks, 0);
    if |steps| >= 2 {
      ApplyStepsNext(configs, groups, steps, picks, 1);
    }
    if |steps| == 3 {
      ApplyStepsNext(configs, groups, steps, picks, 2);
    }
    assert steps[..|steps|] == steps && picks[..|picks|] == picks;
  }

  /** A host-token block does nothing when no host runs the component;
      otherwise each listed property has the token replaced by the name of
      a host that runs the component, and nothing else changes. */
  lemma HostStepEffect(configs: Configs, groups: seq<NodeGroup>, step: TokenStep, pick: Host, s: string, p: string)
    requires StepReady(configs, groups, step) && LegalPick(groups, step, pick) && WellFormed(step.props)
    requires s in configs && p in configs[s]
    ensures ComponentHosts(groups, step.component) == {} ==> ApplyStep(configs, groups, step, pick) == configs
    ensures ComponentHosts(groups, step.component) != {} ==>
      pick in ComponentHosts(groups, step.component) &&
      ApplyStep(configs, groups, step, pick)[s][p] ==
        if s in step.props && p in step.props[s] then ReplaceAll(configs[s][p], step.token, pick.fqdn) else configs[s][p]
  {
    if ComponentHosts(groups, step.component) != {} {
      ReplaceTokensEffect(configs, step.token, pick.fqdn, step.props, s, p);
    }
  }

  /** Every variant's token table is a proper dict of lists: distinct
      sections and no property twice. */
  lemma HostTokenStepsWellFormed(k: Kind, i: nat)
    requires i < |HostTokenSteps(k)|
    ensures WellFormed(HostTokenSteps(k)[i].props)
  {
  }

  // ---------------------------------------------------------------------
  // Plain property writes.

  /** `section[name] = value` for each pair in turn. */
  function WriteProps(sec: Section, props: seq<(string, string)>): (r: Section)
    decreases |props|
  {
    if |props| == 0 then sec
    else
      var n := |props| - 1;
      WriteProps(sec, props[..n])[props[n].0 := props[n].1]
  }

  /** A property no pair names keeps its value (or stays absent). */
  lemma {:induction false} WritePropsUnnamed(sec: Section, props: seq<(string, string)>, p: string)
    requires forall k :: 0 <= k < |props| ==> props[k].0 != p
    ensures p in WriteProps(sec, props) <==> p in sec
    ensures p in sec ==> WriteProps(sec, props)[p] == sec[p]
    decreases |props|
  {
    if |props| > 0 {
      WritePropsUnnamed(sec, props[..|props| - 1], p);
    }
  }

  /** A property named by the pair at `k` and by no later pair has that
      pair's value: the last write wins. */
  lemma {:induction false} WritePropsLast(sec: Section, props: seq<(string, string)>, k: nat)
    requires k < |props|
    requires forall l :: k < l < |props| ==> props[l].0 != props[k].0
    ensures props[k].0 in WriteProps(sec, props) && WriteProps(sec, props)[props[k].0] == props[k].1
    decreases |props|
  {
    var n := |props| - 1;
    if k < n {
      var front := props[..n];
      assert front[k] == props[k];
      WritePropsLast(sec, front, k);
    }
  }

  /** `configs[s][key] = value` on an existing section. */
  function Store(configs: Configs, s: string, key: string, value: string): (r: Configs)
    requires s in configs
    ensures r.Keys == configs.Keys
  {
    configs[s := configs[s][key := value]]
  }

  /** The Swift properties written into `core-site` by HDFS. */
  function WithSwift(configs: Configs, swift: seq<(string, string)>): (r: Configs)
    requires "core-site" in configs
    ensures r.Keys == configs.Keys
  {
    configs["core-site" := WriteProps(configs["core-site"], swift)]
  }

  // ---------------------------------------------------------------------
  // Storage directories.

  const NameNodeSubpath := "/hadoop/hdfs/namenode"
  const DataNodeSubpath := "/hadoop/hdfs/data"
  const MapRedSubpath := "/hadoop/mapred"

  /** The configurations, node groups and raised error after a step. */
  datatype Outcome = Outcome(configs: Configs, groups: seq<NodeGroup>, failure: Option<Failure>)

  /** The storage-path part of HDFS `finalize_configuration`: the first
      NameNode group's paths (read after `_get_common_paths`, which may have
      shortened that very list) give the name directory; the DataNode
      groups' common paths, when there are any, give the data directory.
      With no NameNode group the `[0]` fails before anything is written. */
  function HdfsDirs(configs: Configs, groups: seq<NodeGroup>): (r: Outcome)
    requires GroupsContaining(groups, "NAMENODE") != [] ==> "hdfs-site" in configs && "global" in configs
    ensures r.configs.Keys == configs.Keys
  {
    var nn := GroupsContaining(groups, "NAMENODE");
    if nn == [] then Outcome(configs, groups, Some(NoGroupWith("NAMENODE")))
    else
      var dn := GroupsContaining(groups, "DATANODE");
      var g := if dn == [] then groups else AfterCommonPaths(groups, dn);
      var common := if dn == [] then [] else CommonPaths(groups, dn);
      var nameDir := GenerateStoragePath(g[nn[0]].storagePaths, NameNodeSubpath);
      var c1 := Store(Store(configs, "hdfs-site", "dfs.name.dir", nameDir), "global", "dfs_name_dir", nameDir);
      if common == [] then Outcome(c1, g, None)
      else
        var dataDir := GenerateStoragePath(common, DataNodeSubpath);
        Outcome(Store(Store(c1, "hdfs-site", "dfs.data.dir", dataDir), "global", "dfs_data_dir", dataDir), g, None)
  }

  /** The storage-path part of MapReduce `finalize_configuration`: with
      TaskTracker groups the local directory is written, even when their
      common paths are empty. */
  function MapReduceDirs(configs: Configs, groups: seq<NodeGroup>): (r: Outcome)
    requires GroupsContaining(groups, "TASKTRACKER") != [] ==> "mapred-site" in configs && "global" in configs
    ensures r.configs.Keys == configs.Keys && r.failure == None
  {
    var tt := GroupsContaining(groups, "TASKTRACKER");
    if tt == [] then Outcome(configs, groups, None)
    else
      var localDir := GenerateStoragePath(CommonPaths(groups, tt), MapRedSubpath);
      var c1 := Store(Store(configs, "mapred-site", "mapred.local.dir", localDir), "global", "mapred_local_dir", localDir);
      Outcome(c1, AfterCommonPaths(groups, tt), None)
  }

  /** HDFS writes the same name directory under `hdfs-site` and `global`,
      built from the NameNode group's paths as they stand after the data
      rule. */
  lemma HdfsDirsWritten(configs: Configs, groups: seq<NodeGroup>)
    requires "hdfs-site" in configs && "global" in configs
    requires GroupsContaining(groups, "NAMENODE") != []
    ensures var r := HdfsDirs(configs, groups);
      var nn := GroupsContaining(groups, "NAMENODE")[0];
      && r.failure == None
      && r.configs["hdfs-site"]["dfs.name.dir"] == r.configs["global"]["dfs_name_dir"]
           == GenerateStoragePath(r.groups[nn].storagePaths, NameNodeSubpath)
  {
  }

  /** When the DataNode groups share paths, both data-directory keys hold
      the join of those paths with the data subpath, and every such path is
      a storage path of every DataNode group. */
  lemma HdfsDataDir(configs: Configs, groups: seq<NodeGroup>)
    requires "hdfs-site" in configs && "global" in configs
    requires GroupsContaining(groups, "NAMENODE") != []
    requires GroupsContaining(groups, "DATANODE") != []
    requires CommonPaths(groups, GroupsContaining(groups, "DATANODE")) != []
    ensures var r := HdfsDirs(configs, groups);
      var dn := GroupsContaining(groups, "DATANODE");
      && r.configs["hdfs-site"]["dfs.data.dir"] == r.configs["global"]["dfs_data_dir"]
           == GenerateStoragePath(CommonPaths(groups, dn), DataNodeSubpath)
      && forall k, p :: 0 <= k < |dn| && p in CommonPaths(groups, dn) ==> p in groups[dn[k]].storagePaths
  {
    var dn := GroupsContaining(groups, "DATANODE");
    forall k, p | 0 <= k < |dn| && p in CommonPaths(groups, dn) ensures p in groups[dn[k]].storagePaths {
      CommonPathsWithin(groups, dn, k, p);
    }
  }

  /** Without DataNode groups, or when they share no path, neither data
      directory key is touched. */
  lemma HdfsNoDataDir(configs: Configs, groups: seq<NodeGroup>)
    requires "hdfs-site" in configs && "global" in configs
    requires GroupsContaining(groups, "NAMENODE") != []
    requires GroupsContaining(groups, "DATANODE") == [] || CommonPaths(groups, GroupsContaining(groups, "DATANODE")) == []
    ensures var r := HdfsDirs(configs, groups);
      && ("dfs.data.dir" in r.configs["hdfs-site"] <==> "dfs.data.dir" in configs["hdfs-site"])
      && ("dfs.data.dir" in configs["hdfs-site"] ==> r.configs["hdfs-site"]["dfs.data.dir"] == configs["hdfs-site"]["dfs.data.dir"])
      && ("dfs_data_dir" in r.configs["global"] <==> "dfs_data_dir" in configs["global"])
  {
  }

  /** With one NameNode group that is also the only DataNode group and
      holds `/mnt` beside other paths, the `/mnt` the data rule drops is
      gone from the name directory as well, because both read the same
      list. */
  lemma HdfsSharedGroupDropsMount(configs: Configs, h: seq<Host>)
    requires "hdfs-site" in configs && "global" in configs
    ensures var groups := [NodeGroup("master", ["NAMENODE", "DATANODE"], ["/mnt", "/data1"], 1, h)];
      HdfsDirs(configs, groups).configs["hdfs-site"]["dfs.name.dir"] == "/data1" + NameNodeSubpath
  {
    var groups := [NodeGroup("master", ["NAMENODE", "DATANODE"], ["/mnt", "/data1"], 1, h)];
    assert GroupsContaining(groups[..0], "NAMENODE") == [];
    assert GroupsContaining(groups[..0], "DATANODE") == [];
    assert GroupsContaining(groups, "NAMENODE") == [0];
    assert GroupsContaining(groups, "DATANODE") == [0];
    var ps := ["/mnt", "/data1"];
    assert RemoveFirst(ps, "/mnt") == ["/data1"];
    assert CommonPaths(groups, [0]) == ["/data1"];
    assert Suffixed(["/data1"], NameNodeSubpath) == ["/data1" + NameNodeSubpath];
  }

  /** MapReduce writes the local directory under both keys whenever
      TaskTracker groups exist: the join of their common paths with the
      subpath, which is empty when they share no path. */
  lemma MapReduceLocalDir(configs: Configs, groups: seq<NodeGroup>)
    requires "mapred-site" in configs && "global" in configs
    requires GroupsContaining(groups, "TASKTRACKER") != []
    ensures var r := MapReduceDirs(configs, groups);
      var tt := GroupsContaining(groups, "TASKTRACKER");
      && r.configs["mapred-site"]["mapred.local.dir"] == r.configs["global"]["mapred_local_dir"]
           == GenerateStoragePath(CommonPaths(groups, tt), MapRedSubpath)
      && (CommonPaths(groups, tt) == [] ==> r.configs["mapred-site"]["mapred.local.dir"] == "")
  {
  }

  /** Without TaskTracker groups MapReduce changes nothing here. */
  lemma MapReduceNoTaskTracker(configs: Configs, groups: seq<NodeGroup>)
    requires GroupsContaining(groups, "TASKTRACKER") == []
    ensures MapReduceDirs(configs, groups) == Outcome(configs, groups, None)
  {
  }

  // ---------------------------------------------------------------------
  // The whole of `finalize_configuration`.

  /** What `finalize_configuration` needs to avoid `KeyError`: one pick per
      host-token block, every block's properties present when it runs, and
      the sections the storage directories go to. */
  predicate FinalizeReady(k: Kind, configs: Configs, groups: seq<NodeGroup>, picks: seq<Host>)
  {
    && StepsReady(configs, groups, HostTokenSteps(k), picks)
    && (k == Hdfs ==> "core-site" in configs)
    && (k == Hdfs && GroupsContaining(groups, "NAMENODE") != [] ==> "hdfs-site" in configs && "global" in configs)
    && (k == MapReduce && GroupsContaining(groups, "TASKTRACKER") != [] ==> "mapred-site" in configs && "global" in configs)
  }

  /** `finalize_configuration` of each variant: the host-token blocks, then
      for HDFS the Swift properties and the storage directories, for
      MapReduce the local directory.  Only HDFS can fail, when no group runs
      the NameNode; no section is ever added or removed. */
  function Finalized(k: Kind, configs: Configs, groups: seq<NodeGroup>, picks: seq<Host>, swift: seq<(string, string)>)
    : (r: Outcome)
    requires FinalizeReady(k, configs, groups, picks)
    ensures r.configs.Keys == configs.Keys
    ensures r.failure.Some? <==> k == Hdfs && GroupsContaining(groups, "NAMENODE") == []
    ensures r.failure.Some? ==> r.failure == Some(NoGroupWith("NAMENODE")) && r.groups == groups
  {
    var c1 := ApplySteps(configs, groups, HostTokenSteps(k), picks);
    match k
    case Hdfs => HdfsDirs(WithSwift(c1, swift), groups)
    case MapReduce => MapReduceDirs(c1, groups)
    case _ => Outcome(c1, groups, None)
  }

  /** `Finalized` for HDFS: two host-token blocks, the Swift properties,
      the storage directories. */
  lemma FinalizedHdfs(configs: Configs, groups: seq<NodeGroup>, picks: seq<Host>, swift: seq<(string, string)>)
    requires FinalizeReady(Hdfs, configs, groups, picks)
    ensures |HostTokenSteps(Hdfs)| == 2
    ensures Finalized(Hdfs, configs, groups, picks, swift) ==
      HdfsDirs(WithSwift(ApplySteps(configs, groups, HostTokenSteps(Hdfs), picks), swift), groups)
  {
  }

  /** `Finalized` for MapReduce: one host-token block, the local directory. */
  lemma FinalizedMapReduce(configs: Configs, groups: seq<NodeGroup>, picks: seq<Host>, swift: seq<(string, string)>)
    requires FinalizeReady(MapReduce, configs, groups, picks)
    ensures |HostTokenSteps(MapReduce)| == 1
    ensures Finalized(MapReduce, configs, groups, picks, swift) ==
      MapReduceDirs(ApplySteps(configs, groups, HostTokenSteps(MapReduce), picks), groups)
  {
  }

  /** `Finalized` for Hive, WebHCat and Oozie: host-token blocks only. */
  lemma FinalizedHostTokens(k: Kind, configs: Configs, groups: seq<NodeGroup>, picks: seq<Host>, swift: seq<(string, string)>)
    requires k == Hive || k == WebHCat || k == Oozie
    requires FinalizeReady(k, configs, groups, picks)
    ensures |HostTokenSteps(k)| == if k == Oozie then 1 else 3
    ensures Finalized(k, configs, groups, picks, swift) == Outcome(ApplySteps(configs, groups, HostTokenSteps(k), picks), groups, None)
  {
  }

  /** `Finalized` for the variants without `finalize_configuration`. */
  lemma FinalizedOther(k: Kind, configs: Configs, groups: seq<NodeGroup>, picks: seq<Host>, swift: seq<(string, string)>)
    requires k !in {Hdfs, MapReduce, Hive, WebHCat, Oozie}
    requires FinalizeReady(k, configs, groups, picks)
    ensures Finalized(k, configs, groups, picks, swift) == Outcome(configs, groups, None)
  {
  }

  // ---------------------------------------------------------------------
  // User-input handlers that write configuration.

  /** The keys a Hive or Oozie handler writes: a key of its own site
      section, then a key of `global`.  The Ambari handlers write none. */
  datatype HandlerTarget = HandlerTarget(site: string, siteKey: string, globalKey: string)

  function HandlerKeys(h: Handler): Option<HandlerTarget>
  {
    match h
    case MetastoreUser => Some(HandlerTarget("hive-site", "javax.jdo.option.ConnectionUserName", "hive_metastore_user_name"))
    case MetastorePassword => Some(HandlerTarget("hive-site", "javax.jdo.option.ConnectionPassword", "hive_metastore_user_passwd"))
    case OozieDbUser => Some(HandlerTarget("oozie-site", "oozie.service.JPAService.jdbc.username", "oozie_metastore_user_name"))
    case OozieDbPassword => Some(HandlerTarget("oozie-site", "oozie.service.JPAService.jdbc.password", "oozie_metastore_user_passwd"))
    case _ => None
  }

  /** The sections a handler writes exist; otherwise it raises `KeyError`. */
  predicate HandlerReady(h: Handler, configs: Configs)
  {
    HandlerKeys(h).Some? ==> HandlerKeys(h).value.site in configs && "global" in configs
  }

  /** The configuration after a Hive or Oozie handler: the user's value
      under the site key, then under the `global` key. */
  function HandlerConfigs(h: Handler, configs: Configs, value: string): (r: Configs)
    requires HandlerReady(h, configs)
    ensures r.Keys == configs.Keys
  {
    match HandlerKeys(h)
    case None => configs
    case Some(t) => Store(Store(configs, t.site, t.siteKey, value), "global", t.globalKey, value)
  }

  /** A Hive or Oozie handler stores the user's value both under its site
      key and under the matching `global` key; every other property of
      every section is left as it was. */
  lemma HandlerWritesBoth(h: Handler, configs: Configs, value: string, s: string, p: string)
    requires HandlerKeys(h).Some? && HandlerReady(h, configs)
    requires s in configs
    ensures var r, t := HandlerConfigs(h, configs, value), HandlerKeys(h).value;
      && t.site != "global"
      && t.siteKey in r[t.site] && r[t.site][t.siteKey] == value
      && t.globalKey in r["global"] && r["global"][t.globalKey] == value
      && ((s, p) != (t.site, t.siteKey) && (s, p) != ("global", t.globalKey) ==>
            (p in r[s] <==> p in configs[s]) && (p in configs[s] ==> r[s][p] == configs[s][p]))
  {
  }

  /** Exactly the Hive and Oozie handlers write configuration. */
  lemma HandlerKeysOwners(h: Handler)
    ensures HandlerKeys(h).Some? <==> HandlerOwner(h) in {Hive, Oozie}
  {
  }
}
