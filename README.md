# HDP service layer of the Savanna plugin, in Dafny

This project models the service objects of the Hortonworks Data Platform
plugin (`savanna/plugins/hdp/services.py`) and proves what they do to a
cluster specification. The nine service variants (HDFS, MapReduce, Hive,
WebHCat, Zookeeper, Oozie, Ganglia, Ambari, Sqoop) and the base `Service`
are one class, `Services.Service`. Its `kind` field is one tag of
`Catalog.Kind`, and `create_service` chooses that tag from the service name.
The parts of the cluster specification that the services change in place
are classes:

- `Services.ClusterSpec` holds the node groups, the service list and the
  configuration dict.
- `Services.Configurations` is the dict of configuration sections.

Node groups and users are values in sequences that the methods reassign.

The modules follow the source's layers:

- `Strings`: `str.replace`, `str.split` and `str.join`, with the identities
  between them.
- `Topology`: node groups, plus the three cluster-specification queries the
  services call (instance count, groups listing a component, component
  hosts), with the meaning given to each.
- `StoragePaths`: `_get_common_paths` and `_generate_storage_path`.
- `Catalog`: the static per-variant facts: identifiers, sections, mandatory
  and user-template flags, user-input routing, endpoint URLs, bootstrap
  commands.
- `Validation`: every `validate` as a table of placement rules.
- `Augment`: every `finalize_ng_components` as a function on node groups.
- `Config`: `_replace_config_token`, the host-token blocks, the storage
  directories and the handler writes of `finalize_configuration`.
- `Users`: the Ambari admin-user handlers on user lists.
- `Services`: the classes and the in-place methods. Each method's
  postcondition ties its new state to the functions above.

Two points about what the model claims:

- Hive checks the metastore, the database server and the Zookeeper server
  one by one (lines 278-287). Each is appended only when no instance runs
  it.
- Every `finalize_ng_components` appends only behind a guard: a `not in`
  test at lines 444-456, 360-369, 504-507 and 573-576, and a zero deployed
  count at lines 278-282. So the model claims that a second run of a step
  changes nothing, and proves it for every variant with one exception.
  When the first Hive server group has no instances, the components
  appended to it are never counted as deployed, so Hive appends them again
  (`Augment.HiveRepeatsOnEmptyServerGroup`).

The methods follow the code as written, including the Oozie step of the
finding below. The corrected Oozie step stands beside it as a reference,
with its own lemmas.

## Model

| member | source | states |
|---|---|---|
| Catalog.KindOf | savanna/plugins/hdp/services.py:20-25 | the variant found has the name as its identifier; the base service is chosen only when no variant's identifier is the name |
| Catalog.KindOfServiceId | savanna/plugins/hdp/services.py:21-23 | every variant is found again from its own `get_service_id()` |
| Services.Service.constructor | savanna/plugins/hdp/services.py:28-34 | `create_service(n)` keeps the name `n` and gets the variant's sections; it starts with no components, no users and not deployed; only Ambari's admin name starts as `admin` |
| Catalog.Sections | savanna/plugins/hdp/services.py:31 | every service has `global` and `core-site`; HDFS, MapReduce, Hive, WebHCat, Oozie and Ambari add exactly one more section, and the rest add none |
| Catalog.IsMandatory | savanna/plugins/hdp/services.py:63-64 | exactly HDFS, MapReduce and Ambari are mandatory (lines 154-155, 216-217, 547-548) |
| Catalog.IsUserTemplateComponent | savanna/plugins/hdp/services.py:501-502 | a component is hidden exactly when it is Ganglia's monitor or Ambari's agent (also lines 538-539) |
| Services.Service.AddComponent | savanna/plugins/hdp/services.py:36-37 | the component list gains the component at its end |
| Services.Service.AddUser | savanna/plugins/hdp/services.py:39-40 | the user list gains the user at its end |
| Strings.FirstIndexOf | savanna/plugins/hdp/services.py:283-284 | the lookup by name gives the first position holding the name, or none exactly when no position holds it (also lines 365-366, 550-551, 556-557) |
| Strings.ReplaceAllIsJoinOfSplit | savanna/plugins/hdp/services.py:70 | for a non-empty token, `s.replace(t, v)` equals `v.join(s.split(t))` |
| Strings.ReplaceAllAbsent | savanna/plugins/hdp/services.py:70 | a value without the token is left as it is |
| Strings.JoinSplit | savanna/plugins/hdp/services.py:85 | joining the pieces of a split with the separator gives the string back |
| Config.ReplaceTokens | savanna/plugins/hdp/services.py:66-70 | the token rewrite adds and removes no section and no property |
| Config.ReplaceTokensEffect | savanna/plugins/hdp/services.py:66-70 | each listed property becomes its old value with every leftmost non-overlapping occurrence of the token replaced; every other property of every section keeps its value |
| Config.RewriteSectionStep | savanna/plugins/hdp/services.py:69-70 | one more pass of the inner loop rewrites exactly the next listed property of the section as it stands |
| Services.Configurations.RewriteProperties | savanna/plugins/hdp/services.py:68-70 | the inner loop leaves every section but the visited one as it was, and rewrites that one's listed properties in order |
| Services.Configurations.ReplaceConfigToken | savanna/plugins/hdp/services.py:66-70 | visiting the sections in any order, the dict ends as the token rewrite of its old contents |
| Services.Configurations.SetProperty | savanna/plugins/hdp/services.py:133-134 | one property of one existing section takes the value, and nothing else changes |
| Services.Configurations.SetProperties | savanna/plugins/hdp/services.py:119-121 | the section ends as its old contents with the pairs written in order |
| Config.WritePropsLast | savanna/plugins/hdp/services.py:120-121 | a property written in the loop holds the value of the last pair that names it |
| Config.WritePropsUnnamed | savanna/plugins/hdp/services.py:120-121 | a property that no pair names keeps its value, or stays absent |
| StoragePaths.RemoveFirst | savanna/plugins/hdp/services.py:80 | `list.remove(x)` drops exactly one occurrence of `x`: one element fewer, with the same multiset minus `x` |
| StoragePaths.DropDefaultMount | savanna/plugins/hdp/services.py:79-80 | one `/mnt` goes only when there is more than one path and `/mnt` is among them; a lone `/mnt` survives |
| StoragePaths.Intersection | savanna/plugins/hdp/services.py:76-77 | the paths every group's list contains, once each |
| StoragePaths.AfterCommonPaths | savanna/plugins/hdp/services.py:73-80 | only storage paths can change: every group keeps its components, its instance count and its hosts |
| StoragePaths.CommonPathsWithin | savanna/plugins/hdp/services.py:72-82 | every common path is a storage path of every group it was computed from |
| StoragePaths.DropDefaultMountWithin | savanna/plugins/hdp/services.py:79-80 | the `/mnt` rule removes paths and never adds one |
| StoragePaths.CommonPathsOfSeveral | savanna/plugins/hdp/services.py:76-81 | with several groups the result has no duplicates, and a path is in it exactly when every group has it and it is not a `/mnt` beside other common paths |
| StoragePaths.SingleGroupVerbatim | savanna/plugins/hdp/services.py:73-74 | when the `/mnt` rule does not apply, one group's list comes back verbatim and the group is unchanged; a lone `/mnt` survives |
| StoragePaths.TwoGroupsExample | savanna/plugins/hdp/services.py:76-80 | groups with paths `/mnt,/data1` and `/mnt,/data1,/data2` give `["/data1"]` |
| Services.Service.GetCommonPaths | savanna/plugins/hdp/services.py:72-82 | returns the common paths, and leaves the node groups as the aliasing of the one-group case makes them |
| StoragePaths.GenerateStoragePath | savanna/plugins/hdp/services.py:84-85 | no base paths give the empty string |
| StoragePaths.StoragePathRoundTrip | savanna/plugins/hdp/services.py:84-85 | when no base path or subpath contains a comma, splitting the value on commas gives back each base path with the subpath appended, in order |
| Topology.GroupsContaining | savanna/plugins/hdp/services.py:124-127 | the node groups that list the component, each exactly once, in table order |
| Topology.ComponentHosts | savanna/plugins/hdp/services.py:104 | a host is a component host exactly when it belongs to a node group listing the component |
| Validation.ValidateFollowsRules | savanna/plugins/hdp/services.py:171-179 | every variant's `validate` reports exactly the first rule of its table that the topology breaks |
| Validation.FirstViolationNone | savanna/plugins/hdp/services.py:171-179 | no violation is reported exactly when every rule holds |
| Validation.ValidateSucceedsIff | savanna/plugins/hdp/services.py:421-429 | validation passes exactly when every placement rule of the variant holds |
| Validation.SingleServerRule | savanna/plugins/hdp/services.py:97-101 | HDFS, Hive, WebHCat, Zookeeper, Ganglia and Ambari fail with `(component, 1, count)` exactly when the count is not 1 (also lines 229-232, 325-328, 405-409, 496-499, 521-524) |
| Validation.ServerBeforeClient | savanna/plugins/hdp/services.py:421-429 | for MapReduce and Oozie, a bad server count is reported whatever the client count; the client is reported only when the server count is right; they pass exactly when there is one server and at least one client (also lines 171-179) |
| Validation.MandatoryHaveRules | savanna/plugins/hdp/services.py:154-155 | every mandatory variant checks at least one placement |
| Services.ClusterSpec.AppendComponent | savanna/plugins/hdp/services.py:278-280 | `components.append(c)` on one node group: that group's list gains `c` at its end, and nothing else changes |
| Services.Service.GangliaNgComponents | savanna/plugins/hdp/services.py:504-507 | the node groups end as the Ganglia augmentation of the old ones |
| Augment.GangliaMonitorsEverywhere | savanna/plugins/hdp/services.py:504-507 | afterwards every node group lists the monitor |
| Augment.GangliaGrows | savanna/plugins/hdp/services.py:504-507 | every list keeps its old contents as a prefix and gains only the monitor, with no duplicate; no instance count changes |
| Augment.GangliaIdempotent | savanna/plugins/hdp/services.py:504-507 | a second Ganglia step changes nothing |
| Services.Service.AddClientsWhere | savanna/plugins/hdp/services.py:571-576 | the node groups end with both clients appended, where absent, to every group listing the component |
| Services.Service.SqoopNgComponents | savanna/plugins/hdp/services.py:570-576 | the node groups end as the Sqoop augmentation of the old ones |
| Augment.SqoopClientsColocated | savanna/plugins/hdp/services.py:570-576 | every Sqoop group then has the HDFS and MapReduce clients, and every other group is unchanged |
| Augment.SqoopGrows | savanna/plugins/hdp/services.py:570-576 | lists only grow at the end, and only by the two clients |
| Augment.SqoopIdempotent | savanna/plugins/hdp/services.py:570-576 | a second Sqoop step changes nothing |
| Services.Service.AddClientsToServer | savanna/plugins/hdp/services.py:441-447 | with no group listing the server, the `[0]` failure is raised and nothing changes; otherwise the first server group gets both clients where absent |
| Services.Service.AddHdfsClientWhere | savanna/plugins/hdp/services.py:451-454 | the node groups end with the HDFS client appended, where absent, to every group listing the component |
| Services.Service.OozieNgComponents | savanna/plugins/hdp/services.py:440-456 | the node groups and the failure are those of the Oozie step as written: with no server group the `[0]` failure and no change; otherwise both clients on the server group, the HDFS client on every client group, and the MapReduce client only on the group the check after the loop sees |
| Augment.OozieLastGroup | savanna/plugins/hdp/services.py:455-456 | the group whose `components` the check after the loop sees is the last group listing the Oozie client, or the first server group when no group lists it |
| Augment.OozieAsWrittenFacts | savanna/plugins/hdp/services.py:444-456 | the step as written gives the server group both clients and every client group the HDFS client; the MapReduce client reaches the last client group (the server group when there is none), no other group gains it, and a group that is neither server nor client group is unchanged |
| Augment.OozieAsWrittenMissesClient | savanna/plugins/hdp/services.py:451-456 | with two client groups after the server group, the step as written leaves the first client group without the MapReduce client; the intended step gives it one |
| Augment.OozieAsWrittenGrows | savanna/plugins/hdp/services.py:440-456 | the step as written only grows lists at the end, and only by the two clients |
| Augment.OozieAsWrittenKeepsMembership | savanna/plugins/hdp/services.py:449-451 | under the step as written, no component other than the two clients joins or leaves any group, so the client groups are the same before and after |
| Augment.OozieAsWrittenNoDup | savanna/plugins/hdp/services.py:444-456 | the step as written creates no duplicate in lists that had none |
| Augment.OozieAsWrittenIdempotent | savanna/plugins/hdp/services.py:440-456 | a second run of the step as written changes nothing |
| Augment.OozieClientsColocated | savanna/plugins/hdp/services.py:448-456 | after the intended step, the server group and every client group have both clients, and every other group is unchanged |
| Augment.OozieGrows | savanna/plugins/hdp/services.py:440-456 | the intended step only grows lists at the end, and only by the two clients |
| Augment.OozieKeepsMembership | savanna/plugins/hdp/services.py:449-451 | under the intended step, no component other than the two clients joins or leaves any group |
| Augment.OozieNoDup | savanna/plugins/hdp/services.py:444-456 | the intended step creates no duplicate in lists that had none |
| Augment.OozieIdempotent | savanna/plugins/hdp/services.py:440-456 | a second run of the intended step changes nothing |
| Augment.GuardedAppendsNoDup | savanna/plugins/hdp/services.py:504-507 | the Ganglia, Sqoop and Oozie steps create no duplicate in lists that had none (also lines 440-456, 570-576) |
| Augment.AppendAllFacts | savanna/plugins/hdp/services.py:573-576 | guarded appends keep the list as a prefix, add exactly the names that were absent, and create no duplicate |
| Services.Service.HiveNgComponents | savanna/plugins/hdp/services.py:275-287 | the node groups and failure follow the Hive outcome; the Zookeeper service alone becomes deployed, and only when the step needs a Zookeeper server; no `deployed` flag is cleared |
| Services.HiveStep | savanna/plugins/hdp/services.py:279-287 | Hive needs the Zookeeper service exactly when no Zookeeper server runs after the metastore and database-server appends; the outcome of each of the three paths |
| Augment.HiveMissingMembers | savanna/plugins/hdp/services.py:279-283 | a dependency is appended exactly when no instance runs it, and none is appended twice |
| Augment.HiveDependencies | savanna/plugins/hdp/services.py:278-287 | Hive appends exactly the missing dependencies, in order, to the first Hive server group, and to no other group |
| Augment.HiveDependenciesRun | savanna/plugins/hdp/services.py:279-287 | when the first Hive server group has instances, the metastore, the database server and the Zookeeper server all run afterwards |
| Augment.HiveActivatesZookeeperIff | savanna/plugins/hdp/services.py:283-286 | Hive needs the Zookeeper service exactly when no instance runs a Zookeeper server |
| Augment.HiveGrows | savanna/plugins/hdp/services.py:275-287 | lists only grow at the end, and only by the three dependencies |
| Augment.HiveIdempotent | savanna/plugins/hdp/services.py:275-287 | when the first Hive server group has instances, a second step changes nothing and no longer needs Zookeeper |
| Augment.HiveRepeatsOnEmptyServerGroup | savanna/plugins/hdp/services.py:279-280 | when that group has no instances and no metastore runs, a second step appends again |
| Services.Service.DeployZookeeper | savanna/plugins/hdp/services.py:283-285 | the `next(...)` lookup finds the Zookeeper service exactly when one exists; then that service alone becomes deployed, otherwise no flag changes |
| Services.Service.WebHCatNgComponents | savanna/plugins/hdp/services.py:352-369 | the node groups and the failure follow the WebHCat outcome; the Zookeeper service alone becomes deployed, and only when the step needs a Zookeeper server; no `deployed` flag is cleared |
| Services.WebHCatStep | savanna/plugins/hdp/services.py:356-369 | after the client appends, the first WebHCat server group is still the first; WebHCat needs the Zookeeper service exactly when that group lacks the Zookeeper client and no Zookeeper server runs; the outcome of each of the four paths |
| Augment.WebHCatComponentsFacts | savanna/plugins/hdp/services.py:356-369 | the server group keeps its list as a prefix and ends with all three clients; it gains only clients and the Zookeeper server, and the server exactly when the Zookeeper client was absent and no server runs |
| Augment.WebHCatComponentsNoDup | savanna/plugins/hdp/services.py:356-369 | a duplicate-free list stays duplicate-free, provided a Zookeeper server runs somewhere or the list does not already hold one |
| Augment.WebHCatComponentsIdempotent | savanna/plugins/hdp/services.py:356-369 | applying the component rule twice is the same as once |
| Augment.WebHCatDependencies | savanna/plugins/hdp/services.py:355-369 | the first server group ends with both clients and the Zookeeper client, and gains the Zookeeper server exactly when the step needs the Zookeeper service |
| Augment.WebHCatNeedsZookeeperAfterClients | savanna/plugins/hdp/services.py:360-363 | the need for a Zookeeper server is decided on the table after the client appends |
| Augment.WebHCatAugmentedAfterClients | savanna/plugins/hdp/services.py:360-369 | after the client appends, the step appends nothing, the client, or the server then the client, by the two checks |
| Augment.WebHCatKeepsServerGroups | savanna/plugins/hdp/services.py:353-354 | the step keeps the set of WebHCat server groups |
| Augment.WebHCatGrows | savanna/plugins/hdp/services.py:352-369 | lists only grow at the end, and only by the clients and the Zookeeper server |
| Augment.WebHCatIdempotent | savanna/plugins/hdp/services.py:352-369 | a second WebHCat step changes nothing and no longer needs Zookeeper |
| Augment.AugmentedGrows | savanna/plugins/hdp/services.py:57-58 | every variant's step, the base no-op included, only appends its own component names at the end of lists, and changes no instance count |
| Augment.AugmentedIdempotent | savanna/plugins/hdp/services.py:57-58 | every variant's step is idempotent (for Hive when its server group has instances) and afterwards needs no Zookeeper service |
| Augment.GrowsFrame | savanna/plugins/hdp/services.py:279-283 | growing by some names leaves the groups listing any other component, and its instance count, as they were |
| Services.NgOutcome | savanna/plugins/hdp/services.py:283-286 | the step succeeds exactly when the `[0]` group exists and, if the Zookeeper service is needed, it is found; on success the groups are the full augmentation |
| Services.FirstServiceNamed | savanna/plugins/hdp/services.py:284-285 | `next(...)` finds the first service with the name, or fails exactly when there is none |
| Services.Service.FinalizeNgComponents | savanna/plugins/hdp/services.py:57-58 | each variant's node groups, failure and `deployed` flags follow its outcome; the other variants change nothing |
| Config.HostTokenStepsWellFormed | savanna/plugins/hdp/services.py:106-107 | every host-token table names each section once and each property once |
| Config.HostStepEffect | savanna/plugins/hdp/services.py:104-109 | a block does nothing when no host runs the component; otherwise it puts the name of a host that runs it into exactly the listed properties |
| Services.Service.ReplaceHostToken | savanna/plugins/hdp/services.py:104-109 | one host-token block rewrites the configuration as the block's function states |
| Services.Service.HostTokenBlocks | savanna/plugins/hdp/services.py:234-253 | the blocks run in order, each on the configuration the previous one left |
| Services.Service.HdfsStorageDirs | savanna/plugins/hdp/services.py:123-141 | the node groups, configuration and failure end as the HDFS storage-directory rule states |
| Config.HdfsDirsWritten | savanna/plugins/hdp/services.py:133-136 | the same name directory goes under `hdfs-site` and `global`, built from the NameNode group's paths as they stand after the data rule |
| Config.HdfsDataDir | savanna/plugins/hdp/services.py:137-141 | when the DataNode groups share paths, both data keys hold those paths joined with the data subpath, and each path is on every DataNode group |
| Config.HdfsNoDataDir | savanna/plugins/hdp/services.py:137-141 | with no DataNode group, or no shared path, neither data key is touched |
| Config.HdfsSharedGroupDropsMount | savanna/plugins/hdp/services.py:124-134 | a group that is both the NameNode and the only DataNode group loses `/mnt` from its name directory too, because both read the same list |
| Services.Service.HdfsBlocks | savanna/plugins/hdp/services.py:103-141 | HDFS runs its two host-token blocks, writes the Swift pairs into `core-site`, then the storage directories |
| Services.Service.HdfsConfiguration | savanna/plugins/hdp/services.py:103-141 | HDFS `finalize_configuration` ends as the HDFS case of the finalisation function |
| Config.MapReduceDirs | savanna/plugins/hdp/services.py:194-203 | the MapReduce directory step never fails and adds no section |
| Config.MapReduceLocalDir | savanna/plugins/hdp/services.py:196-203 | with TaskTracker groups, both local-directory keys hold the joined common paths, which are `""` when there are none |
| Config.MapReduceNoTaskTracker | savanna/plugins/hdp/services.py:194-196 | with no TaskTracker group, nothing changes |
| Services.Service.MapReduceBlocks | savanna/plugins/hdp/services.py:181-203 | MapReduce runs the JobTracker block, then the local-directory rule |
| Services.Service.MapReduceConfiguration | savanna/plugins/hdp/services.py:181-203 | MapReduce `finalize_configuration` ends as the MapReduce case of the finalisation function |
| Services.Service.HostTokenConfiguration | savanna/plugins/hdp/services.py:330-350 | Hive's, WebHCat's and Oozie's `finalize_configuration` is their host-token blocks alone (also lines 234-253, 431-438) |
| Config.Finalized | savanna/plugins/hdp/services.py:124-125 | no section is added or removed; the step fails exactly for HDFS with no NameNode group, raising that failure with the node groups unchanged |
| Services.Service.FinalizeConfiguration | savanna/plugins/hdp/services.py:45-46 | each variant's `finalize_configuration` ends as the finalisation function states; the base and the other variants change nothing |
| Catalog.RegisterUserInputHandlers | savanna/plugins/hdp/services.py:255-259 | the variant's keys are added (also lines 467-471, 541-545), and every other key keeps its handler |
| Catalog.HandlersBelongToOwner | savanna/plugins/hdp/services.py:541-545 | every handler a variant registers is one of its own |
| Config.HandlerKeysOwners | savanna/plugins/hdp/services.py:261-273 | exactly the Hive and Oozie handlers write configuration |
| Config.HandlerConfigs | savanna/plugins/hdp/services.py:261-266 | a handler adds and removes no section |
| Config.HandlerWritesBoth | savanna/plugins/hdp/services.py:473-485 | the value lands under the site key and under the matching `global` key, and every other property stays as it was (also lines 261-273) |
| Services.Service.HandleConfigInput | savanna/plugins/hdp/services.py:261-273 | the Hive and Oozie handlers leave the configuration as the handler function states |
| Users.FirstNamed | savanna/plugins/hdp/services.py:550-551 | `next(...)` finds the first user with the name, or fails exactly when there is none |
| Users.RenameAdminEffect | savanna/plugins/hdp/services.py:550-554 | the rename fails exactly when no user is named `admin`; otherwise only the first such user is renamed, and it keeps its password |
| Users.SetPasswordEffect | savanna/plugins/hdp/services.py:556-559 | setting the password fails exactly when no user has the admin name; otherwise only the first such user takes the password |
| Users.RenameThenPassword | savanna/plugins/hdp/services.py:550-559 | after a rename, the password lands on the renamed user, provided no earlier user already had the new name |
| Users.RenameOnlyOnce | savanna/plugins/hdp/services.py:551-552 | the rename always looks for `admin`, so renaming the only admin makes a second rename fail |
| Services.Service.HandleAdminUser | savanna/plugins/hdp/services.py:550-554 | on success the users are renamed and the admin name becomes the value; on failure nothing changes |
| Services.Service.HandleAdminPassword | savanna/plugins/hdp/services.py:556-559 | on success the first user with the admin name takes the password; on failure nothing changes |
| Catalog.RegisterServiceUrls | savanna/plugins/hdp/services.py:143-152 | when no host runs the server, `pop()` fails and nothing is registered; otherwise the variant's endpoints go under its label (also lines 205-214, 458-465, 526-536), and every other label keeps its entry |
| Catalog.EndpointsNameHost | savanna/plugins/hdp/services.py:148-151 | every registered URL names the chosen server's address |
| Catalog.AmbariPort | savanna/plugins/hdp/services.py:530-531 | the console port is `server.port` of the `ambari` section, or `8080` when unset |
| Catalog.BootstrapCommands | savanna/plugins/hdp/services.py:289-313 | Hive and WebHCat run seven and six commands, and only once HDFS has started; every other variant runs none (also lines 371-393) |
| Catalog.BootstrapRunsAsHdfs | savanna/plugins/hdp/services.py:371-393 | every bootstrap command is a Hadoop file-system command run as the `hdfs` user |

The Oozie password key is modelled as written. It is
`oozie.service.JPAService.jdbc.password`, without the `oozie-site/` prefix
its sibling key has (line 470).

## Left out

- `pre_service_start` (lines 289-313, 371-393): the remote shell session is
  I/O and is not modelled. `Catalog.BootstrapCommands` gives the commands,
  their order and the guard on started HDFS. Which server runs them is not
  modelled.
- The Swift properties (lines 118-121, 157-158) come from a foreign call,
  so the model takes them as the parameter `swift` and writes them in order.
- `Service.__subclasses__()` (line 21) is reflection, so the model uses a
  fixed table of identifiers, `Catalog.KindOf`.
- `set.pop()` (lines 109, 116, 189 and the other blocks) picks an arbitrary
  host. Each block's host is a parameter in `picks`, and a block may use any
  host that runs the component. The `pop()` in `register_service_urls` is
  the parameter `ip`, which is none when no host runs the server.
- `dict.iteritems()` order (line 67): the model visits the sections in any
  order (`Services.PickOne`). Every order gives the same result, because
  the sections of one call are distinct.
- `list(set.intersection(...))` (line 77) has no defined order in Python.
  The model keeps the first group's order, and its lemmas state only which
  paths are common and that each appears once.
- Ganglia iterates `node_groups.values()` (line 505), a dict. The model
  visits the groups in table order; each group's append depends only on
  that group.
- `get_deployed_node_group_count`, `get_node_groups_containing_component`
  and `determine_component_hosts` belong to the cluster specification, which
  is not part of this model. They are defined in `Topology` by their
  meaning:
  - the sum of the instance counts of the groups listing the component;
  - those groups in table order;
  - the union of their hosts.
- A missing section or property is a `KeyError` in the source. The model
  requires them to be present (`PropsPresent`, `FinalizeReady`,
  `HandlerReady`), as the source demands of its callers.
- The `[0]` of an empty group list and the `StopIteration` of a failed
  `next(...)` are modelled as failures (`Config.Failure`).
- User and node-group objects are values. The model does not capture
  aliasing between them, beyond the one-group storage-path list that
  `_get_common_paths` shares with its group.
- Components are their names. `is_user_template_component` takes the name
  directly, not a component object.
- `adminUserName` exists only on the Ambari service in the source. The
  model gives every service the field, empty for the other variants.
- `ex.InvalidComponentCountException` is the datatype
  `Validation.Error`. The expected count is `1`, or the text `> 0` or `1+`,
  as the source gives it.
- Augment.HiveAugmented: no lemma states that Hive creates no duplicate. A
  dependency that a group with no instances already lists is appended
  again.
- Augment.WebHCatComponentsNoDup: holds only when a Zookeeper server runs
  or the WebHCat server group does not already list one. Line 368 appends
  the Zookeeper server with no `not in` test. Suppose the WebHCat server
  group already lists a Zookeeper server, lacks the Zookeeper client, and no
  instance runs a Zookeeper server anywhere. Then it gets a second Zookeeper
  server entry.

## Findings

| source | as written | input that shows it | evidently intended | confidence | as-written member | corrected member |
|---|---|---|---|---|---|---|
| savanna/plugins/hdp/services.py:455-456 | the MapReduce-client check sits after the client loop, so it only sees the `components` of the last client group visited (or the server group when there are none) | `Augment.OozieExample`: the server group, then two groups with the Oozie client only; the first client group gets the HDFS client but not the MapReduce client | as the comment on line 448 says, both clients on every group with the Oozie client | not executed | Augment.OozieAugmentedAsWritten, shown by Augment.OozieAsWrittenMissesClient | Augment.OozieAugmented, proved by Augment.OozieClientsColocated (also Augment.OozieGrows, Augment.OozieNoDup, Augment.OozieIdempotent) |
