/** The fixed set of service variants and their static facts: identifiers,
    owned configuration sections, whether they are mandatory, which of their
    components are shown to users, their user-input routing keys, their
    endpoint URLs and their post-start bootstrap commands. */
module Catalog {
  import opened Wrappers

  /** One tag per service class; `Generic` is the base `Service` used for an
      identifier no variant claims. */
  datatype Kind = Hdfs | MapReduce | Hive | WebHCat | Zookeeper | Oozie | Ganglia | Ambari | Sqoop | Generic

  /** `get_service_id()` of each variant. */
  function ServiceId(k: Kind): string
    requires k != Generic
  {
    match k
    case Hdfs => "HDFS"
    case MapReduce => "MAPREDUCE"
    case Hive => "HIVE"
    case WebHCat => "WEBHCAT"
    case Zookeeper => "ZOOKEEPER"
    case Oozie => "OOZIE"
    case Ganglia => "GANGLIA"
    case Ambari => "AMBARI"
    case Sqoop => "SQOOP"
  }

  /** The lookup of `create_service`: the variant whose identifier is `name`,
      or the base service when none is. */
  function KindOf(name: string): (k: Kind)
    ensures k != Generic ==> ServiceId(k) == name
    ensures k == Generic ==> forall v: Kind :: v != Generic ==> ServiceId(v) != name
  {
    if name == "HDFS" then Hdfs
    else if name == "MAPREDUCE" then MapReduce
    else if name == "HIVE" then Hive
    else if name == "WEBHCAT" then WebHCat
    else if name == "ZOOKEEPER" then Zookeeper
    else if name == "OOZIE" then Oozie
    else if name == "GANGLIA" then Ganglia
    else if name == "AMBARI" then Ambari
    else if name == "SQOOP" then Sqoop
    else Generic
  }

  /** Every variant is found again from its own identifier. */
  lemma KindOfServiceId(k: Kind)
    requires k != Generic
    ensures KindOf(ServiceId(k)) == k
  {
  }

  /** The section a variant adds to the base `global` and `core-site`. */
  function ExtraSection(k: Kind): Option<string>
  {
    match k
    case Hdfs => Some("hdfs-site")
    case MapReduce => Some("mapred-site")
    case Hive => Some("hive-site")
    case WebHCat => Some("webhcat-site")
    case Oozie => Some("oozie-site")
    case Ambari => Some("ambari")
    case _ => None
  }

  /** The `configurations` set of a freshly created service. */
  function Sections(k: Kind): (r: set<string>)
    ensures {"global", "core-site"} <= r
    ensures |r| == if k in {Zookeeper, Ganglia, Sqoop, Generic} then 2 else 3
  {
    var base := {"global", "core-site"};
    match ExtraSection(k)
    case Some(s) => base + {s}
    case None => base
  }

  /** `is_mandatory()`. */
  function IsMandatory(k: Kind): (r: bool)
    ensures r <==> k in {Hdfs, MapReduce, Ambari}
  {
    k == Hdfs || k == MapReduce || k == Ambari
  }

  /** `is_user_template_component(component)`: the monitoring agent and the
      management agent are hidden from users. */
  function IsUserTemplateComponent(k: Kind, component: string): (r: bool)
    ensures !r <==> (k == Ganglia && component == "GANGLIA_MONITOR") || (k == Ambari && component == "AMBARI_AGENT")
  {
    match k
    case Ganglia => component != "GANGLIA_MONITOR"
    case Ambari => component != "AMBARI_AGENT"
    case _ => true
  }

  /** The bound handler methods a variant registers for user input. */
  datatype Handler = MetastoreUser | MetastorePassword | OozieDbUser | OozieDbPassword | AdminUser | AdminPassword

  /** The owner of each handler. */
  function HandlerOwner(h: Handler): Kind
  {
    match h
    case MetastoreUser => Hive
    case MetastorePassword => Hive
    case OozieDbUser => Oozie
    case OozieDbPassword => Oozie
    case AdminUser => Ambari
    case AdminPassword => Ambari
  }

  /** The entries `register_user_input_handlers` puts in the routing table.
      The Oozie password key carries no `oozie-site/` prefix, as in the
      source. */
  function HandlerEntries(k: Kind): map<string, Handler>
  {
    match k
    case Hive => map["hive-site/javax.jdo.option.ConnectionUserName" := MetastoreUser,
                     "hive-site/javax.jdo.option.ConnectionPassword" := MetastorePassword]
    case Oozie => map["oozie-site/oozie.service.JPAService.jdbc.username" := OozieDbUser,
                      "oozie.service.JPAService.jdbc.password" := OozieDbPassword]
    case Ambari => map["ambari-stack/ambari.admin.user" := AdminUser,
                       "ambari-stack/ambari.admin.password" := AdminPassword]
    case _ => map[]
  }

  /** `register_user_input_handlers(ui_handlers)`: the variant's entries are
      added (replacing entries under the same keys); nothing else changes. */
  function RegisterUserInputHandlers(k: Kind, table: map<string, Handler>): (r: map<string, Handler>)
    ensures r.Keys == table.Keys + HandlerEntries(k).Keys
    ensures forall key :: key in HandlerEntries(k) ==> r[key] == HandlerEntries(k)[key]
    ensures forall key :: key in table && key !in HandlerEntries(k) ==> r[key] == table[key]
  {
    table + HandlerEntries(k)
  }

  /** Every handler a variant registers is one of its own methods. */
  lemma HandlersBelongToOwner(k: Kind, key: string)
    requires key in HandlerEntries(k)
    ensures HandlerOwner(HandlerEntries(k)[key]) == k
  {
  }

  /** The key under which `register_service_urls` files a variant's
      endpoints, for the variants that have any. */
  function UrlLabel(k: Kind): Option<string>
  {
    match k
    case Hdfs => Some("HDFS")
    case MapReduce => Some("MapReduce")
    case Oozie => Some("JobFlow")
    case Ambari => Some("Ambari Console")
    case _ => None
  }

  /** The component whose host the endpoints point at. */
  function UrlComponent(k: Kind): string
    requires UrlLabel(k).Some?
  {
    match k
    case Hdfs => "NAMENODE"
    case MapReduce => "JOBTRACKER"
    case Oozie => "OOZIE_SERVER"
    case Ambari => "AMBARI_SERVER"
  }

  /** The endpoints of a variant whose server has management address `ip`;
      `port` is the Ambari console port. */
  function Endpoints(k: Kind, ip: string, port: string): map<string, string>
    requires UrlLabel(k).Some?
  {
    match k
    case Hdfs => map["Web UI" := "http://" + ip + ":50070", "NameNode" := "hdfs://" + ip + ":8020"]
    case MapReduce => map["Web UI" := "http://" + ip + ":50030", "JobTracker" := ip + ":50300"]
    case Oozie => map["Oozie" := "http://" + ip + ":11000"]
    case Ambari => map["Web UI" := "http://" + ip + ":" + port]
  }

  /** Every URL a variant registers names the chosen server's address. */
  lemma EndpointsNameHost(k: Kind, ip: string, port: string, title: string)
    requires UrlLabel(k).Some? && title in Endpoints(k, ip, port)
    ensures exists pre, post :: Endpoints(k, ip, port)[title] == pre + ip + post
  {
    var url := Endpoints(k, ip, port)[title];
    if k == Hdfs && title == "Web UI" {
      assert url == "http://" + ip + ":50070";
    } else if k == Hdfs {
      assert url == "hdfs://" + ip + ":8020";
    } else if k == MapReduce && title == "Web UI" {
      assert url == "http://" + ip + ":50030";
    } else if k == MapReduce {
      assert url == "" + ip + ":50300";
    } else if k == Oozie {
      assert url == "http://" + ip + ":11000";
    } else {
      assert url == "http://" + ip + (":" + port);
    }
  }

  /** `register_service_urls(cluster_spec, url_info)`: `ip` is the address
      of the host `pop()` takes from the server's hosts, none when no host
      runs the server, where `pop()` raises `KeyError` and nothing is
      registered.  Otherwise the variant's endpoints are filed under its
      label and every other label keeps its entry; a variant without a
      label pops nothing and changes nothing. */
  function RegisterServiceUrls(k: Kind, urlInfo: map<string, map<string, string>>, ip: Option<string>, port: string)
    : (r: Option<map<string, map<string, string>>>)
    ensures UrlLabel(k).None? ==> r == Some(urlInfo)
    ensures UrlLabel(k).Some? ==> (r.None? <==> ip.None?)
    ensures r.Some? && UrlLabel(k).Some? ==> r.value.Keys == urlInfo.Keys + {UrlLabel(k).value}
    ensures r.Some? ==> forall title :: title in urlInfo && Some(title) != UrlLabel(k) ==> r.value[title] == urlInfo[title]
    ensures r.Some? && UrlLabel(k).Some? ==> r.value[UrlLabel(k).value] == Endpoints(k, ip.value, port)
  {
    match UrlLabel(k)
    case Some(title) =>
      (match ip
       case None => None
       case Some(addr) => Some(urlInfo[title := Endpoints(k, addr, port)]))
    case None => Some(urlInfo)
  }

  /** The port of the Ambari console: `server.port` of the `ambari` section,
      8080 when it is not set. */
  function AmbariPort(ambari: map<string, string>): (r: string)
    ensures "server.port" !in ambari ==> r == "8080"
    ensures "server.port" in ambari ==> r == ambari["server.port"]
  {
    if "server.port" in ambari then ambari["server.port"] else "8080"
  }

  /** A Hadoop file-system command run as the `hdfs` user. */
  function AsHdfs(fsArgs: string): string
  {
    "su -c \"hadoop fs " + fsArgs + "\" -s /bin/sh hdfs"
  }

  /** The directories Hive needs in HDFS, with their owners and modes. */
  const HiveDirectoryArgs: seq<string> := [
    "-mkdir /user/hive",
    "-chown -R hive:hdfs /user/hive",
    "-mkdir /apps/hive",
    "-chmod -R 755 /apps/hive",
    "-mkdir /apps/hive/warehouse",
    "-chown -R hive:hdfs /apps/hive/warehouse",
    "-chmod -R 777 /apps/hive/warehouse"]

  /** The directories WebHCat needs in HDFS, with their owners and modes. */
  const WebHCatDirectoryArgs: seq<string> := [
    "-mkdir /user/hcat",
    "-chown -R hcat:hdfs /user/hcat",
    "-chmod -R 755 /user/hcat",
    "-mkdir /apps/webhcat",
    "-chown -R hcat:hdfs /apps/webhcat",
    "-chmod -R 755 /apps/webhcat"]

  function AllAsHdfs(args: seq<string>): (r: seq<string>)
    ensures |r| == |args|
  {
    seq(|args|, i requires 0 <= i < |args| => AsHdfs(args[i]))
  }

  /** `pre_service_start`: the shell commands Hive and WebHCat run on one
      server to create their HDFS directories, and only once HDFS has
      started; every other variant runs none. */
  function BootstrapCommands(k: Kind, startedServices: set<string>): (r: seq<string>)
    ensures "HDFS" !in startedServices ==> r == []
    ensures k != Hive && k != WebHCat ==> r == []
    ensures "HDFS" in startedServices && k == Hive ==> |r| == 7
    ensures "HDFS" in startedServices && k == WebHCat ==> |r| == 6
  {
    if "HDFS" !in startedServices then []
    else
      match k
      case Hive => AllAsHdfs(HiveDirectoryArgs)
      case WebHCat => AllAsHdfs(WebHCatDirectoryArgs)
      case _ => []
  }

  /** Every bootstrap command is a Hadoop file-system command run as the
      `hdfs` user. */
  lemma BootstrapRunsAsHdfs(k: Kind, startedServices: set<string>, i: nat)
    requires i < |BootstrapCommands(k, startedServices)|
    ensures exists fsArgs :: BootstrapCommands(k, startedServices)[i] == AsHdfs(fsArgs)
  {
    var args := if k == Hive then HiveDirectoryArgs else WebHCatDirectoryArgs;
    assert BootstrapCommands(k, startedServices)[i] == AsHdfs(args[i]);
  }
}
