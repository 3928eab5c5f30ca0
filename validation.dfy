/** The `validate` step of every variant: count checks on the deployed
    instances of its components that report the first violated check. */
module Validation {
  import opened Wrappers
  import opened Topology
  import opened Catalog

  /** The expected-count argument of the error: the number 1, or the text
      the source passes for "at least one" (`'> 0'`, `'1+'`). */
  datatype Expected = Exactly(n: nat) | AtLeastOne(text: string)

  /** `InvalidComponentCountException(component, expected, count)`. */
  datatype Error = InvalidComponentCount(component: string, expected: Expected, actual: nat)

  /** One placement rule of the table a variant must meet. */
  datatype Rule = ExactlyOne(component: string) | SomeOf(component: string, text: string)

  /** The placement rules of each variant, in the order they are checked. */
  function Rules(k: Kind): seq<Rule>
  {
    match k
    case Hdfs => [ExactlyOne("NAMENODE")]
    case MapReduce => [ExactlyOne("JOBTRACKER"), SomeOf("TASKTRACKER", "> 0")]
    case Hive => [ExactlyOne("HIVE_SERVER")]
    case WebHCat => [ExactlyOne("WEBHCAT_SERVER")]
    case Zookeeper => [ExactlyOne("ZOOKEEPER_SERVER")]
    case Oozie => [ExactlyOne("OOZIE_SERVER"), SomeOf("OOZIE_CLIENT", "1+")]
    case Ganglia => [ExactlyOne("GANGLIA_SERVER")]
    case Ambari => [ExactlyOne("AMBARI_SERVER")]
    case _ => []
  }

  predicate Holds(rule: Rule, groups: seq<NodeGroup>)
  {
    match rule
    case ExactlyOne(c) => DeployedCount(groups, c) == 1
    case SomeOf(c, _) => DeployedCount(groups, c) > 0
  }

  function Violation(rule: Rule, groups: seq<NodeGroup>): Error
  {
    match rule
    case ExactlyOne(c) => InvalidComponentCount(c, Exactly(1), DeployedCount(groups, c))
    case SomeOf(c, text) => InvalidComponentCount(c, AtLeastOne(text), DeployedCount(groups, c))
  }

  /** The error for the first rule that does not hold, if any. */
  function FirstViolation(rules: seq<Rule>, groups: seq<NodeGroup>): Option<Error>
    decreases |rules|
  {
    if |rules| == 0 then None
    else if !Holds(rules[0], groups) then Some(Violation(rules[0], groups))
    else FirstViolation(rules[1..], groups)
  }

  /** Exactly one instance of `c`. */
  function RequireOne(groups: seq<NodeGroup>, c: string): Option<Error>
  {
    var count := DeployedCount(groups, c);
    if count != 1 then Some(InvalidComponentCount(c, Exactly(1), count)) else None
  }

  /** At least one instance of `c`. */
  function RequireSome(groups: seq<NodeGroup>, c: string, text: string): Option<Error>
  {
    var count := DeployedCount(groups, c);
    if count == 0 then Some(InvalidComponentCount(c, AtLeastOne(text), count)) else None
  }

  /** `validate(cluster_spec, cluster)` of each variant; `None` where the
      source returns normally, the raised error otherwise. */
  function Validate(k: Kind, groups: seq<NodeGroup>): Option<Error>
  {
    match k
    case Hdfs => RequireOne(groups, "NAMENODE")
    case MapReduce =>
      if RequireOne(groups, "JOBTRACKER").Some? then RequireOne(groups, "JOBTRACKER")
      else RequireSome(groups, "TASKTRACKER", "> 0")
    case Hive => RequireOne(groups, "HIVE_SERVER")
    case WebHCat => RequireOne(groups, "WEBHCAT_SERVER")
    case Zookeeper => RequireOne(groups, "ZOOKEEPER_SERVER")
    case Oozie =>
      if RequireOne(groups, "OOZIE_SERVER").Some? then RequireOne(groups, "OOZIE_SERVER")
      else RequireSome(groups, "OOZIE_CLIENT", "1+")
    case Ganglia => RequireOne(groups, "GANGLIA_SERVER")
    case Ambari => RequireOne(groups, "AMBARI_SERVER")
    case Sqoop => None
    case Generic => None
  }

  /** Every variant's `validate` reports exactly the first rule of its table
      that the topology breaks. */
  lemma ValidateFollowsRules(k: Kind, groups: seq<NodeGroup>)
    ensures Validate(k, groups) == FirstViolation(Rules(k), groups)
  {
    var rules := Rules(k);
    if |rules| == 2 {
      var tail := rules[1..];
      assert tail == [rules[1]] && tail[1..] == [];
      assert FirstViolation(tail, groups) ==
        if !Holds(rules[1], groups) then Some(Violation(rules[1], groups)) else None;
    } else if |rules| == 1 {
      assert rules[1..] == [];
    }
  }

  lemma {:induction false} FirstViolationNone(rules: seq<Rule>, groups: seq<NodeGroup>)
    ensures FirstViolation(rules, groups).None? <==> forall i :: 0 <= i < |rules| ==> Holds(rules[i], groups)
    decreases |rules|
  {
    if |rules| > 0 {
      FirstViolationNone(rules[1..], groups);
      assert forall i :: 1 <= i < |rules| ==> rules[i] == rules[1..][i - 1];
    }
  }

  /** Validation passes exactly when every rule of the variant holds. */
  lemma ValidateSucceedsIff(k: Kind, groups: seq<NodeGroup>)
    ensures Validate(k, groups).None? <==> forall i :: 0 <= i < |Rules(k)| ==> Holds(Rules(k)[i], groups)
  {
    ValidateFollowsRules(k, groups);
    FirstViolationNone(Rules(k), groups);
  }

  /** The single-server variants and the component they count. */
  function SingleServer(k: Kind): Option<string>
  {
    match k
    case Hdfs => Some("NAMENODE")
    case Hive => Some("HIVE_SERVER")
    case WebHCat => Some("WEBHCAT_SERVER")
    case Zookeeper => Some("ZOOKEEPER_SERVER")
    case Ganglia => Some("GANGLIA_SERVER")
    case Ambari => Some("AMBARI_SERVER")
    case _ => None
  }

  /** HDFS, Hive, WebHCat, Zookeeper, Ganglia and Ambari fail with
      `(component, 1, count)` exactly when the count is not 1. */
  lemma SingleServerRule(k: Kind, groups: seq<NodeGroup>)
    requires SingleServer(k).Some?
    ensures var c := SingleServer(k).value;
      Validate(k, groups) ==
        if DeployedCount(groups, c) != 1
        then Some(InvalidComponentCount(c, Exactly(1), DeployedCount(groups, c)))
        else None
  {
  }

  /** The server and client components of the two-rule variants. */
  function ServerAndClient(k: Kind): Option<(string, string, string)>
  {
    match k
    case MapReduce => Some(("JOBTRACKER", "TASKTRACKER", "> 0"))
    case Oozie => Some(("OOZIE_SERVER", "OOZIE_CLIENT", "1+"))
    case _ => None
  }

  /** MapReduce and Oozie check the server first: a bad server count is
      reported whatever the client count, the client is reported only once
      the server is right, and they pass exactly when there is one server
      and at least one client. */
  lemma ServerBeforeClient(k: Kind, groups: seq<NodeGroup>)
    requires ServerAndClient(k).Some?
    ensures var (server, client, text) := ServerAndClient(k).value;
      && (DeployedCount(groups, server) != 1 ==>
            Validate(k, groups) == Some(InvalidComponentCount(server, Exactly(1), DeployedCount(groups, server))))
      && (DeployedCount(groups, server) == 1 && DeployedCount(groups, client) == 0 ==>
            Validate(k, groups) == Some(InvalidComponentCount(client, AtLeastOne(text), 0)))
      && (Validate(k, groups).None? <==> DeployedCount(groups, server) == 1 && DeployedCount(groups, client) > 0)
  {
  }

  /** Every mandatory variant has at least one placement rule. */
  lemma MandatoryHaveRules(k: Kind)
    requires IsMandatory(k)
    ensures |Rules(k)| >= 1
  {
  }
}
