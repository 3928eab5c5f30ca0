/** The slice of the cluster specification the services read and write:
    node groups with their components, storage paths, instance counts and
    hosts.  The counting and lookup helpers stand for the cluster
    specification's own `get_deployed_node_group_count`,
    `get_node_groups_containing_component` and `determine_component_hosts`,
    which are not part of this model; their meaning is fixed here as stated
    on each function. */
module Topology {

  /** An instance of a node group: its fully qualified name and the IP
      address the management console reaches it on. */
  datatype Host = Host(fqdn: string, managementIp: string)

  /** A node group: the ordered component names placed on it, the base
      storage paths of its instances, how many instances it has and which
      hosts they are. */
  datatype NodeGroup = NodeGroup(
    name: string,
    components: seq<string>,
    storagePaths: seq<string>,
    count: nat,
    hosts: seq<Host>)

  /** Number of instances that run component `c`: the sum of the instance
      counts of the node groups that list `c`. */
  function DeployedCount(groups: seq<NodeGroup>, c: string): nat
    decreases |groups|
  {
    if |groups| == 0 then 0
    else
      var last := groups[|groups| - 1];
      DeployedCount(groups[..|groups| - 1], c) + (if c in last.components then last.count else 0)
  }

  /** Indices of the node groups that list component `c`, in table order. */
  function GroupsContaining(groups: seq<NodeGroup>, c: string): (r: seq<nat>)
    ensures forall k :: 0 <= k < |r| ==> r[k] < |groups| && c in groups[r[k]].components
    ensures forall i :: 0 <= i < |groups| && c in groups[i].components ==> i in r
    ensures forall k, l :: 0 <= k < l < |r| ==> r[k] < r[l]
    decreases |groups|
  {
    if |groups| == 0 then []
    else
      var n := |groups| - 1;
      var earlier := GroupsContaining(groups[..n], c);
      if c in groups[n].components then earlier + [n] else earlier
  }

  /** The hosts that run component `c`: every host of every node group
      listing `c`. */
  function ComponentHosts(groups: seq<NodeGroup>, c: string): (r: set<Host>)
    ensures forall h :: h in r <==> exists i :: 0 <= i < |groups| && c in groups[i].components && h in groups[i].hosts
    decreases |groups|
  {
    if |groups| == 0 then {}
    else
      var n := |groups| - 1;
      var here := if c in groups[n].components then (set h | h in groups[n].hosts) else {};
      ComponentHosts(groups[..n], c) + here
  }

  /** Two topologies agree on component `c`: same number of groups, same
      instance counts, same groups listing `c`. */
  predicate SameFor(groups: seq<NodeGroup>, other: seq<NodeGroup>, c: string)
  {
    |groups| == |other| &&
    forall i :: 0 <= i < |groups| ==>
      groups[i].count == other[i].count && (c in groups[i].components <==> c in other[i].components)
  }

  /** Some instance runs `c` exactly when a node group with at least one
      instance lists `c`. */
  lemma {:induction false} DeployedCountPositive(groups: seq<NodeGroup>, c: string)
    ensures DeployedCount(groups, c) > 0
        <==> exists i :: 0 <= i < |groups| && c in groups[i].components && groups[i].count > 0
    decreases |groups|
  {
    if |groups| > 0 {
      var n := |groups| - 1;
      DeployedCountPositive(groups[..n], c);
      if exists i :: 0 <= i < n && c in groups[..n][i].components && groups[..n][i].count > 0 {
        var i :| 0 <= i < n && c in groups[..n][i].components && groups[..n][i].count > 0;
        assert groups[i] == groups[..n][i];
      }
      if exists i :: 0 <= i < |groups| && c in groups[i].components && groups[i].count > 0 {
        var i :| 0 <= i < |groups| && c in groups[i].components && groups[i].count > 0;
        if i < n {
          assert groups[..n][i] == groups[i];
        }
      }
    }
  }

  /** The count of `c` depends only on the instance counts and on which
      groups list `c`. */
  lemma {:induction false} DeployedCountFrame(groups: seq<NodeGroup>, other: seq<NodeGroup>, c: string)
    requires SameFor(groups, other, c)
    ensures DeployedCount(groups, c) == DeployedCount(other, c)
    decreases |groups|
  {
    if |groups| > 0 {
      var n := |groups| - 1;
      assert SameFor(groups[..n], other[..n], c) by {
        forall i | 0 <= i < n
          ensures groups[..n][i] == groups[i] && other[..n][i] == other[i]
        {
        }
      }
      DeployedCountFrame(groups[..n], other[..n], c);
    }
  }

  /** Which groups list `c` depends only on which groups list `c`. */
  lemma {:induction false} GroupsContainingFrame(groups: seq<NodeGroup>, other: seq<NodeGroup>, c: string)
    requires |groups| == |other|
    requires forall i :: 0 <= i < |groups| ==> (c in groups[i].components <==> c in other[i].components)
    ensures GroupsContaining(groups, c) == GroupsContaining(other, c)
    decreases |groups|
  {
    if |groups| > 0 {
      var n := |groups| - 1;
      forall i | 0 <= i < n
        ensures (c in groups[..n][i].components <==> c in other[..n][i].components)
      {
        assert groups[..n][i] == groups[i] && other[..n][i] == other[i];
      }
      GroupsContainingFrame(groups[..n], other[..n], c);
    }
  }

  /** The first group that lists `c` comes before every other such group. */
  lemma FirstContaining(groups: seq<NodeGroup>, c: string, i: nat)
    requires i < |groups| && c in groups[i].components
    ensures GroupsContaining(groups, c) != [] && GroupsContaining(groups, c)[0] <= i
  {
    var r := GroupsContaining(groups, c);
    assert i in r;
    var k :| 0 <= k < |r| && r[k] == i;
    assert k == 0 || r[0] < r[k];
  }

  /** ... and the last one after every other such group. */
  lemma LastContaining(groups: seq<NodeGroup>, c: string, i: nat)
    requires i < |groups| && c in groups[i].components
    ensures GroupsContaining(groups, c) != []
    ensures i <= GroupsContaining(groups, c)[|GroupsContaining(groups, c)| - 1]
  {
    var r := GroupsContaining(groups, c);
    assert i in r;
    var k :| 0 <= k < |r| && r[k] == i;
    assert k == |r| - 1 || r[k] < r[|r| - 1];
  }
}
