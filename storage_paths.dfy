/** The storage-path resolver shared by the HDFS and MapReduce services:
    the base paths a component may use across the node groups that host it,
    and the comma-joined directory value written into the configuration. */
module StoragePaths {
  import opened Strings
  import opened Topology

  /** The default ephemeral mount, dropped when other paths are available. */
  const DefaultMount := "/mnt"

  /** `list.remove(x)`: drops the first occurrence of `x`. */
  function RemoveFirst(ps: seq<string>, x: string): (r: seq<string>)
    requires x in ps
    ensures |r| == |ps| - 1
    ensures multiset(r) == multiset(ps) - multiset{x}
  {
    if ps[0] == x then
      assert ps == [ps[0]] + ps[1..];
      ps[1..]
    else
      assert ps == [ps[0]] + ps[1..];
      [ps[0]] + RemoveFirst(ps[1..], x)
  }

  /** The `/mnt` rule: with more than one path and `/mnt` among them, one
      `/mnt` is removed; otherwise the list is kept as it is. */
  function DropDefaultMount(ps: seq<string>): (r: seq<string>)
    ensures |ps| <= 1 || DefaultMount !in ps ==> r == ps
    ensures |ps| > 1 && DefaultMount in ps ==>
      |r| == |ps| - 1 && multiset(r) == multiset(ps) - multiset{DefaultMount}
  {
    if |ps| > 1 && DefaultMount in ps then RemoveFirst(ps, DefaultMount) else ps
  }

  predicate ValidIndices(groups: seq<NodeGroup>, idx: seq<nat>)
  {
    forall k :: 0 <= k < |idx| ==> idx[k] < |groups|
  }

  /** Path `p` is a storage path of every indexed group. */
  predicate InAll(groups: seq<NodeGroup>, idx: seq<nat>, p: string)
    requires ValidIndices(groups, idx)
  {
    forall k :: 0 <= k < |idx| ==> p in groups[idx[k]].storagePaths
  }

  function KeepCommon(ps: seq<string>, groups: seq<NodeGroup>, idx: seq<nat>): (r: seq<string>)
    requires ValidIndices(groups, idx)
    ensures forall p :: p in r <==> p in ps && InAll(groups, idx, p)
    decreases |ps|
  {
    if |ps| == 0 then []
    else
      var n := |ps| - 1;
      var earlier := KeepCommon(ps[..n], groups, idx);
      assert forall p :: p in ps <==> p in ps[..n] || p == ps[n] by {
        assert ps == ps[..n] + [ps[n]];
      }
      if InAll(groups, idx, ps[n]) then earlier + [ps[n]] else earlier
  }

  /** First occurrences only, in order. */
  function Distinct(ps: seq<string>): (r: seq<string>)
    ensures forall p :: p in r <==> p in ps
    ensures NoDup(r)
    decreases |ps|
  {
    if |ps| == 0 then []
    else
      var n := |ps| - 1;
      var earlier := Distinct(ps[..n]);
      assert forall p :: p in ps <==> p in ps[..n] || p == ps[n] by {
        assert ps == ps[..n] + [ps[n]];
      }
      if ps[n] in earlier then earlier else earlier + [ps[n]]
  }

  /** `list(set.intersection(*sets))`.  Python leaves the order of the
      resulting list unspecified; the model lists the paths in the order of
      the first group, once each. */
  function Intersection(groups: seq<NodeGroup>, idx: seq<nat>): (r: seq<string>)
    requires |idx| > 0 && ValidIndices(groups, idx)
    ensures forall p :: p in r <==> InAll(groups, idx, p)
    ensures NoDup(r)
  {
    Distinct(KeepCommon(groups[idx[0]].storagePaths, groups, idx))
  }

  /** `_get_common_paths(node_groups)` for the groups at `idx`: one group's
      path list verbatim, or the intersection of several, then the `/mnt`
      rule. */
  function CommonPaths(groups: seq<NodeGroup>, idx: seq<nat>): seq<string>
    requires |idx| > 0 && ValidIndices(groups, idx)
  {
    if |idx| == 1 then DropDefaultMount(groups[idx[0]].storagePaths)
    else DropDefaultMount(Intersection(groups, idx))
  }

  /** The topology after `_get_common_paths`: with a single group the result
      is that group's own list object, so dropping `/mnt` also changes the
      group's storage paths; with several groups nothing changes. */
  function AfterCommonPaths(groups: seq<NodeGroup>, idx: seq<nat>): (r: seq<NodeGroup>)
    requires |idx| > 0 && ValidIndices(groups, idx)
    ensures |r| == |groups|
    ensures forall i :: 0 <= i < |groups| ==>
      r[i].components == groups[i].components && r[i].count == groups[i].count && r[i].hosts == groups[i].hosts
  {
    if |idx| == 1 then groups[idx[0] := groups[idx[0]].(storagePaths := CommonPaths(groups, idx))]
    else groups
  }

  /** Each base path with the service subpath appended. */
  function Suffixed(ps: seq<string>, suffix: string): (r: seq<string>)
  {
    seq(|ps|, i requires 0 <= i < |ps| => ps[i] + suffix)
  }

  /** `_generate_storage_path(storage_paths, path)`. */
  function GenerateStoragePath(ps: seq<string>, suffix: string): (r: string)
    ensures ps == [] ==> r == ""
  {
    Join(Suffixed(ps, suffix), ",")
  }

  /** Every common path is a storage path of every group it was computed
      from. */
  lemma CommonPathsWithin(groups: seq<NodeGroup>, idx: seq<nat>, k: nat, p: string)
    requires |idx| > 0 && ValidIndices(groups, idx) && k < |idx|
    requires p in CommonPaths(groups, idx)
    ensures p in groups[idx[k]].storagePaths
  {
    if |idx| == 1 {
      DropDefaultMountWithin(groups[idx[0]].storagePaths, p);
    } else {
      var base := Intersection(groups, idx);
      DropDefaultMountWithin(base, p);
      assert InAll(groups, idx, p);
    }
  }

  lemma DropDefaultMountWithin(ps: seq<string>, p: string)
    requires p in DropDefaultMount(ps)
    ensures p in ps
  {
    assert p in multiset(DropDefaultMount(ps));
  }

  /** With several groups the common paths are exactly the paths every group
      has, once each, except that `/mnt` goes when it is not alone. */
  lemma CommonPathsOfSeveral(groups: seq<NodeGroup>, idx: seq<nat>, p: string)
    requires |idx| > 1 && ValidIndices(groups, idx)
    ensures NoDup(CommonPaths(groups, idx))
    ensures p in CommonPaths(groups, idx) <==>
      InAll(groups, idx, p) && (p != DefaultMount || |Intersection(groups, idx)| <= 1)
  {
    var s := Intersection(groups, idx);
    var r := CommonPaths(groups, idx);
    if |s| > 1 && DefaultMount in s {
      assert r == RemoveFirst(s, DefaultMount);
      assert forall q :: q in r <==> q in multiset(r);
      assert multiset(s)[DefaultMount] == 1 by { NoDupOnce(s, DefaultMount); }
      forall i, j | 0 <= i < j < |r| ensures r[i] != r[j] {
        if r[i] == r[j] {
          assert multiset(r)[r[i]] >= 2 by { TwoPositions(r, i, j); }
          assert multiset(s)[r[i]] >= 2;
          NoDupOnce(s, r[i]);
        }
      }
    }
  }

  lemma {:induction false} NoDupOnce(s: seq<string>, x: string)
    requires NoDup(s) && x in s
    ensures multiset(s)[x] == 1
    decreases |s|
  {
    assert s == [s[0]] + s[1..];
    if s[0] == x {
      assert x !in s[1..] by {
        forall j | 0 <= j < |s[1..]| ensures s[1..][j] != x { assert s[1..][j] == s[j + 1]; }
      }
    } else {
      NoDupOnce(s[1..], x);
    }
  }

  lemma TwoPositions(r: seq<string>, i: nat, j: nat)
    requires i < j < |r| && r[i] == r[j]
    ensures multiset(r)[r[i]] >= 2
  {
    assert r == r[..i] + [r[i]] + r[i + 1..j] + [r[j]] + r[j + 1..];
  }

  /** With one group whose paths are not subject to the `/mnt` rule, that
      group's list comes back verbatim; a lone `/mnt` therefore survives. */
  lemma SingleGroupVerbatim(groups: seq<NodeGroup>, idx: seq<nat>)
    requires |idx| == 1 && ValidIndices(groups, idx)
    requires |groups[idx[0]].storagePaths| <= 1 || DefaultMount !in groups[idx[0]].storagePaths
    ensures CommonPaths(groups, idx) == groups[idx[0]].storagePaths
    ensures AfterCommonPaths(groups, idx) == groups
  {
  }

  /** Two groups with `{/mnt, /data1}` and `{/mnt, /data1, /data2}` share
      `/mnt` and `/data1`; as `/mnt` is not alone it is dropped. */
  lemma TwoGroupsExample(h: seq<Host>)
    ensures var groups := [NodeGroup("a", [], ["/mnt", "/data1"], 1, h),
                           NodeGroup("b", [], ["/mnt", "/data1", "/data2"], 1, h)];
            CommonPaths(groups, [0, 1]) == ["/data1"]
  {
    var groups := [NodeGroup("a", [], ["/mnt", "/data1"], 1, h),
                   NodeGroup("b", [], ["/mnt", "/data1", "/data2"], 1, h)];
    var idx: seq<nat> := [0, 1];
    var both := ["/mnt", "/data1"];
    TwoGroupsCommon(groups, idx);
    DistinctOfTwo(both);
    assert Intersection(groups, idx) == both;
    assert RemoveFirst(both, "/mnt") == ["/data1"];
  }

  lemma TwoGroupsCommon(groups: seq<NodeGroup>, idx: seq<nat>)
    requires |idx| == 2 && ValidIndices(groups, idx)
    requires groups[idx[0]].storagePaths == ["/mnt", "/data1"]
    requires "/mnt" in groups[idx[1]].storagePaths && "/data1" in groups[idx[1]].storagePaths
    ensures KeepCommon(groups[idx[0]].storagePaths, groups, idx) == ["/mnt", "/data1"]
  {
    var ps := groups[idx[0]].storagePaths;
    assert InAll(groups, idx, "/mnt") && InAll(groups, idx, "/data1");
    assert ps[..1] == ["/mnt"] && ps[..1][..0] == [];
    assert KeepCommon(ps[..1], groups, idx) == ["/mnt"];
  }

  lemma DistinctOfTwo(both: seq<string>)
    requires both == ["/mnt", "/data1"]
    ensures Distinct(both) == both
  {
    assert both[..1] == ["/mnt"] && both[..1][..0] == [];
    assert Distinct(both[..1]) == ["/mnt"];
  }

  /** An empty path list gives the empty value; otherwise splitting the
      value on commas gives one directory per base path, in order, each the
      base path followed by the subpath, provided no path contains a comma. */
  lemma StoragePathRoundTrip(ps: seq<string>, suffix: string)
    requires ps != []
    requires forall i :: 0 <= i < |ps| ==> ',' !in ps[i]
    requires ',' !in suffix
    ensures |Split(GenerateStoragePath(ps, suffix), ",")| == |ps|
    ensures forall i :: 0 <= i < |ps| ==> Split(GenerateStoragePath(ps, suffix), ",")[i] == ps[i] + suffix
  {
    var parts := Suffixed(ps, suffix);
    forall i | 0 <= i < |parts| ensures ',' !in parts[i] {
      assert parts[i] == ps[i] + suffix;
    }
    SplitJoin(parts, ',');
  }
}
