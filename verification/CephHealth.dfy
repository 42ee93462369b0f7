/** When placement groups count as settled, and when all OSDs sit on one host
    (daemon/ceph/client/status.go, upgrade.go). */
module CephHealth {
  import opened Wrappers

  // ---------- placement groups ----------

  datatype PgState = PgState(stateName: string, count: int)

  datatype PgMap = PgMap(numPgs: int, pgsByState: seq<PgState>)

  predicate IsCleanState(s: string) {
    s == "active+clean" || s == "active+clean+scrubbing" || s == "active+clean+scrubbing+deep"
  }

  function CleanPGs(pgs: seq<PgState>): int {
    if pgs == [] then 0
    else CleanPGs(pgs[..|pgs|-1]) + if IsCleanState(pgs[|pgs|-1].stateName) then pgs[|pgs|-1].count else 0
  }

  ghost function TotalPGs(pgs: seq<PgState>): int {
    if pgs == [] then 0 else TotalPGs(pgs[..|pgs|-1]) + pgs[|pgs|-1].count
  }

  predicate ClusterClean(m: PgMap) {
    m.numPgs == 0 || CleanPGs(m.pgsByState) == m.numPgs
  }

  /** The counting loop of isClusterClean. */
  method CountIsClean(m: PgMap) returns (clean: bool)
    ensures clean <==> ClusterClean(m)
  {
    if m.numPgs == 0 {
      return true;
    }
    var cleanPGs := 0;
    for k := 0 to |m.pgsByState|
      invariant cleanPGs == CleanPGs(m.pgsByState[..k])
    {
      var pg := m.pgsByState[k];
      assert m.pgsByState[..k+1][..k] == m.pgsByState[..k];
      if IsCleanState(pg.stateName) {
        cleanPGs := cleanPGs + pg.count;
      }
    }
    assert m.pgsByState[..|m.pgsByState|] == m.pgsByState;
    return cleanPGs == m.numPgs;
  }

  ghost predicate Consistent(m: PgMap) {
    (forall k | 0 <= k < |m.pgsByState| :: m.pgsByState[k].count >= 0) && TotalPGs(m.pgsByState) == m.numPgs
  }

  lemma {:induction false} CleanAtMostTotal(pgs: seq<PgState>)
    requires forall k | 0 <= k < |pgs| :: pgs[k].count >= 0
    ensures 0 <= CleanPGs(pgs) <= TotalPGs(pgs)
    ensures CleanPGs(pgs) == TotalPGs(pgs) <==>
      forall k | 0 <= k < |pgs| && pgs[k].count > 0 :: IsCleanState(pgs[k].stateName)
  {
    if pgs != [] {
      CleanAtMostTotal(pgs[..|pgs|-1]);
    }
  }

  /** Comparing two counts decides what it should: every state with a placement group in it is clean, with or
      without scrubbing. */
  lemma CleanIsExact(m: PgMap)
    requires Consistent(m)
    ensures ClusterClean(m) <==> forall k | 0 <= k < |m.pgsByState| && m.pgsByState[k].count > 0 ::
      m.pgsByState[k].stateName in {"active+clean", "active+clean+scrubbing", "active+clean+scrubbing+deep"}
  {
    CleanAtMostTotal(m.pgsByState);
  }

  /** A cluster without placement groups is clean, whatever states it reports; a count that differs is not. */
  lemma CountDecides(pgs: seq<PgState>, numPgs: int)
    ensures ClusterClean(PgMap(0, pgs))
    ensures numPgs != 0 && CleanPGs(pgs) != numPgs ==> !ClusterClean(PgMap(numPgs, pgs))
  {
  }

  /** IsClusterCleanError: nil exactly when a status was read and it is clean. */
  method IsClusterCleanError(status: Option<PgMap>) returns (isNil: bool)
    ensures isNil <==> status.Some? && ClusterClean(status.value)
  {
    if status.None? {
      return false;
    }
    isNil := CountIsClean(status.value);
  }

  // ---------- where the OSDs are ----------

  datatype TreeNode = TreeNode(id: int, nodeType: string, children: seq<int>)

  /** `ceph osd tree`: `nodes` may be missing from the answer. */
  datatype OsdTree = OsdTree(nodes: Option<seq<TreeNode>>, stray: seq<int>)

  function Hosts(nodes: seq<TreeNode>): seq<TreeNode> {
    if nodes == [] then []
    else Hosts(nodes[..|nodes|-1]) + if nodes[|nodes|-1].nodeType == "host" then [nodes[|nodes|-1]] else []
  }

  /** Positions in ascending order, exactly those of the nodes of type "host". */
  ghost predicate HostPositions(nodes: seq<TreeNode>, at: seq<int>) {
    && (forall i | 0 <= i < |at| :: 0 <= at[i] < |nodes| && nodes[at[i]].nodeType == "host")
    && (forall i, j | 0 <= i < j < |at| :: at[i] < at[j])
    && (forall k | 0 <= k < |nodes| && nodes[k].nodeType == "host" :: k in at)
  }

  lemma OneMorePosition(init: seq<TreeNode>, node: TreeNode, at: seq<int>)
    requires HostPositions(init, at)
    ensures HostPositions(init + [node], if node.nodeType == "host" then at + [|init|] else at)
  {
    var nodes, longer := init + [node], at + [|init|];
    assert forall k | 0 <= k < |init| :: nodes[k] == init[k];
    if node.nodeType == "host" {
      forall k | 0 <= k < |nodes| && nodes[k].nodeType == "host"
        ensures k in longer
      {
        assert k < |init| ==> k in at;
        assert longer[|at|] == |init|;
      }
    }
  }

  ghost predicate NodesAt(nodes: seq<TreeNode>, at: seq<int>, found: seq<TreeNode>) {
    && |found| == |at|
    && forall i | 0 <= i < |at| :: 0 <= at[i] < |nodes| && found[i] == nodes[at[i]]
  }

  lemma OneMoreNode(init: seq<TreeNode>, node: TreeNode, at: seq<int>, found: seq<TreeNode>)
    requires NodesAt(init, at, found)
    ensures NodesAt(init + [node], at, found) && NodesAt(init + [node], at + [|init|], found + [node])
  {
  }

  /** The hosts are the nodes of that type, each once and in the order of the tree. */
  lemma {:induction false} HostsAre(nodes: seq<TreeNode>) returns (at: seq<int>)
    ensures HostPositions(nodes, at) && NodesAt(nodes, at, Hosts(nodes))
  {
    at := [];
    if nodes != [] {
      var init, node := nodes[..|nodes|-1], nodes[|nodes|-1];
      assert nodes == init + [node];
      at := HostsAre(init);
      OneMorePosition(init, node, at);
      OneMoreNode(init, node, at, Hosts(init));
      if node.nodeType == "host" {
        at := at + [|init|];
      }
    }
  }

  method BuildHostListFromTree(tree: OsdTree) returns (hosts: Result<seq<TreeNode>>)
    ensures hosts == if tree.nodes.None? then Err else Ok(Hosts(tree.nodes.value))
  {
    if tree.nodes.None? {
      return Err;
    }
    var nodes, found := tree.nodes.value, [];
    for k := 0 to |nodes|
      invariant found == Hosts(nodes[..k])
    {
      assert nodes[..k+1][..k] == nodes[..k];
      if nodes[k].nodeType == "host" {
        found := found + [nodes[k]];
      }
    }
    assert nodes[..|nodes|] == nodes;
    return Ok(found);
  }

  /** What the tree and the OSD list say, by counting; an error without any host. */
  function SameHost(tree: OsdTree, osds: seq<int>): Result<bool> {
    if tree.nodes.None? then Err
    else
      var hosts := Hosts(tree.nodes.value);
      if |hosts| == 0 then Err
      else Ok(|hosts| == 1 && |hosts[0].children| == |osds| - |tree.stray|)
  }

  method DecideSameHost(tree: OsdTree, osds: seq<int>) returns (r: Result<bool>)
    ensures r == SameHost(tree, osds)
  {
    var hosts := BuildHostListFromTree(tree);
    if hosts.Err? {
      return Err;
    }
    var n := |hosts.value|;
    if n == 0 {
      return Err;
    }
    if n == 1 {
      if |hosts.value[0].children| == |osds| - |tree.stray| {
        return Ok(true);
      }
    }
    return Ok(false);
  }

  ghost function Ids(s: seq<int>): set<int> {
    set x | x in s
  }

  ghost predicate Distinct(s: seq<int>) {
    forall i, j | 0 <= i < j < |s| :: s[i] != s[j]
  }

  lemma {:induction false} DistinctCount(s: seq<int>)
    requires Distinct(s)
    ensures |Ids(s)| == |s|
  {
    if s != [] {
      DistinctCount(s[..|s|-1]);
      assert Ids(s) == Ids(s[..|s|-1]) + {s[|s|-1]};
    }
  }

  lemma SubsetOfSameSize(a: set<int>, b: set<int>)
    requires a <= b
    ensures |b - a| == |b| - |a|
    ensures |a| == |b| <==> a == b
  {
    assert b == a + (b - a);
  }

  /** The tree has exactly one host. */
  ghost predicate OneHost(tree: OsdTree) {
    tree.nodes.Some? && |Hosts(tree.nodes.value)| == 1
  }

  ghost function HostChildren(tree: OsdTree): seq<int>
    requires OneHost(tree)
  {
    Hosts(tree.nodes.value)[0].children
  }

  /** The k-th node is the only one of type "host". */
  ghost predicate LoneHost(tree: OsdTree, k: int) {
    && tree.nodes.Some? && 0 <= k < |tree.nodes.value| && tree.nodes.value[k].nodeType == "host"
    && forall j | 0 <= j < |tree.nodes.value| && tree.nodes.value[j].nodeType == "host" :: j == k
  }

  lemma FirstTwoDiffer(at: seq<int>)
    requires |at| >= 2 && forall i, j | 0 <= i < j < |at| :: at[i] < at[j]
    ensures at[0] != at[1]
  {
  }

  lemma OneHostMeans(tree: OsdTree)
    ensures OneHost(tree) <==> exists k :: LoneHost(tree, k)
    ensures forall k | LoneHost(tree, k) :: OneHost(tree) && HostChildren(tree) == tree.nodes.value[k].children
  {
    if tree.nodes.Some? {
      var nodes := tree.nodes.value;
      var at := HostsAre(nodes);
      if OneHost(tree) {
        assert LoneHost(tree, at[0]);
      }
      forall k | LoneHost(tree, k)
        ensures OneHost(tree) && HostChildren(tree) == nodes[k].children
      {
        assert k in at;
        assert forall i | 0 <= i < |at| :: at[i] == k;
        if |at| >= 2 {
          FirstTwoDiffer(at);
          assert false;
        }
      }
    }
  }

  /** Counting is enough: with distinct ids, strays among the OSDs and a lone host's OSDs among the rest, the
      answer is true exactly when there is one host and it carries all OSDs that are not stray. */
  lemma SameHostIsExact(tree: OsdTree, osds: seq<int>)
    requires Distinct(osds) && Distinct(tree.stray) && Ids(tree.stray) <= Ids(osds)
    requires OneHost(tree) ==> Distinct(HostChildren(tree)) && Ids(HostChildren(tree)) <= Ids(osds) - Ids(tree.stray)
    ensures SameHost(tree, osds) == Ok(true) <==>
      OneHost(tree) && Ids(HostChildren(tree)) == Ids(osds) - Ids(tree.stray)
  {
    if OneHost(tree) {
      DistinctCount(osds);
      DistinctCount(tree.stray);
      DistinctCount(HostChildren(tree));
      SubsetOfSameSize(Ids(tree.stray), Ids(osds));
      SubsetOfSameSize(Ids(HostChildren(tree)), Ids(osds) - Ids(tree.stray));
    }
  }
}
