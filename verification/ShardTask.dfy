/** The planning halves of adding and removing sharding nodes: the checks, the quota, the topology
    and the plan, up to the point where documents start to move. */
module ShardTask {
  import opened Arithmetic
  import opened Sequences
  import opened ShardPlan
  import opened ShardQuota

  /** The number of virtual nodes of a sharding map. */
  const MAX_MAP_SIZE: nat := 0xFFFF

  datatype Refusal =
    | NotMaster | NoShardingConfig | NoNodesNamed | NodeAlreadyKnown | NodeNotKnown
    | EmptyMap | TooFewVnodes | LastShard | AllShardsNamed | NoReceivers

  datatype Planned =
    | Planned(newMap: seq<Shard>, moves: map<Vnode, (Shard, Shard)>, nodes: seq<Shard>)
    | Refused(reason: Refusal)

  /** A collection on a single shard has no stored map: every vnode is that shard's. */
  function CurrentMap(shardList: seq<Shard>, storedMap: seq<Shard>): seq<Shard> {
    if |shardList| == 1 && storedMap == [] then Repeat(shardList[0], MAX_MAP_SIZE) else storedMap
  }

  /** A stored map is taken as it is; a single shard without one owns all 65535 vnodes, and several shards without
      one have no map. */
  lemma CurrentMapIs(shardList: seq<Shard>, storedMap: seq<Shard>)
    ensures storedMap != [] ==> CurrentMap(shardList, storedMap) == storedMap
    ensures storedMap == [] && |shardList| == 1 ==>
      && |CurrentMap(shardList, storedMap)| == 65535
      && forall v :: 0 <= v < 65535 ==> CurrentMap(shardList, storedMap)[v] == shardList[0]
    ensures storedMap == [] && |shardList| != 1 ==> CurrentMap(shardList, storedMap) == []
  {
  }

  /** The moves recorded are exactly the vnodes whose owner changes, with their old and new owner. */
  ghost predicate RecordsTheChange(m: seq<Shard>, m': seq<Shard>, moves: map<Vnode, (Shard, Shard)>) {
    && |m'| == |m|
    && (forall v :: 0 <= v < |m| ==> (v in moves <==> m'[v] != m[v]))
    && (forall v :: v in moves ==> v < |m| && moves[v] == (m[v], m'[v]))
  }

  method PlanAddition(isMaster: bool, strategyShards: seq<Shard>, shardList: seq<Shard>, newNodes: seq<Shard>,
                      storedMap: seq<Shard>)
    returns (r: Planned)
    ensures r.Planned? <==>
      && isMaster && strategyShards != [] && newNodes != []
      && (forall s :: s in newNodes ==> s !in shardList)
      && 0 < |CurrentMap(shardList, storedMap)| && |strategyShards| + |newNodes| <= |CurrentMap(shardList, storedMap)|
    ensures r.Planned? ==>
      var m := CurrentMap(shardList, storedMap);
      var plan := AddPlan(TopologyOf(m), newNodes, |m| / (|strategyShards| + |newNodes|));
      && InRange(plan, |m|)
      && r.newMap == ApplyMoves(m, plan) && r.moves == MoveList(plan) && r.nodes == newNodes
      && (Unused(m, newNodes) ==> RecordsTheChange(m, r.newMap, r.moves))
  {
    if !isMaster {
      return Refused(NotMaster);
    }
    if |strategyShards| == 0 {
      return Refused(NoShardingConfig);
    }
    if |newNodes| == 0 {
      return Refused(NoNodesNamed);
    }
    for i := 0 to |newNodes|
      invariant forall j :: 0 <= j < i ==> newNodes[j] !in shardList
    {
      if newNodes[i] in shardList {
        return Refused(NodeAlreadyKnown);
      }
    }
    var current := CurrentMap(shardList, storedMap);
    if |current| == 0 {
      return Refused(EmptyMap);
    }
    if |current| < |strategyShards| + |newNodes| {
      return Refused(TooFewVnodes);
    }
    var quota := |current| / (|strategyShards| + |newNodes|);
    var shardingMap := new Shard[|current|](i requires 0 <= i < |current| => current[i]);
    assert shardingMap[..] == current;
    var topology := BuildTopology(shardingMap);
    TopologyInRange(current);
    QuotaIsPositive(|current|, |strategyShards| + |newNodes|);
    var newTopology, moves := MigrateSharding(newNodes, quota, topology, shardingMap);
    if Unused(current, newNodes) {
      AddPlanIsSound(current, newNodes, quota);
      MoveListIsTheDifference(current, AddPlan(topology, newNodes, quota));
    }
    return Planned(shardingMap[..], moves, newNodes);
  }

  lemma QuotaIsPositive(n: nat, k: nat)
    requires 0 < k <= n
    ensures n / k >= 1
  {
    DivisionFloor(n, k);
  }

  lemma TopologyInRange(m: seq<Shard>)
    ensures ListsInRange(TopologyOf(m), |m|)
  {
    TopologyInvertsMap(m);
    forall s, v | s in TopologyOf(m) && v in TopologyOf(m)[s]
      ensures v < |m|
    {
      assert Inverts(TopologyOf(m), m, s) && v in Held(TopologyOf(m), s);
    }
  }

  /** The removal can be planned: the nodes are distinct, someone is left, and the slots suffice. */
  ghost predicate Removable(m: seq<Shard>, removeNodes: seq<Shard>, quota: nat) {
    var removed, kept := RemovedPart(TopologyOf(m), removeNodes), KeptPart(TopologyOf(m), removeNodes);
    && Distinct(removeNodes) && kept != map[]
    && SlotsSuffice(Ascending(removed.Keys), removed, Ascending(kept.Keys), kept, quota)
  }

  method PlanRemoval(isMaster: bool, strategyShards: seq<Shard>, shardList: seq<Shard>, removeNodes: seq<Shard>,
                     storedMap: seq<Shard>)
    returns (r: Planned)
    ensures r.Planned? <==>
      && isMaster && removeNodes != [] && 1 < |strategyShards| && |removeNodes| < |strategyShards|
      && (forall s :: s in removeNodes ==> s in shardList)
      && storedMap != []
      && Removable(storedMap, removeNodes, |storedMap| / (|strategyShards| - |removeNodes|))
    ensures r.Planned? ==>
      var t := TopologyOf(storedMap);
      var kept := KeptPart(t, removeNodes);
      var plan := RemovePlan(RemovedPart(t, removeNodes), kept, |storedMap| / (|strategyShards| - |removeNodes|));
      && InRange(plan, |storedMap|)
      && r.newMap == ApplyMoves(storedMap, plan) && r.moves == MoveList(plan) && r.nodes == Ascending(kept.Keys)
      && RecordsTheChange(storedMap, r.newMap, r.moves)
  {
    if !isMaster {
      return Refused(NotMaster);
    }
    if |strategyShards| == 0 {
      return Refused(NoShardingConfig);
    }
    if |removeNodes| == 0 {
      return Refused(NoNodesNamed);
    }
    if |strategyShards| == 1 {
      return Refused(LastShard);
    }
    if |removeNodes| >= |strategyShards| {
      return Refused(AllShardsNamed);
    }
    for i := 0 to |removeNodes|
      invariant forall j :: 0 <= j < i ==> removeNodes[j] in shardList
    {
      if removeNodes[i] !in shardList {
        return Refused(NodeNotKnown);
      }
    }
    if |storedMap| == 0 {
      return Refused(EmptyMap);
    }
    var quota := |storedMap| / (|strategyShards| - |removeNodes|);
    var shardingMap := new Shard[|storedMap|](i requires 0 <= i < |storedMap| => storedMap[i]);
    assert shardingMap[..] == storedMap;
    var topology := BuildTopology(shardingMap);
    TopologyInRange(storedMap);
    var ok, leftNodes, receivers, moves := RemoveSharding(removeNodes, quota, topology, shardingMap);
    if !ok || |leftNodes| == 0 {
      RefusalIsRight(storedMap, removeNodes, quota, ok, leftNodes);
      return Refused(NoReceivers);
    }
    RemovePlanIsSound(storedMap, removeNodes, quota);
    MoveListIsTheDifference(storedMap, RemovePlan(RemovedPart(topology, removeNodes), KeptPart(topology, removeNodes), quota));
    return Planned(shardingMap[..], moves, leftNodes);
  }

  lemma RefusalIsRight(m: seq<Shard>, removeNodes: seq<Shard>, quota: nat, ok: bool, leftNodes: seq<Shard>)
    requires Removable(m, removeNodes, quota) ==> ok && leftNodes == Ascending(KeptPart(TopologyOf(m), removeNodes).Keys)
    requires !ok || |leftNodes| == 0
    ensures !Removable(m, removeNodes, quota)
  {
    assert |KeptPart(TopologyOf(m), removeNodes).Keys| == 0 ==> KeptPart(TopologyOf(m), removeNodes) == map[];
  }
}
