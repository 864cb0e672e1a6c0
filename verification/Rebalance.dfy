/** From a plan to its migration: what planning produces is what the migration's guarantees ask for. */
module Rebalance {
  import opened Sequences
  import opened ShardPlan
  import opened ShardQuota
  import opened ShardTask
  import opened Migration
  import opened MigrateScd

  lemma SoundPlanIsValid(c: Config, p: seq<Move>, receivers: set<Shard>)
    requires |c.oldMap| == MAX_MAP_SIZE && Sound(c.oldMap, p)
    requires c.newMap == ApplyMoves(c.oldMap, p) && c.moves == MoveList(p)
    requires Elements(c.oldMap) <= c.current
    requires forall i :: 0 <= i < |p| ==> p[i].source !in receivers && p[i].target in receivers
    requires receivers <= if c.removing then c.current else c.migrateNodes
    ensures Valid(c)
  {
    MoveListIsTheDifference(c.oldMap, p);
    MoveListSize(p);
    forall v | v in c.moves
      ensures c.moves[v].0 in c.current && c.moves[v].0 !in receivers && c.moves[v].1 in receivers
    {
      MovesAndNothingElse(c.oldMap, p, v);
    }
  }

  /** A planned addition meets what the migration's guarantees ask for. */
  lemma AdditionIsValidMigration(c: Config, newNodes: seq<Shard>, quota: nat)
    requires |c.oldMap| == MAX_MAP_SIZE && Unused(c.oldMap, newNodes) && Elements(c.oldMap) <= c.current
    requires var p := AddPlan(TopologyOf(c.oldMap), newNodes, quota);
      && InRange(p, |c.oldMap|)
      && c.newMap == ApplyMoves(c.oldMap, p) && c.moves == MoveList(p)
    requires !c.removing && c.migrateNodes == Elements(newNodes)
    ensures Valid(c)
  {
    hide Concat, TopologyOf, ApplyMoves, MoveList, Valid;
    var p := AddPlan(TopologyOf(c.oldMap), newNodes, quota);
    AddPlanIsSound(c.oldMap, newNodes, quota);
    SlotsNameNewNodes(newNodes, quota);
    SoundPlanIsValid(c, p, Elements(newNodes));
  }

  /** So does a planned removal. */
  lemma RemovalIsValidMigration(c: Config, removeNodes: seq<Shard>, quota: nat)
    requires |c.oldMap| == MAX_MAP_SIZE && Elements(c.oldMap) <= c.current
    requires var t := TopologyOf(c.oldMap);
      var p := RemovePlan(RemovedPart(t, removeNodes), KeptPart(t, removeNodes), quota);
      && InRange(p, |c.oldMap|)
      && c.newMap == ApplyMoves(c.oldMap, p) && c.moves == MoveList(p)
    requires c.removing
    ensures Valid(c)
  {
    hide Concat, ApplyMoves, MoveList, Valid;
    var t := TopologyOf(c.oldMap);
    var removed, kept := RemovedPart(t, removeNodes), KeptPart(t, removeNodes);
    var p := RemovePlan(removed, kept, quota);
    RemovePlanIsSound(c.oldMap, removeNodes, quota);
    TopologyInvertsMap(c.oldMap);
    TargetsAreKept(removed, kept, quota);
    SourcesAreRemoved(removed, kept, quota);
    SoundPlanIsValid(c, p, kept.Keys);
  }

  lemma SourcesAreRemoved(removed: Topology, kept: Topology, quota: nat)
    ensures var p := RemovePlan(removed, kept, quota); forall i :: 0 <= i < |p| ==> p[i].source in removed
  {
    var sources := Ascending(removed.Keys);
    var parts := Contents(sources, removed);
    forall i | 0 <= i < |Concat(parts)|
      ensures Concat(parts)[i].0 in removed
    {
      ConcatMember(parts, Concat(parts)[i]);
      var k :| 0 <= k < |parts| && Concat(parts)[i] in parts[k];
      var j :| 0 <= j < |parts[k]| && parts[k][j] == Concat(parts)[i];
    }
  }

  /** With one host per source shard, the list sent to a source's host names exactly its own moves. */
  lemma HostListsItsShardsMoves(groups: map<string, VnodeList>, moves: map<Vnode, (Shard, Shard)>, ip: Shard -> string, source: Shard)
    requires Grouped(groups, moves, Ascending(moves.Keys), ip)
    requires forall v :: v in moves && ip(moves[v].0) == ip(source) ==> moves[v].0 == source
    ensures ListsMovesOf(ListAt(groups, ip(source)), moves, source)
  {
    forall t: Shard, v: Vnode
      ensures v in VnodesFor(ListAt(groups, ip(source)), t) <==> v in moves && moves[v] == (source, t)
    {
      assert v in Ascending(moves.Keys) <==> v in moves;
    }
  }

  // ----- from the request to the documents

  /** What a request to add shards gives, once it is accepted, to the migration. */
  function AdditionOf(docs: set<Doc>, hash: Doc -> nat, shardList: seq<Shard>, newNodes: seq<Shard>,
                      storedMap: seq<Shard>, newMap: seq<Shard>, moves: map<Vnode, (Shard, Shard)>): Config
  {
    Config(docs, hash, CurrentMap(shardList, storedMap), newMap, moves, false,
           (set s | s in shardList), (set s | s in newNodes))
  }

  ghost function AdditionPlan(strategyShards: seq<Shard>, shardList: seq<Shard>, newNodes: seq<Shard>, storedMap: seq<Shard>): seq<Move>
    requires strategyShards != []
  {
    var m := CurrentMap(shardList, storedMap);
    AddPlan(TopologyOf(m), newNodes, |m| / (|strategyShards| + |newNodes|))
  }

  /** The stored map has the full size and names configured shards only. */
  predicate MapIsComplete(m: seq<Shard>, shardList: seq<Shard>) {
    |m| == MAX_MAP_SIZE && forall i :: 0 <= i < |m| ==> m[i] in shardList
  }

  lemma AcceptedAdditionIsValid(docs: set<Doc>, hash: Doc -> nat, strategyShards: seq<Shard>, shardList: seq<Shard>,
                                newNodes: seq<Shard>, storedMap: seq<Shard>)
    requires strategyShards != [] && newNodes != [] && forall s :: s in newNodes ==> s !in shardList
    requires MapIsComplete(CurrentMap(shardList, storedMap), shardList)
    ensures var m := CurrentMap(shardList, storedMap);
      var plan := AdditionPlan(strategyShards, shardList, newNodes, storedMap);
      && InRange(plan, |m|)
      && Valid(AdditionOf(docs, hash, shardList, newNodes, storedMap, ApplyMoves(m, plan), MoveList(plan)))
  {
    var m := CurrentMap(shardList, storedMap);
    var quota := |m| / (|strategyShards| + |newNodes|);
    hide CurrentMap, AddPlan, TopologyOf, ApplyMoves, MoveList, Valid;
    AddPlanIsSound(m, newNodes, quota);
    var plan := AddPlan(TopologyOf(m), newNodes, quota);
    var c := AdditionOf(docs, hash, shardList, newNodes, storedMap, ApplyMoves(m, plan), MoveList(plan));
    assert c.current == Elements(shardList) && c.migrateNodes == Elements(newNodes);
    AdditionIsValidMigration(c, newNodes, quota);
  }

  /** Every run of the migration: each document is on its old or its new owner, on its old one when the
      migration has broken off, on its new one when it has reported success, and then nowhere else if no
      delete failed to be sent. */
  ghost predicate AdditionIsSafe(c: Config, events: seq<Event>, d: Doc)
    requires Valid(c) && Run(c, Initial(c), events).Some?
  {
    var k := Run(c, Initial(c), events).value;
    && (d in DocsAt(k.held, OldOwner(c, d)) || d in DocsAt(k.held, NewOwner(c, d)))
    && (k.phase == Finished(false) ==> k.published == c.oldMap && d in DocsAt(k.held, OldOwner(c, d)))
    && (k.phase == Finished(true) ==> k.published == c.newMap && d in DocsAt(k.held, NewOwner(c, d)))
    && (k.phase == Finished(true) && (forall s :: SendDelete(s, false) !in events) ==>
         forall s :: d in DocsAt(k.held, s) <==> s == NewOwner(c, d))
  }

  lemma AdditionsAreSafe(c: Config, events: seq<Event>, d: Doc)
    requires Valid(c) && !c.removing && d in c.docs && Run(c, Initial(c), events).Some?
    ensures AdditionIsSafe(c, events, d)
  {
    hide Run, Initial, Valid;
    AddingNeverLosesADocument(c, events, d);
    var k := Run(c, Initial(c), events).value;
    if k.phase == Finished(false) {
      FailureLeavesOldOwners(c, events, d);
    } else if k.phase == Finished(true) {
      SuccessBringsDocuments(c, events, d);
      if forall s :: SendDelete(s, false) !in events {
        SuccessfulStepsPlaceDocuments(c, events);
      }
    }
  }

  /** An accepted addition is safe in every run of its migration. */
  lemma AcceptedAdditionKeepsEveryDocument(docs: set<Doc>, hash: Doc -> nat, strategyShards: seq<Shard>, shardList: seq<Shard>,
                                           newNodes: seq<Shard>, storedMap: seq<Shard>, events: seq<Event>, d: Doc)
    requires strategyShards != [] && newNodes != [] && forall s :: s in newNodes ==> s !in shardList
    requires MapIsComplete(CurrentMap(shardList, storedMap), shardList) && d in docs
    ensures var m := CurrentMap(shardList, storedMap);
      var plan := AdditionPlan(strategyShards, shardList, newNodes, storedMap);
      && InRange(plan, |m|)
      && var c := AdditionOf(docs, hash, shardList, newNodes, storedMap, ApplyMoves(m, plan), MoveList(plan));
      && Valid(c) && (Run(c, Initial(c), events).Some? ==> AdditionIsSafe(c, events, d))
  {
    hide CurrentMap, AdditionPlan, ApplyMoves, MoveList, Valid, Run, Initial, MapIsComplete, AdditionIsSafe;
    AcceptedAdditionIsValid(docs, hash, strategyShards, shardList, newNodes, storedMap);
    var m := CurrentMap(shardList, storedMap);
    var plan := AdditionPlan(strategyShards, shardList, newNodes, storedMap);
    var c := AdditionOf(docs, hash, shardList, newNodes, storedMap, ApplyMoves(m, plan), MoveList(plan));
    if Run(c, Initial(c), events).Some? {
      AdditionsAreSafe(c, events, d);
    }
  }

  /** What a request to remove shards gives, once it is accepted, to the migration. */
  function RemovalOf(docs: set<Doc>, hash: Doc -> nat, shardList: seq<Shard>, kept: set<Shard>,
                     storedMap: seq<Shard>, newMap: seq<Shard>, moves: map<Vnode, (Shard, Shard)>): Config
  {
    Config(docs, hash, storedMap, newMap, moves, true, (set s | s in shardList), kept)
  }

  ghost function RemovalPlan(m: seq<Shard>, removeNodes: seq<Shard>, quota: nat): seq<Move> {
    RemovePlan(RemovedPart(TopologyOf(m), removeNodes), KeptPart(TopologyOf(m), removeNodes), quota)
  }

  ghost function RemovalConfig(docs: set<Doc>, hash: Doc -> nat, shardList: seq<Shard>, removeNodes: seq<Shard>,
                               m: seq<Shard>, quota: nat): Config
    requires InRange(RemovalPlan(m, removeNodes, quota), |m|)
  {
    var plan := RemovalPlan(m, removeNodes, quota);
    RemovalOf(docs, hash, shardList, KeptPart(TopologyOf(m), removeNodes).Keys, m, ApplyMoves(m, plan), MoveList(plan))
  }

  lemma AcceptedRemovalIsValid(docs: set<Doc>, hash: Doc -> nat, shardList: seq<Shard>, removeNodes: seq<Shard>,
                               m: seq<Shard>, quota: nat, d: Doc)
    requires MapIsComplete(m, shardList) && Removable(m, removeNodes, quota)
    ensures InRange(RemovalPlan(m, removeNodes, quota), |m|)
    ensures var c := RemovalConfig(docs, hash, shardList, removeNodes, m, quota);
      Valid(c) && NewOwner(c, d) !in removeNodes
  {
    hide TopologyOf, ApplyMoves, MoveList, Valid, RemovePlan;
    RemovePlanIsSound(m, removeNodes, quota);
    var c := RemovalConfig(docs, hash, shardList, removeNodes, m, quota);
    assert Elements(m) <= c.current;
    RemovalIsValidMigration(c, removeNodes, quota);
    RemovedShardsOwnNothing(m, removeNodes, quota, VnodeOf(c, d));
  }

  /** An accepted removal that reports success has brought each document to a shard that stays; and when no
      delete failed to be sent the document is there only, so that no removed shard holds one. */
  lemma AcceptedRemovalPlacesEveryDocument(docs: set<Doc>, hash: Doc -> nat, shardList: seq<Shard>, removeNodes: seq<Shard>,
                                           m: seq<Shard>, quota: nat, events: seq<Event>, d: Doc)
    requires MapIsComplete(m, shardList) && Removable(m, removeNodes, quota) && d in docs
    ensures InRange(RemovalPlan(m, removeNodes, quota), |m|)
    ensures var c := RemovalConfig(docs, hash, shardList, removeNodes, m, quota);
      && Valid(c) && NewOwner(c, d) !in removeNodes
      && (Run(c, Initial(c), events).Some? && Run(c, Initial(c), events).value.phase == Finished(true) ==>
            var k := Run(c, Initial(c), events).value;
            && k.published == c.newMap && d in DocsAt(k.held, NewOwner(c, d))
            && ((forall s :: SendDelete(s, false) !in events) ==>
                  forall s :: d in DocsAt(k.held, s) <==> s == NewOwner(c, d)))
  {
    hide RemovalPlan, RemovalConfig, Valid, Run, Initial, MapIsComplete, Removable;
    AcceptedRemovalIsValid(docs, hash, shardList, removeNodes, m, quota, d);
    var c := RemovalConfig(docs, hash, shardList, removeNodes, m, quota);
    assert c.docs == docs by {
      RemovalDocs(docs, hash, shardList, removeNodes, m, quota);
    }
    if Run(c, Initial(c), events).Some? && Run(c, Initial(c), events).value.phase == Finished(true) {
      SuccessBringsDocuments(c, events, d);
      if forall s :: SendDelete(s, false) !in events {
        SuccessfulStepsPlaceDocuments(c, events);
      }
    }
  }

  lemma RemovalDocs(docs: set<Doc>, hash: Doc -> nat, shardList: seq<Shard>, removeNodes: seq<Shard>, m: seq<Shard>, quota: nat)
    requires InRange(RemovalPlan(m, removeNodes, quota), |m|)
    ensures RemovalConfig(docs, hash, shardList, removeNodes, m, quota).docs == docs
  {
  }
}
