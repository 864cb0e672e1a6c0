/** What the shard plans achieve: every plan is sound, the quotas bound each shard's share, and a
    removal never runs out of receivers when every survivor owns a vnode. */
module ShardQuota {
  import opened Arithmetic
  import opened Sequences
  import opened ShardPlan

  // ----- the plans relocate distinct vnodes away from their true owners

  ghost predicate Truthful(m: seq<Shard>, leaving: seq<(Shard, Vnode)>) {
    forall i :: 0 <= i < |leaving| ==> leaving[i].1 < |m| && m[leaving[i].1] == leaving[i].0
  }

  lemma PlanIsSound(m: seq<Shard>, leaving: seq<(Shard, Vnode)>, slots: seq<Shard>)
    requires Truthful(m, leaving) && Distinct(leaving)
    requires forall i, j :: 0 <= i < |leaving| && 0 <= j < |slots| ==> leaving[i].0 != slots[j]
    ensures Sound(m, Plan(leaving, slots))
  {
    var p := Plan(leaving, slots);
    forall i, j | 0 <= i < j < |p|
      ensures p[i].vnode != p[j].vnode
    {
      assert leaving[i] != leaving[j];
    }
  }

  /** Every list of the topology holds each vnode of its shard once. */
  ghost predicate Inverse(t: Topology, m: seq<Shard>) {
    forall s :: s in t ==> Inverts(t, m, s)
  }

  ghost predicate PartsTagged(keys: seq<Shard>, parts: seq<seq<(Shard, Vnode)>>, m: seq<Shard>) {
    && |parts| == |keys|
    && forall i :: 0 <= i < |keys| ==>
         && Distinct(parts[i])
         && forall j :: 0 <= j < |parts[i]| ==>
              parts[i][j].0 == keys[i] && parts[i][j].1 < |m| && m[parts[i][j].1] == keys[i]
  }

  lemma TaggedPartsLeave(keys: seq<Shard>, parts: seq<seq<(Shard, Vnode)>>, m: seq<Shard>)
    requires StrictlyAscending(keys) && PartsTagged(keys, parts, m)
    ensures Distinct(Concat(parts)) && Truthful(m, Concat(parts))
    ensures forall i :: 0 <= i < |Concat(parts)| ==> Concat(parts)[i].0 in keys
  {
    forall k, l, x | 0 <= k < l < |parts| && x in parts[k]
      ensures x !in parts[l]
    {
      var j :| 0 <= j < |parts[k]| && parts[k][j] == x;
      assert x.0 == keys[k];
    }
    ConcatDistinct(parts);
    forall i | 0 <= i < |Concat(parts)|
      ensures Concat(parts)[i].1 < |m| && m[Concat(parts)[i].1] == Concat(parts)[i].0 && Concat(parts)[i].0 in keys
    {
      ConcatMember(parts, Concat(parts)[i]);
      var k :| 0 <= k < |parts| && Concat(parts)[i] in parts[k];
      var j :| 0 <= j < |parts[k]| && parts[k][j] == Concat(parts)[i];
    }
  }

  /** What a shard can spare is what it owns, tagged with it. */
  lemma SurplusTagged(s: Shard, t: Topology, quota: nat, m: seq<Shard>)
    requires s in t && Inverts(t, m, s)
    ensures Distinct(Surplus(s, t[s], quota))
    ensures forall j :: 0 <= j < |Surplus(s, t[s], quota)| ==>
      var x := Surplus(s, t[s], quota)[j]; x.0 == s && x.1 < |m| && m[x.1] == s
  {
    var surplus := Surplus(s, t[s], quota);
    forall j | 0 <= j < |surplus|
      ensures surplus[j].0 == s && surplus[j].1 < |m| && m[surplus[j].1] == s
    {
      assert surplus[j].1 == t[s][|t[s]| - 1 - j];
      assert surplus[j].1 in t[s] && Held(t, s) == t[s];
    }
    forall i, j | 0 <= i < j < |surplus|
      ensures surplus[i] != surplus[j]
    {
      assert surplus[i].1 == t[s][|t[s]| - 1 - i] && surplus[j].1 == t[s][|t[s]| - 1 - j];
    }
  }

  lemma SurplusesTagged(keys: seq<Shard>, t: Topology, quota: nat, m: seq<Shard>)
    requires Lists(keys, t) && Inverse(t, m)
    ensures PartsTagged(keys, Surpluses(keys, t, quota), m)
  {
    hide Surplus, Inverts;
    forall i | 0 <= i < |keys|
      ensures Distinct(Surpluses(keys, t, quota)[i])
      ensures forall j :: 0 <= j < |Surpluses(keys, t, quota)[i]| ==>
        var x := Surpluses(keys, t, quota)[i][j]; x.0 == keys[i] && x.1 < |m| && m[x.1] == keys[i]
    {
      assert Inverts(t, m, keys[i]);
      SurplusTagged(keys[i], t, quota, m);
    }
  }

  lemma ContentsTagged(keys: seq<Shard>, t: Topology, m: seq<Shard>)
    requires Lists(keys, t) && Inverse(t, m)
    ensures PartsTagged(keys, Contents(keys, t), m)
  {
    forall i | 0 <= i < |keys|
      ensures Distinct(Contents(keys, t)[i])
      ensures forall j :: 0 <= j < |Contents(keys, t)[i]| ==>
        var x := Contents(keys, t)[i][j]; x.0 == keys[i] && x.1 < |m| && m[x.1] == keys[i]
    {
      assert Inverts(t, m, keys[i]);
    }
  }

  lemma SlotsNameNewNodes(newNodes: seq<Shard>, quota: nat)
    ensures forall j :: 0 <= j < |Concat(AddSlots(newNodes, quota))| ==> Concat(AddSlots(newNodes, quota))[j] in newNodes
  {
    var parts := AddSlots(newNodes, quota);
    forall j | 0 <= j < |Concat(parts)|
      ensures Concat(parts)[j] in newNodes
    {
      ConcatMember(parts, Concat(parts)[j]);
    }
  }

  lemma SlotsNameSurvivors(keys: seq<Shard>, t: Topology, quota: nat)
    requires Lists(keys, t)
    ensures forall j :: 0 <= j < |Concat(RemoveSlots(keys, t, quota))| ==> Concat(RemoveSlots(keys, t, quota))[j] in keys
  {
    var parts := RemoveSlots(keys, t, quota);
    forall j | 0 <= j < |Concat(parts)|
      ensures Concat(parts)[j] in keys
    {
      ConcatMember(parts, Concat(parts)[j]);
    }
  }

  /** No new node owns a vnode yet. */
  ghost predicate Unused(m: seq<Shard>, newNodes: seq<Shard>) {
    forall v :: 0 <= v < |m| ==> m[v] !in newNodes
  }

  /** Adding shards: the plan is sound, and afterwards the new shards' lists invert the new map. */
  lemma AddPlanIsSound(m: seq<Shard>, newNodes: seq<Shard>, quota: nat)
    requires Unused(m, newNodes)
    ensures Sound(m, AddPlan(TopologyOf(m), newNodes, quota))
    ensures var p := AddPlan(TopologyOf(m), newNodes, quota);
      forall s :: s in newNodes ==> Inverts(Place(map[], p), ApplyMoves(m, p), s)
  {
    hide Concat, Ascending, TopologyOf, ApplyMoves, Surpluses, AddSlots, Sound;
    var t := TopologyOf(m);
    TopologyInvertsMap(m);
    var keys := Ascending(t.Keys);
    var leaving, slots := Concat(Surpluses(keys, t, quota)), Concat(AddSlots(newNodes, quota));
    SurplusesTagged(keys, t, quota, m);
    TaggedPartsLeave(keys, Surpluses(keys, t, quota), m);
    SlotsNameNewNodes(newNodes, quota);
    PlanIsSound(m, leaving, slots);
    PlacementInvertsNewMap(m, map[], AddPlan(t, newNodes, quota), Elements(newNodes));
  }

  lemma PartsKeepInverting(m: seq<Shard>, removeNodes: seq<Shard>)
    ensures Inverse(RemovedPart(TopologyOf(m), removeNodes), m)
    ensures Inverse(KeptPart(TopologyOf(m), removeNodes), m)
  {
    TopologyInvertsMap(m);
    var t := TopologyOf(m);
    forall s
      ensures s in removeNodes ==> Inverts(RemovedPart(t, removeNodes), m, s)
      ensures s in KeptPart(t, removeNodes) ==> Inverts(KeptPart(t, removeNodes), m, s)
    {
      assert Inverts(t, m, s);
    }
  }

  lemma SplitPlanIsSound(m: seq<Shard>, removed: Topology, kept: Topology, quota: nat)
    requires Inverse(removed, m) && Inverse(kept, m) && removed.Keys !! kept.Keys
    ensures var p := RemovePlan(removed, kept, quota);
      && Sound(m, p)
      && forall s :: s in kept ==> Inverts(Place(kept, p), ApplyMoves(m, p), s)
  {
    hide Concat, Ascending, ApplyMoves, Place, Inverts;
    var sources, keys := Ascending(removed.Keys), Ascending(kept.Keys);
    ContentsTagged(sources, removed, m);
    TaggedPartsLeave(sources, Contents(sources, removed), m);
    SlotsNameSurvivors(keys, kept, quota);
    PlanIsSound(m, Concat(Contents(sources, removed)), Concat(RemoveSlots(keys, kept, quota)));
    PlacementInvertsNewMap(m, kept, RemovePlan(removed, kept, quota), kept.Keys);
  }

  /** Removing shards: the plan is sound, and afterwards the survivors' lists invert the new map. */
  lemma RemovePlanIsSound(m: seq<Shard>, removeNodes: seq<Shard>, quota: nat)
    ensures var removed, kept := RemovedPart(TopologyOf(m), removeNodes), KeptPart(TopologyOf(m), removeNodes);
      var p := RemovePlan(removed, kept, quota);
      && Sound(m, p)
      && forall s :: s in kept ==> Inverts(Place(kept, p), ApplyMoves(m, p), s)
  {
    PartsKeepInverting(m, removeNodes);
    SplitPlanIsSound(m, RemovedPart(TopologyOf(m), removeNodes), KeptPart(TopologyOf(m), removeNodes), quota);
  }

  // ----- how much moves when shards are added

  /** How many vnodes the donors can spare together: each keeps quota + 1. */
  ghost function SurplusTotal(keys: seq<Shard>, t: Topology, quota: nat): nat
    requires Lists(keys, t)
  {
    if keys == [] then
      0
    else
      SurplusTotal(keys[..|keys| - 1], t, quota) + Max(0, |t[keys[|keys| - 1]]| - quota - 1)
  }

  lemma {:induction false} SurplusLength(keys: seq<Shard>, t: Topology, quota: nat)
    requires Lists(keys, t)
    ensures |Concat(Surpluses(keys, t, quota))| == SurplusTotal(keys, t, quota)
  {
    if keys != [] {
      var front := keys[..|keys| - 1];
      SurplusLength(front, t, quota);
      assert Surpluses(keys, t, quota)[..|front|] == Surpluses(front, t, quota);
    }
  }

  lemma {:induction false} SurplusAtLeast(keys: seq<Shard>, t: Topology, quota: nat)
    requires Lists(keys, t)
    ensures SurplusTotal(keys, t, quota) >= |Concat(Contents(keys, t))| - |keys| * (quota + 1)
  {
    if keys != [] {
      var front := keys[..|keys| - 1];
      SurplusAtLeast(front, t, quota);
      assert Contents(keys, t)[..|front|] == Contents(front, t);
      assert |keys| * (quota + 1) == |front| * (quota + 1) + (quota + 1);
    }
  }

  /** The places of the new nodes: quota for each node, and one for every further time it is named. */
  ghost function Places(newNodes: seq<Shard>, quota: nat): nat {
    ElementsAtMost(newNodes);
    |Elements(newNodes)| * quota + (|newNodes| - |Elements(newNodes)|)
  }

  lemma PlacesMore(newNodes: seq<Shard>, quota: nat, last: Shard)
    ensures Places(newNodes + [last], quota) == Places(newNodes, quota) + if last in newNodes then 1 else quota
  {
    assert Elements(newNodes + [last]) == Elements(newNodes) + {last};
    if last in newNodes {
      assert Elements(newNodes + [last]) == Elements(newNodes);
    } else {
      assert |Elements(newNodes + [last])| == |Elements(newNodes)| + 1;
      Distribute(|Elements(newNodes)|, 1, quota);
    }
  }

  lemma {:induction false} AddSlotsLength(newNodes: seq<Shard>, quota: nat, k: nat)
    requires k <= |newNodes|
    ensures |Concat(AddSlots(newNodes, quota)[..k])| == Places(newNodes[..k], quota)
  {
    if k == 0 {
    } else {
      hide Places, Concat;
      AddSlotsLength(newNodes, quota, k - 1);
      ConcatTake(AddSlots(newNodes, quota), k - 1);
      PlacesMore(newNodes[..k - 1], quota, newNodes[k - 1]);
      assert newNodes[..k] == newNodes[..k - 1] + [newNodes[k - 1]];
    }
  }

  ghost function Vnodes(leaving: seq<(Shard, Vnode)>): seq<Vnode> {
    seq(|leaving|, i requires 0 <= i < |leaving| => leaving[i].1)
  }

  /** Truthful distinct entries name distinct vnodes, so there are at most as many as vnodes. */
  lemma TruthfulAtMost(m: seq<Shard>, leaving: seq<(Shard, Vnode)>)
    requires Truthful(m, leaving) && Distinct(leaving)
    ensures |leaving| <= |m|
  {
    var vs := Vnodes(leaving);
    forall i, j | 0 <= i < j < |vs|
      ensures vs[i] != vs[j]
    {
      assert leaving[i] != leaving[j];
    }
    DistinctCardinality(vs);
    BelowCardinality(|m|);
    SubsetCardinality(Elements(vs), Below(|m|));
  }

  /** The topology's lists hold every vnode, so together they hold at least as many. */
  lemma EveryVnodeHeld(m: seq<Shard>)
    ensures |Concat(Contents(Ascending(TopologyOf(m).Keys), TopologyOf(m)))| >= |m|
  {
    var t := TopologyOf(m);
    var keys := Ascending(t.Keys);
    var parts := Contents(keys, t);
    TopologyInvertsMap(m);
    var vs := Vnodes(Concat(parts));
    forall v | v in Below(|m|)
      ensures v in Elements(vs)
    {
      assert m[v] in t && Inverts(t, m, m[v]);
      var k :| 0 <= k < |keys| && keys[k] == m[v];
      assert v in t[keys[k]];
      var j :| 0 <= j < |t[keys[k]]| && t[keys[k]][j] == v;
      assert parts[k][j] == (m[v], v);
      assert (m[v], v) in parts[k];
      ConcatMember(parts, (m[v], v));
      var i :| 0 <= i < |Concat(parts)| && Concat(parts)[i] == (m[v], v);
      assert vs[i] == v;
    }
    BelowCardinality(|m|);
    SubsetCardinality(Below(|m|), Elements(vs));
    ElementsAtMost(vs);
  }

  /** With N vnodes, at most k owners and m new nodes of quota q = N / (k + m), exactly as many vnodes
      move as the new nodes have places and the donors can spare; with distinct nodes that is
      min(m * q, what can be spared). It is at least m * q - k exactly when the places lost by naming
      nodes again, q - 1 each, are at most k. */
  lemma AddMovesAsMuchAsItCan(m: seq<Shard>, newNodes: seq<Shard>, k: nat, quota: nat)
    requires |TopologyOf(m)| <= k && newNodes != [] && quota >= 1
    requires quota == |m| / (k + |newNodes|)
    ensures |AddPlan(TopologyOf(m), newNodes, quota)|
         == Min(Places(newNodes, quota), SurplusTotal(Ascending(TopologyOf(m).Keys), TopologyOf(m), quota))
    ensures Distinct(newNodes) ==> Places(newNodes, quota) == |newNodes| * quota
    ensures |AddPlan(TopologyOf(m), newNodes, quota)| >= |newNodes| * quota - k <==>
            (|newNodes| - |Elements(newNodes)|) * (quota - 1) <= k
  {
    hide Concat, Ascending, TopologyOf;
    var t := TopologyOf(m);
    var keys := Ascending(t.Keys);
    assert |keys| == |t.Keys| == |t|;
    AddSlotsLength(newNodes, quota, |newNodes|);
    assert newNodes[..|newNodes|] == newNodes && AddSlots(newNodes, quota)[..|newNodes|] == AddSlots(newNodes, quota);
    SurplusLength(keys, t, quota);
    SurplusAtLeast(keys, t, quota);
    EveryVnodeHeld(m);
    QuotaArithmetic(|m|, k, |newNodes|, quota, |keys|, |Concat(Contents(keys, t))|);
    PlacesLost(newNodes, quota, k);
  }

  lemma PlacesLost(newNodes: seq<Shard>, quota: nat, k: nat)
    requires quota >= 1
    ensures Distinct(newNodes) ==> Places(newNodes, quota) == |newNodes| * quota
    ensures Places(newNodes, quota) >= |newNodes| * quota - k <==> (|newNodes| - |Elements(newNodes)|) * (quota - 1) <= k
  {
    ElementsAtMost(newNodes);
    DistinctIffCardinality(newNodes);
    var named, again := |Elements(newNodes)|, |newNodes| - |Elements(newNodes)|;
    Distribute(named, again, quota);
    assert again * (quota - 1) == again * quota - again;
  }

  lemma QuotaArithmetic(n: nat, k: nat, added: nat, quota: nat, donors: nat, held: nat)
    requires added > 0 && quota == n / (k + added) && donors <= k && held >= n
    ensures held - donors * (quota + 1) >= added * quota - k
  {
    calc {
      held - donors * (quota + 1);
    >= { TimesMonotonic(donors, k, quota + 1); }
      n - k * (quota + 1);
    >= { DivisionFloor(n, k + added); }
      (k + added) * quota - k * (quota + 1);
    == { Distribute(k, added, quota); }
      added * quota - k;
    }
  }

  /** How many vnodes a new node is given: no more than its places. */
  lemma NewNodeGets(t: Topology, newNodes: seq<Shard>, quota: nat, s: Shard)
    ensures var places := if s in newNodes then quota + Count(newNodes, s) - 1 else 0;
      && |Held(Place(map[], AddPlan(t, newNodes, quota)), s)| <= places
      && (|AddPlan(t, newNodes, quota)| == |Concat(AddSlots(newNodes, quota))| ==>
            |Held(Place(map[], AddPlan(t, newNodes, quota)), s)| == places)
  {
    var p := AddPlan(t, newNodes, quota);
    var parts := AddSlots(newNodes, quota);
    PushedLength(map[], p, Concat(parts), |p|, s);
    assert p[..|p|] == p;
    CountPrefix(Concat(parts), |p|, s);
    AddSlotsCount(newNodes, quota, |newNodes|, s);
    assert parts[..|newNodes|] == parts && newNodes[..|newNodes|] == newNodes;
    assert Concat(parts)[..|Concat(parts)|] == Concat(parts);
  }

  /** One donor with enough to spare fills every place. */
  lemma EnoughToSpare(newNodes: seq<Shard>, quota: nat) returns (t: Topology)
    ensures |AddPlan(t, newNodes, quota)| == |Concat(AddSlots(newNodes, quota))|
  {
    var places := |Concat(AddSlots(newNodes, quota))|;
    t := map[0 := Repeat(0, places + quota + 1)];
    var keys := Ascending(t.Keys);
    assert 0 in keys && |keys| == 1;
    assert keys == [0];
    assert Surpluses(keys, t, quota) == [Surplus(0, t[0], quota)];
    assert Surpluses(keys, t, quota)[..0] == [];
  }

  /** Whoever the donors are, a new node stays within the quota: exactly when it is named at most once. */
  lemma NewNodesStayWithinQuota(newNodes: seq<Shard>, quota: nat, s: Shard)
    requires quota >= 1
    ensures (forall t: Topology :: |Held(Place(map[], AddPlan(t, newNodes, quota)), s)| <= quota)
      <==> Count(newNodes, s) <= 1
  {
    hide AddPlan, Place, Count, Concat;
    forall t: Topology | Count(newNodes, s) <= 1
      ensures |Held(Place(map[], AddPlan(t, newNodes, quota)), s)| <= quota
    {
      NewNodeGets(t, newNodes, quota, s);
    }
    if Count(newNodes, s) > 1 {
      if s !in newNodes {
        CountAbsent(newNodes, s);
      }
      var t := EnoughToSpare(newNodes, quota);
      NewNodeGets(t, newNodes, quota, s);
    }
  }

  /** An accepted request that goes wrong: one shard owns all 65535 vnodes and node 9 is named twice. The
      quota is 21845, but node 9 gets one more, and hardly half of the vnodes meant to move do. */
  lemma NodeNamedTwice()
    ensures var m, newNodes := Repeat(1, 65535), [9, 9];
      var plan := AddPlan(TopologyOf(m), newNodes, 65535 / 3);
      && 65535 / 3 == 21845 && |plan| == 21846 && |Held(Place(map[], plan), 9)| == 21846
      && |plan| < |newNodes| * 21845 - 1
  {
    hide TopologyOf, AddPlan, Concat, Place;
    var m, newNodes := Repeat(1, 65535), [9, 9];
    var t := TopologyOf(m);
    OneOwner(m, 1);
    assert newNodes[0] == 9 && newNodes[1] == 9;
    assert Elements(newNodes) == {9};
    assert Places(newNodes, 21845) == 21846;
    AddMovesAsMuchAsItCan(m, newNodes, 1, 21845);
    OneDonorSpares(m, t);
    AddSlotsLength(newNodes, 21845, 2);
    assert newNodes[..2] == newNodes && AddSlots(newNodes, 21845)[..2] == AddSlots(newNodes, 21845);
    CountUniform(newNodes, 9, 9);
    NewNodeGets(t, newNodes, 21845, 9);
  }

  lemma OneOwner(m: seq<Shard>, s: Shard)
    requires m != [] && forall v :: 0 <= v < |m| ==> m[v] == s
    ensures TopologyOf(m).Keys == {s} && |TopologyOf(m)| == 1
  {
    TopologyInvertsMap(m);
    assert m[0] in TopologyOf(m);
    assert TopologyOf(m).Keys == {s};
  }

  lemma OneDonorSpares(m: seq<Shard>, t: Topology)
    requires |m| == 65535 && t == TopologyOf(m) && |t| == 1
    ensures SurplusTotal(Ascending(t.Keys), t, 21845) >= 43689
  {
    hide TopologyOf, Concat, SurplusTotal;
    var keys := Ascending(t.Keys);
    assert |keys| == |t.Keys| == |t|;
    SurplusAtLeast(keys, t, 21845);
    EveryVnodeHeld(m);
  }

  /** A donor's vnode leaves only from beyond its first quota + 1 places. */
  lemma SurplusIndex(keys: seq<Shard>, t: Topology, quota: nat, x: (Shard, Vnode))
    requires Lists(keys, t) && x in Concat(Surpluses(keys, t, quota))
    ensures x.0 in t && exists l :: quota < l < |t[x.0]| && t[x.0][l] == x.1
  {
    var parts := Surpluses(keys, t, quota);
    ConcatMember(parts, x);
    var k :| 0 <= k < |parts| && x in parts[k];
    var j :| 0 <= j < |parts[k]| && parts[k][j] == x;
    var list := t[keys[k]];
    assert list[|list| - 1 - j] == x.1;
  }

  lemma FirstVnodesStay(m: seq<Shard>, newNodes: seq<Shard>, quota: nat, s: Shard, j: nat)
    requires Unused(m, newNodes)
    requires s in TopologyOf(m) && j < Min(|TopologyOf(m)[s]|, quota + 1)
    ensures Sound(m, AddPlan(TopologyOf(m), newNodes, quota))
    ensures var v := TopologyOf(m)[s][j];
      v < |m| && ApplyMoves(m, AddPlan(TopologyOf(m), newNodes, quota))[v] == s
  {
    hide Concat, Ascending, TopologyOf, ApplyMoves;
    var t := TopologyOf(m);
    var p := AddPlan(t, newNodes, quota);
    var v := t[s][j];
    AddPlanIsSound(m, newNodes, quota);
    TopologyInvertsMap(m);
    assert Inverts(t, m, s) && v in Held(t, s);
    MovesAndNothingElse(m, p, v);
    if i :| 0 <= i < |p| && p[i].vnode == v {
      SurplusIndex(Ascending(t.Keys), t, quota, (p[i].source, p[i].vnode));
      assert false;
    }
  }

  /** Under the new map every donor still owns at least min(what it had, quota + 1) vnodes. */
  lemma DonorsKeepTheirQuota(m: seq<Shard>, newNodes: seq<Shard>, quota: nat, s: Shard)
    requires Unused(m, newNodes) && s in TopologyOf(m)
    ensures Sound(m, AddPlan(TopologyOf(m), newNodes, quota))
    ensures |Held(TopologyOf(ApplyMoves(m, AddPlan(TopologyOf(m), newNodes, quota))), s)|
         >= Min(|TopologyOf(m)[s]|, quota + 1)
  {
    hide Concat, Ascending, TopologyOf, ApplyMoves, AddPlan;
    AddPlanIsSound(m, newNodes, quota);
    var t, m' := TopologyOf(m), ApplyMoves(m, AddPlan(TopologyOf(m), newNodes, quota));
    var first := t[s][..Min(|t[s]|, quota + 1)];
    TopologyInvertsMap(m);
    TopologyInvertsMap(m');
    assert Inverts(t, m, s) && Inverts(TopologyOf(m'), m', s);
    forall v | v in first
      ensures v in Held(TopologyOf(m'), s)
    {
      var j :| 0 <= j < |first| && first[j] == v;
      FirstVnodesStay(m, newNodes, quota, s, j);
    }
    DistinctCardinality(first);
    SubsetCardinality(Elements(first), Elements(Held(TopologyOf(m'), s)));
    ElementsAtMost(Held(TopologyOf(m'), s));
  }

  // ----- removing shards never runs out of receivers

  lemma SlotsSnoc(keys: seq<Shard>, t: Topology, quota: nat)
    requires Lists(keys, t) && keys != []
    ensures var front, list := keys[..|keys| - 1], t[keys[|keys| - 1]];
      && |Concat(RemoveSlots(keys, t, quota))|
         == |Concat(RemoveSlots(front, t, quota))| + Max(quota, |list|) + 1 - |list|
      && |Concat(Contents(keys, t))| == |Concat(Contents(front, t))| + |list|
  {
    hide Concat;
    var front, last := keys[..|keys| - 1], keys[|keys| - 1];
    ConcatSnoc(RemoveSlots(front, t, quota), Repeat(last, Max(quota, |t[last]|) + 1 - |t[last]|));
    ConcatSnoc(Contents(front, t), Tagged(last, t[last]));
    assert RemoveSlots(keys, t, quota) == RemoveSlots(front, t, quota) + [Repeat(last, Max(quota, |t[last]|) + 1 - |t[last]|)];
    assert Contents(keys, t) == Contents(front, t) + [Tagged(last, t[last])];
  }

  /** Slots and what the survivors hold already add up to more than the quota for each of them. */
  lemma {:induction false} SlotsPlusHeld(keys: seq<Shard>, t: Topology, quota: nat)
    requires Lists(keys, t)
    ensures |Concat(RemoveSlots(keys, t, quota))| + |Concat(Contents(keys, t))| >= |keys| * (quota + 1)
  {
    if keys != [] {
      var front := keys[..|keys| - 1];
      var list := t[keys[|front|]];
      SlotsPlusHeld(front, t, quota);
      SlotsSnoc(keys, t, quota);
      Distribute(|front|, 1, quota + 1);
    }
  }

  /** The removed and the kept part together hold no more than there are vnodes. */
  lemma PartsHoldAtMost(m: seq<Shard>, sources: seq<Shard>, removed: Topology, keys: seq<Shard>, kept: Topology)
    requires Lists(sources, removed) && Lists(keys, kept)
    requires StrictlyAscending(sources) && StrictlyAscending(keys)
    requires Inverse(removed, m) && Inverse(kept, m)
    requires forall s :: s in sources ==> s !in keys
    ensures |Concat(Contents(sources, removed))| + |Concat(Contents(keys, kept))| <= |m|
  {
    var a, b := Concat(Contents(sources, removed)), Concat(Contents(keys, kept));
    ContentsTagged(sources, removed, m);
    ContentsTagged(keys, kept, m);
    TaggedPartsLeave(sources, Contents(sources, removed), m);
    TaggedPartsLeave(keys, Contents(keys, kept), m);
    DistinctAppend(a, b);
    TruthfulAtMost(m, a + b);
  }

  /** Each of the k - m survivors owns a vnode, so the receivers outlast the removed vnodes. */
  lemma SurvivorsSuffice(m: seq<Shard>, removed: Topology, kept: Topology, survivors: set<Shard>, quota: nat)
    requires Inverse(removed, m) && Inverse(kept, m) && removed.Keys !! kept.Keys
    requires survivors != {} && survivors <= kept.Keys && quota == |m| / |survivors|
    ensures SlotsSuffice(Ascending(removed.Keys), removed, Ascending(kept.Keys), kept, quota)
  {
    hide Concat, Ascending, Inverts;
    var sources, keys := Ascending(removed.Keys), Ascending(kept.Keys);
    SlotsPlusHeld(keys, kept, quota);
    PartsHoldAtMost(m, sources, removed, keys, kept);
    SubsetCardinality(survivors, kept.Keys);
    SlotArithmetic(|Concat(Contents(sources, removed))|, |Concat(RemoveSlots(keys, kept, quota))|,
                   |Concat(Contents(keys, kept))|, |m|, |keys|, |survivors|, quota);
  }

  lemma SlotArithmetic(leaving: nat, slots: nat, held: nat, n: nat, keys: nat, survivors: nat, quota: nat)
    requires survivors > 0 && survivors <= keys && quota == n / survivors
    requires slots + held >= keys * (quota + 1) && leaving + held <= n
    ensures leaving < slots
  {
    TimesMonotonic(survivors, keys, quota + 1);
    DivisionFloor(n, survivors);
  }

  /** With k configured shards, m distinct ones removed and quota q = N / (k - m): if every survivor
      owns a vnode the removal succeeds, and if nothing else does, the receivers are exactly the survivors. */
  lemma RemovalNeverRunsOut(m: seq<Shard>, configured: set<Shard>, removeNodes: seq<Shard>, quota: nat)
    requires Distinct(removeNodes) && Elements(removeNodes) <= configured && |removeNodes| < |configured|
    requires forall s :: s in configured && s !in removeNodes ==> s in m
    requires quota == |m| / (|configured| - |removeNodes|)
    ensures var removed, kept := RemovedPart(TopologyOf(m), removeNodes), KeptPart(TopologyOf(m), removeNodes);
      && kept != map[]
      && SlotsSuffice(Ascending(removed.Keys), removed, Ascending(kept.Keys), kept, quota)
      && ((forall v :: 0 <= v < |m| ==> m[v] in configured) ==> kept.Keys == configured - Elements(removeNodes))
  {
    hide Concat, Ascending, TopologyOf, SlotsSuffice, Inverts;
    var survivors := configured - Elements(removeNodes);
    DistinctCardinality(removeNodes);
    assert configured == survivors + Elements(removeNodes);
    TopologyInvertsMap(m);
    PartsKeepInverting(m, removeNodes);
    var removed, kept := RemovedPart(TopologyOf(m), removeNodes), KeptPart(TopologyOf(m), removeNodes);
    assert survivors <= kept.Keys;
    SurvivorsSuffice(m, removed, kept, survivors, quota);
  }

  /** A survivor that started with S vnodes ends with at most max(q, S) + 1. */
  lemma SurvivorShare(removed: Topology, kept: Topology, quota: nat, s: Shard)
    requires s in kept
    ensures |kept[s]| <= |Held(Place(kept, RemovePlan(removed, kept, quota)), s)| <= Max(quota, |kept[s]|) + 1
  {
    hide Concat, Ascending, Place;
    var keys := Ascending(kept.Keys);
    var p, parts := RemovePlan(removed, kept, quota), RemoveSlots(keys, kept, quota);
    PushedLength(kept, p, Concat(parts), |p|, s);
    assert p[..|p|] == p;
    CountPrefix(Concat(parts), |p|, s);
    RemoveSlotsCount(keys, kept, quota, |keys|, s);
    assert parts[..|keys|] == parts && keys[..|keys|] == keys;
  }

  /** When the slots suffice every vnode of a removed shard moves, so no removed shard owns any. */
  lemma RemovedShardsOwnNothing(m: seq<Shard>, removeNodes: seq<Shard>, quota: nat, v: Vnode)
    requires v < |m|
    requires var removed, kept := RemovedPart(TopologyOf(m), removeNodes), KeptPart(TopologyOf(m), removeNodes);
      SlotsSuffice(Ascending(removed.Keys), removed, Ascending(kept.Keys), kept, quota)
    ensures var p := RemovePlan(RemovedPart(TopologyOf(m), removeNodes), KeptPart(TopologyOf(m), removeNodes), quota);
      Sound(m, p) && ApplyMoves(m, p)[v] !in removeNodes
  {
    hide Concat, Ascending, TopologyOf, ApplyMoves, SlotsSuffice, Place, MoveList, RemovePlan;
    var t := TopologyOf(m);
    var removed, kept := RemovedPart(t, removeNodes), KeptPart(t, removeNodes);
    var p := RemovePlan(removed, kept, quota);
    RemovePlanIsSound(m, removeNodes, quota);
    MovesAndNothingElse(m, p, v);
    TargetsAreKept(removed, kept, quota);
    if m[v] in removeNodes {
      TopologyInvertsMap(m);
      assert Inverts(t, m, m[v]) && v in Held(t, m[v]);
      var i := EveryRemovedVnodeMoves(removed, kept, quota, m[v], v);
    }
  }

  lemma TargetsAreKept(removed: Topology, kept: Topology, quota: nat)
    ensures var p := RemovePlan(removed, kept, quota); forall i :: 0 <= i < |p| ==> p[i].target in kept
  {
    hide Concat, Ascending;
    SlotsNameSurvivors(Ascending(kept.Keys), kept, quota);
  }

  lemma EveryRemovedVnodeMoves(removed: Topology, kept: Topology, quota: nat, s: Shard, v: Vnode) returns (i: nat)
    requires s in removed && v in removed[s]
    requires SlotsSuffice(Ascending(removed.Keys), removed, Ascending(kept.Keys), kept, quota)
    ensures var p := RemovePlan(removed, kept, quota); i < |p| && p[i].vnode == v && p[i].target in kept
  {
    hide Concat, Ascending;
    var sources, keys := Ascending(removed.Keys), Ascending(kept.Keys);
    var leaving, slots := Concat(Contents(sources, removed)), Concat(RemoveSlots(keys, kept, quota));
    SlotsNameSurvivors(keys, kept, quota);
    ContentsMember(sources, removed, s, v);
    i :| 0 <= i < |leaving| && leaving[i] == (s, v);
    assert slots[i] in keys;
  }

  lemma ContentsMember(keys: seq<Shard>, t: Topology, s: Shard, v: Vnode)
    requires Lists(keys, t) && s in keys && v in t[s]
    ensures (s, v) in Concat(Contents(keys, t))
  {
    var parts := Contents(keys, t);
    var k :| 0 <= k < |keys| && keys[k] == s;
    var j :| 0 <= j < |t[s]| && t[s][j] == v;
    assert parts[k][j] == (s, v);
    assert (s, v) in parts[k];
    ConcatMember(parts, (s, v));
  }
}
