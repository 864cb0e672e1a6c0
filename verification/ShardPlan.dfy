/** Planning a change of shards: which virtual node moves from which shard to which.
    Models removeSharding and migrateSharding, which rewrite a vnode -> shard map, a list of moves
    and a shard -> vnodes topology together. */
module ShardPlan {
  import opened Sequences

  type Shard = nat
  type Vnode = nat
  type Topology = map<Shard, seq<Vnode>>
  datatype Move = Move(vnode: Vnode, source: Shard, target: Shard)

  function Held(t: Topology, s: Shard): seq<Vnode> {
    if s in t then t[s] else []
  }

  function Push(t: Topology, s: Shard, v: Vnode): Topology {
    t[s := Held(t, s) + [v]]
  }

  // ----- the topology a map describes

  /** Every vnode is pushed, in index order, on the list of the shard the map gives it. */
  ghost function TopologyOf(m: seq<Shard>): Topology {
    if m == [] then map[] else Push(TopologyOf(m[..|m| - 1]), m[|m| - 1], |m| - 1)
  }

  method BuildTopology(shardingMap: array<Shard>) returns (t: Topology)
    ensures t == TopologyOf(shardingMap[..])
  {
    t := map[];
    for i := 0 to shardingMap.Length
      invariant t == TopologyOf(shardingMap[..i])
    {
      assert shardingMap[..i + 1][..i] == shardingMap[..i];
      t := Push(t, shardingMap[i], i);
    }
    assert shardingMap[..] == shardingMap[..shardingMap.Length];
  }

  /** On shard s the topology lists exactly the vnodes the map gives to s, each once. */
  ghost predicate Inverts(t: Topology, m: seq<Shard>, s: Shard) {
    && Distinct(Held(t, s))
    && forall v: nat :: v in Held(t, s) <==> v < |m| && m[v] == s
  }

  lemma {:induction false} TopologyInvertsMap(m: seq<Shard>)
    ensures forall s :: s in TopologyOf(m) <==> s in m
    ensures forall s :: s in TopologyOf(m) ==> TopologyOf(m)[s] != []
    ensures forall s :: Inverts(TopologyOf(m), m, s)
  {
    if m != [] {
      var front, last := m[..|m| - 1], m[|m| - 1];
      TopologyInvertsMap(front);
      var t, t' := TopologyOf(front), TopologyOf(m);
      forall s
        ensures Inverts(t', m, s)
      {
        assert Inverts(t, front, s);
        if s == last {
          assert Held(t', s) == Held(t, s) + [|front|];
          assert |front| !in Held(t, s);
        } else {
          assert Held(t', s) == Held(t, s);
        }
      }
    }
  }

  // ----- carrying out a list of moves

  ghost predicate InRange(p: seq<Move>, size: nat) {
    forall i :: 0 <= i < |p| ==> p[i].vnode < size
  }

  ghost function ApplyMoves(m: seq<Shard>, p: seq<Move>): (r: seq<Shard>)
    requires InRange(p, |m|)
    ensures |r| == |m|
  {
    if p == [] then m else ApplyMoves(m, p[..|p| - 1])[p[|p| - 1].vnode := p[|p| - 1].target]
  }

  ghost function MoveList(p: seq<Move>): map<Vnode, (Shard, Shard)> {
    if p == [] then
      map[]
    else
      MoveList(p[..|p| - 1])[p[|p| - 1].vnode := (p[|p| - 1].source, p[|p| - 1].target)]
  }

  /** The topology after each moved vnode has been pushed on its new shard's list. */
  ghost function Place(t: Topology, p: seq<Move>): Topology {
    if p == [] then t else Push(Place(t, p[..|p| - 1]), p[|p| - 1].target, p[|p| - 1].vnode)
  }

  ghost function Targets(p: seq<Move>): seq<Shard> {
    seq(|p|, i requires 0 <= i < |p| => p[i].target)
  }

  lemma OneMoreMove(m: seq<Shard>, t: Topology, p: seq<Move>, n: nat)
    requires n < |p| && InRange(p, |m|)
    ensures ApplyMoves(m, p[..n + 1]) == ApplyMoves(m, p[..n])[p[n].vnode := p[n].target]
    ensures MoveList(p[..n + 1]) == MoveList(p[..n])[p[n].vnode := (p[n].source, p[n].target)]
    ensures Place(t, p[..n + 1]) == Push(Place(t, p[..n]), p[n].target, p[n].vnode)
  {
    assert p[..n + 1][..n] == p[..n];
  }

  lemma {:induction false} PlacedLength(t: Topology, p: seq<Move>, s: Shard)
    ensures |Held(Place(t, p), s)| == |Held(t, s)| + Count(Targets(p), s)
  {
    if p != [] {
      var front := p[..|p| - 1];
      PlacedLength(t, front, s);
      assert Targets(p)[..|p| - 1] == Targets(front);
    }
  }

  /** The moves relocate distinct vnodes, each away from the shard that owns it under m. */
  ghost predicate Sound(m: seq<Shard>, p: seq<Move>) {
    && InRange(p, |m|)
    && (forall i, j :: 0 <= i < j < |p| ==> p[i].vnode != p[j].vnode)
    && (forall i :: 0 <= i < |p| ==> p[i].source == m[p[i].vnode] && p[i].target != p[i].source)
  }

  lemma SoundPrefix(m: seq<Shard>, p: seq<Move>, n: nat)
    requires Sound(m, p) && n <= |p|
    ensures Sound(m, p[..n])
  {
  }

  lemma {:induction false} MovesAndNothingElse(m: seq<Shard>, p: seq<Move>, v: Vnode)
    requires Sound(m, p) && v < |m|
    ensures v in MoveList(p) <==> exists i :: 0 <= i < |p| && p[i].vnode == v
    ensures v in MoveList(p) ==> MoveList(p)[v] == (m[v], ApplyMoves(m, p)[v])
    ensures v in MoveList(p) ==> ApplyMoves(m, p)[v] != m[v]
    ensures v !in MoveList(p) ==> ApplyMoves(m, p)[v] == m[v]
    ensures forall i :: 0 <= i < |p| && p[i].vnode == v ==> ApplyMoves(m, p)[v] == p[i].target
  {
    if p != [] {
      var front := p[..|p| - 1];
      SoundPrefix(m, p, |p| - 1);
      MovesAndNothingElse(m, front, v);
      if i :| 0 <= i < |front| && front[i].vnode == v {
        assert p[i].vnode == v;
      }
      if i :| 0 <= i < |p| && p[i].vnode == v {
        if i < |front| {
          assert front[i].vnode == v;
        }
      }
    }
  }

  lemma {:induction false} MoveListSize(p: seq<Move>)
    requires forall i, j :: 0 <= i < j < |p| ==> p[i].vnode != p[j].vnode
    ensures |MoveList(p)| == |p|
    ensures forall v :: v in MoveList(p) ==> exists i :: 0 <= i < |p| && p[i].vnode == v
  {
    if p != [] {
      var front := p[..|p| - 1];
      MoveListSize(front);
      assert p[|p| - 1].vnode !in MoveList(front);
      forall v | v in MoveList(p)
        ensures exists i :: 0 <= i < |p| && p[i].vnode == v
      {
        if v in MoveList(front) {
          var i :| 0 <= i < |front| && front[i].vnode == v;
          assert p[i].vnode == v;
        }
      }
    }
  }

  /** The new map differs from the old one exactly on the listed vnodes; each entry records that
      vnode's true old and new owner; and no vnode is moved twice. */
  lemma MoveListIsTheDifference(m: seq<Shard>, p: seq<Move>)
    requires Sound(m, p)
    ensures forall v :: 0 <= v < |m| ==> (v in MoveList(p) <==> ApplyMoves(m, p)[v] != m[v])
    ensures forall v :: v in MoveList(p) ==> v < |m| && MoveList(p)[v] == (m[v], ApplyMoves(m, p)[v])
    ensures |MoveList(p)| == |p|
  {
    MoveListSize(p);
    forall v: Vnode | v < |m|
      ensures v in MoveList(p) <==> ApplyMoves(m, p)[v] != m[v]
      ensures v in MoveList(p) ==> MoveList(p)[v] == (m[v], ApplyMoves(m, p)[v])
    {
      MovesAndNothingElse(m, p, v);
    }
  }

  /** If the base topology inverts the old map on a set of receiving shards, and the moves bring
      vnodes from outside that set into it, then the placed topology inverts the new map there. */
  lemma {:induction false} PlacementInvertsNewMap(m: seq<Shard>, t: Topology, p: seq<Move>, receivers: set<Shard>)
    requires Sound(m, p)
    requires forall s :: s in receivers ==> Inverts(t, m, s)
    requires forall i :: 0 <= i < |p| ==> p[i].source !in receivers && p[i].target in receivers
    ensures forall s :: s in receivers ==> Inverts(Place(t, p), ApplyMoves(m, p), s)
  {
    if p != [] {
      var front, last := p[..|p| - 1], p[|p| - 1];
      SoundPrefix(m, p, |p| - 1);
      PlacementInvertsNewMap(m, t, front, receivers);
      MovesAndNothingElse(m, front, last.vnode);
      assert last.vnode !in MoveList(front);
      forall s | s in receivers
        ensures Inverts(Place(t, p), ApplyMoves(m, p), s)
      {
        assert Inverts(Place(t, front), ApplyMoves(m, front), s);
      }
    }
  }

  // ----- which vnodes leave, and where they go

  /** The i-th vnode leaving goes into the i-th free slot, as long as there are both. */
  ghost function Plan(leaving: seq<(Shard, Vnode)>, slots: seq<Shard>): (p: seq<Move>)
    ensures |p| == Min(|leaving|, |slots|)
  {
    seq(Min(|leaving|, |slots|),
        i requires 0 <= i < Min(|leaving|, |slots|) => Move(leaving[i].1, leaving[i].0, slots[i]))
  }

  ghost function Tagged(s: Shard, list: seq<Vnode>): seq<(Shard, Vnode)> {
    seq(|list|, j requires 0 <= j < |list| => (s, list[j]))
  }

  /** What a donor can spare: all but its first quota + 1 vnodes, last one first. */
  ghost function Surplus(s: Shard, list: seq<Vnode>, quota: nat): (r: seq<(Shard, Vnode)>)
    ensures |r| == Max(0, |list| - quota - 1)
  {
    seq(Max(0, |list| - quota - 1),
        j requires 0 <= j < Max(0, |list| - quota - 1) => (s, list[|list| - 1 - j]))
  }

  ghost predicate Lists(keys: seq<Shard>, t: Topology) {
    forall i :: 0 <= i < |keys| ==> keys[i] in t
  }

  ghost function Surpluses(keys: seq<Shard>, t: Topology, quota: nat): (r: seq<seq<(Shard, Vnode)>>)
    requires Lists(keys, t)
    ensures |r| == |keys|
  {
    seq(|keys|, i requires 0 <= i < |keys| => Surplus(keys[i], t[keys[i]], quota))
  }

  ghost function Contents(keys: seq<Shard>, t: Topology): (r: seq<seq<(Shard, Vnode)>>)
    requires Lists(keys, t)
    ensures |r| == |keys|
  {
    seq(|keys|, i requires 0 <= i < |keys| => Tagged(keys[i], t[keys[i]]))
  }

  /** A new node takes quota vnodes; named again, it takes one more (its list is already full). */
  ghost function AddSlots(newNodes: seq<Shard>, quota: nat): (r: seq<seq<Shard>>)
    ensures |r| == |newNodes|
  {
    seq(|newNodes|, i requires 0 <= i < |newNodes| =>
      Repeat(newNodes[i], if newNodes[i] in newNodes[..i] then 1 else quota))
  }

  /** A survivor takes at least one vnode, and stops once it owns more than quota. */
  ghost function RemoveSlots(keys: seq<Shard>, t: Topology, quota: nat): (r: seq<seq<Shard>>)
    requires Lists(keys, t)
    ensures |r| == |keys|
  {
    seq(|keys|, i requires 0 <= i < |keys| =>
      Repeat(keys[i], Max(quota, |t[keys[i]]|) + 1 - |t[keys[i]]|))
  }

  ghost function AddPlan(t: Topology, newNodes: seq<Shard>, quota: nat): seq<Move> {
    Plan(Concat(Surpluses(Ascending(t.Keys), t, quota)), Concat(AddSlots(newNodes, quota)))
  }

  ghost function RemovePlan(removed: Topology, kept: Topology, quota: nat): seq<Move> {
    Plan(Concat(Contents(Ascending(removed.Keys), removed)),
         Concat(RemoveSlots(Ascending(kept.Keys), kept, quota)))
  }

  // ----- the slot cursor both loops keep

  /** Slot n lies in part k (or k is past the end and every slot is used). */
  ghost predicate Cursor(parts: seq<seq<Shard>>, k: nat, n: nat) {
    && k <= |parts|
    && |Concat(parts[..k])| <= n <= |Concat(parts)|
    && (k < |parts| ==> n < |Concat(parts[..k])| + |parts[k]|)
    && (k == |parts| ==> n == |Concat(parts)|)
  }

  lemma CursorSlot(parts: seq<seq<Shard>>, k: nat, n: nat)
    requires Cursor(parts, k, n) && k < |parts|
    ensures n < |Concat(parts)|
    ensures Concat(parts)[n] == parts[k][n - |Concat(parts[..k])|]
  {
    ConcatAt(parts, k, n - |Concat(parts[..k])|);
  }

  lemma CursorMoves(parts: seq<seq<Shard>>, k: nat, n: nat)
    requires Cursor(parts, k, n) && k < |parts|
    requires forall i :: 0 <= i < |parts| ==> |parts[i]| > 0
    ensures n + 1 < |Concat(parts[..k])| + |parts[k]| ==> Cursor(parts, k, n + 1)
    ensures n + 1 == |Concat(parts[..k])| + |parts[k]| ==> Cursor(parts, k + 1, n + 1)
  {
    CursorSlot(parts, k, n);
    ConcatTake(parts, k);
    ConcatPrefix(parts, k + 1);
    if k + 1 == |parts| {
      assert parts[..k + 1] == parts;
    }
  }

  /** How often the current part's node occurs among the slots used so far. */
  lemma CursorCount(parts: seq<seq<Shard>>, k: nat, u: nat, x: Shard)
    requires k < |parts| && u <= |parts[k]|
    requires forall j :: 0 <= j < |parts[k]| ==> parts[k][j] == x
    ensures |Concat(parts[..k])| + u <= |Concat(parts)|
    ensures Count(Concat(parts)[..|Concat(parts[..k])| + u], x) == Count(Concat(parts[..k]), x) + u
  {
    ConcatTake(parts, k);
    ConcatPrefix(parts, k + 1);
    assert Concat(parts)[..|Concat(parts[..k])| + u] == Concat(parts[..k]) + parts[k][..u];
    CountAppend(Concat(parts[..k]), parts[k][..u], x);
    CountUniform(parts[k][..u], x, x);
  }

  lemma UniformPartCount(parts: seq<seq<Shard>>, k: nat, y: Shard, x: Shard)
    requires k < |parts| && forall j :: 0 <= j < |parts[k]| ==> parts[k][j] == y
    ensures Count(Concat(parts[..k + 1]), x) == Count(Concat(parts[..k]), x) + if x == y then |parts[k]| else 0
  {
    ConcatTake(parts, k);
    CountAppend(Concat(parts[..k]), parts[k], x);
    CountUniform(parts[k], y, x);
  }

  lemma PrefixMore(s: seq<Shard>, k: nat, x: Shard)
    requires k < |s|
    ensures x in s[..k + 1] <==> x in s[..k] || x == s[k]
    ensures Count(s[..k + 1], x) == Count(s[..k], x) + if x == s[k] then 1 else 0
  {
    assert s[..k + 1] == s[..k] + [s[k]] && s[..k + 1][..k] == s[..k];
  }

  lemma NothingCounted(parts: seq<seq<Shard>>, s: seq<Shard>, x: Shard)
    ensures Count(Concat(parts[..0]), x) == 0 && Count(s[..0], x) == 0
  {
  }

  /** Every naming after the first one gives a node one place more. */
  lemma {:induction false} AddSlotsCount(newNodes: seq<Shard>, quota: nat, k: nat, x: Shard)
    requires k <= |newNodes|
    ensures x !in newNodes[..k] ==> Count(newNodes[..k], x) == Count(Concat(AddSlots(newNodes, quota)[..k]), x) == 0
    ensures x in newNodes[..k] ==>
      && Count(newNodes[..k], x) >= 1
      && Count(Concat(AddSlots(newNodes, quota)[..k]), x) == quota + Count(newNodes[..k], x) - 1
  {
    hide Concat, Count;
    if k == 0 {
      NothingCounted(AddSlots(newNodes, quota), newNodes, x);
    } else {
      AddSlotsCount(newNodes, quota, k - 1, x);
      UniformPartCount(AddSlots(newNodes, quota), k - 1, newNodes[k - 1], x);
      PrefixMore(newNodes, k - 1, x);
    }
  }

  lemma AddNodeIsFull(newNodes: seq<Shard>, quota: nat, k: nat, n: nat)
    requires quota >= 1
    requires k < |newNodes| && Cursor(AddSlots(newNodes, quota), k, n)
    ensures n < |Concat(AddSlots(newNodes, quota))| && Concat(AddSlots(newNodes, quota))[n] == newNodes[k]
    ensures Count(Concat(AddSlots(newNodes, quota))[..n + 1], newNodes[k]) >= quota
            <==> n + 1 == |Concat(AddSlots(newNodes, quota)[..k])| + |AddSlots(newNodes, quota)[k]|
  {
    var parts := AddSlots(newNodes, quota);
    CursorSlot(parts, k, n);
    CursorCount(parts, k, n + 1 - |Concat(parts[..k])|, newNodes[k]);
    AddSlotsCount(newNodes, quota, k, newNodes[k]);
  }

  lemma {:induction false} RemoveSlotsCount(keys: seq<Shard>, t: Topology, quota: nat, k: nat, x: Shard)
    requires Lists(keys, t) && StrictlyAscending(keys) && k <= |keys|
    ensures x !in keys[..k] ==> Count(Concat(RemoveSlots(keys, t, quota)[..k]), x) == 0
    ensures x in keys[..k] ==>
      x in t && Count(Concat(RemoveSlots(keys, t, quota)[..k]), x) == Max(quota, |t[x]|) + 1 - |t[x]|
  {
    hide Concat, Count;
    if k == 0 {
      NothingCounted(RemoveSlots(keys, t, quota), keys, x);
    } else {
      RemoveSlotsCount(keys, t, quota, k - 1, x);
      UniformPartCount(RemoveSlots(keys, t, quota), k - 1, keys[k - 1], x);
      PrefixMore(keys, k - 1, x);
    }
  }

  lemma SurvivorIsFull(keys: seq<Shard>, t: Topology, quota: nat, k: nat, n: nat)
    requires Lists(keys, t) && StrictlyAscending(keys)
    requires k < |keys| && Cursor(RemoveSlots(keys, t, quota), k, n)
    ensures n < |Concat(RemoveSlots(keys, t, quota))| && Concat(RemoveSlots(keys, t, quota))[n] == keys[k]
    ensures |t[keys[k]]| + Count(Concat(RemoveSlots(keys, t, quota))[..n + 1], keys[k]) > quota
            <==> n + 1 == |Concat(RemoveSlots(keys, t, quota)[..k])| + |RemoveSlots(keys, t, quota)[k]|
  {
    var parts := RemoveSlots(keys, t, quota);
    CursorSlot(parts, k, n);
    CursorCount(parts, k, n + 1 - |Concat(parts[..k])|, keys[k]);
    RemoveSlotsCount(keys, t, quota, k, keys[k]);
  }

  // ----- the two planning loops

  ghost predicate ListsInRange(t: Topology, size: nat) {
    forall s, v :: s in t && v in t[s] ==> v < size
  }

  ghost predicate Committed(was: seq<Shard>, base: Topology, plan: seq<Move>, n: nat,
                            now: seq<Shard>, moves: map<Vnode, (Shard, Shard)>, topology: Topology)
  {
    && n <= |plan| && InRange(plan, |was|)
    && now == ApplyMoves(was, plan[..n])
    && moves == MoveList(plan[..n])
    && topology == Place(base, plan[..n])
  }

  /** What leaves a topology's lists is in the range of those lists. */
  lemma LeavingInRange(keys: seq<Shard>, t: Topology, parts: seq<seq<(Shard, Vnode)>>, size: nat)
    requires Lists(keys, t) && ListsInRange(t, size) && |parts| == |keys|
    requires forall k, j :: 0 <= k < |parts| && 0 <= j < |parts[k]| ==> parts[k][j].1 in t[keys[k]]
    ensures forall i :: 0 <= i < |Concat(parts)| ==> Concat(parts)[i].1 < size
  {
    forall i | 0 <= i < |Concat(parts)|
      ensures Concat(parts)[i].1 < size
    {
      ConcatMember(parts, Concat(parts)[i]);
      var k :| 0 <= k < |parts| && Concat(parts)[i] in parts[k];
      var j :| 0 <= j < |parts[k]| && parts[k][j] == Concat(parts)[i];
      assert keys[k] in t && Concat(parts)[i].1 in t[keys[k]];
    }
  }

  lemma SurplusesAreHeld(keys: seq<Shard>, t: Topology, quota: nat)
    requires Lists(keys, t)
    ensures forall k, j :: 0 <= k < |keys| && 0 <= j < |Surpluses(keys, t, quota)[k]| ==>
      Surpluses(keys, t, quota)[k][j].1 in t[keys[k]]
  {
  }

  lemma PushedLength(base: Topology, plan: seq<Move>, slots: seq<Shard>, n: nat, s: Shard)
    requires n <= |plan| && n <= |slots|
    requires forall i :: 0 <= i < n ==> plan[i].target == slots[i]
    ensures |Held(Place(base, plan[..n]), s)| == |Held(base, s)| + Count(slots[..n], s)
  {
    PlacedLength(base, plan[..n], s);
    assert Targets(plan[..n]) == slots[..n];
  }

  /** One iteration of the innermost adding loop: the donor's vnode list[vnodeIndex] is the next
      planned move, and its new node is full exactly when the cursor passes on. */
  lemma AddStep(was: seq<Shard>, donors: seq<Shard>, topology: Topology, newNodes: seq<Shard>, quota: nat,
                d: nat, vnodeIndex: nat, migrateTo: nat, n: nat,
                now: seq<Shard>, moves: map<Vnode, (Shard, Shard)>, newTopology: Topology)
    requires Lists(donors, topology) && ListsInRange(topology, |was|) && quota >= 1
    requires d < |donors| && quota < vnodeIndex < |topology[donors[d]]| && migrateTo < |newNodes|
    requires Cursor(AddSlots(newNodes, quota), migrateTo, n)
    requires n == |Concat(Surpluses(donors, topology, quota)[..d])| + |topology[donors[d]]| - 1 - vnodeIndex
    requires Committed(was, map[], Plan(Concat(Surpluses(donors, topology, quota)), Concat(AddSlots(newNodes, quota))), n,
                       now, moves, newTopology)
    ensures
      var vid, node := topology[donors[d]][vnodeIndex], newNodes[migrateTo];
      var plan := Plan(Concat(Surpluses(donors, topology, quota)), Concat(AddSlots(newNodes, quota)));
      && vid < |was| == |now|
      && Committed(was, map[], plan, n + 1, now[vid := node], moves[vid := (donors[d], node)], Push(newTopology, node, vid))
      && Cursor(AddSlots(newNodes, quota),
                if |Push(newTopology, node, vid)[node]| >= quota then migrateTo + 1 else migrateTo, n + 1)
  {
    hide Concat, Count, ApplyMoves, MoveList, Place;
    var outParts, slotParts := Surpluses(donors, topology, quota), AddSlots(newNodes, quota);
    var out, slots := Concat(outParts), Concat(slotParts);
    var plan := Plan(out, slots);
    ConcatAt(outParts, d, |topology[donors[d]]| - 1 - vnodeIndex);
    AddNodeIsFull(newNodes, quota, migrateTo, n);
    CursorMoves(slotParts, migrateTo, n);
    assert plan[n] == Move(topology[donors[d]][vnodeIndex], donors[d], newNodes[migrateTo]);
    OneMoreMove(was, map[], plan, n);
    PushedLength(map[], plan, slots, n + 1, newNodes[migrateTo]);
  }

  lemma PlanStart(was: seq<Shard>, base: Topology, outParts: seq<seq<(Shard, Vnode)>>, slotParts: seq<seq<Shard>>)
    requires forall i :: 0 <= i < |Concat(outParts)| ==> Concat(outParts)[i].1 < |was|
    requires forall i :: 0 <= i < |slotParts| ==> |slotParts[i]| > 0
    ensures InRange(Plan(Concat(outParts), Concat(slotParts)), |was|)
    ensures Committed(was, base, Plan(Concat(outParts), Concat(slotParts)), 0, was, map[], base)
    ensures Cursor(slotParts, 0, 0)
    ensures |Concat(outParts[..0])| == 0
  {
    if slotParts != [] {
      ConcatAt(slotParts, 0, 0);
    }
  }

  /** Once every donor is drained or every new node is full, the whole plan is carried out. */
  lemma PlanComplete(was: seq<Shard>, base: Topology, outParts: seq<seq<(Shard, Vnode)>>, slotParts: seq<seq<Shard>>,
                     d: nat, k: nat, n: nat, now: seq<Shard>, moves: map<Vnode, (Shard, Shard)>, topology: Topology)
    requires Cursor(slotParts, k, n)
    requires Committed(was, base, Plan(Concat(outParts), Concat(slotParts)), n, now, moves, topology)
    requires (d == |outParts| && n == |Concat(outParts[..d])|) || k == |slotParts|
    ensures var plan := Plan(Concat(outParts), Concat(slotParts));
      now == ApplyMoves(was, plan) && moves == MoveList(plan) && topology == Place(base, plan)
  {
    if d == |outParts| {
      assert outParts[..d] == outParts;
    }
    var plan := Plan(Concat(outParts), Concat(slotParts));
    assert plan[..n] == plan;
  }

  /** The innermost adding loop, for one donor: move its surplus, last vnode first, until nothing
      is left to spare or the last new node is full. */
  method MoveSurplus(newNodes: seq<Shard>, quota: nat, topology: Topology, donors: seq<Shard>, d: nat,
                     shardingMap: array<Shard>, newTopology0: Topology, moves0: map<Vnode, (Shard, Shard)>,
                     migrateTo0: nat, ghost was: seq<Shard>, ghost n0: nat)
    returns (newTopology: Topology, moves: map<Vnode, (Shard, Shard)>, migrateTo: nat, migrateStart: int, ghost n: nat)
    requires Lists(donors, topology) && ListsInRange(topology, |was|) && quota >= 1
    requires d < |donors| && |topology[donors[d]]| > quota && migrateTo0 < |newNodes|
    requires Cursor(AddSlots(newNodes, quota), migrateTo0, n0)
    requires n0 == |Concat(Surpluses(donors, topology, quota)[..d])|
    requires Committed(was, map[], Plan(Concat(Surpluses(donors, topology, quota)), Concat(AddSlots(newNodes, quota))), n0,
                       shardingMap[..], moves0, newTopology0)
    modifies shardingMap
    ensures Committed(was, map[], Plan(Concat(Surpluses(donors, topology, quota)), Concat(AddSlots(newNodes, quota))), n,
                      shardingMap[..], moves, newTopology)
    ensures Cursor(AddSlots(newNodes, quota), migrateTo, n)
    ensures quota <= migrateStart < |topology[donors[d]]|
    ensures migrateTo <= |newNodes| && (migrateTo < |newNodes| ==> migrateStart == quota)
    ensures n == n0 + |topology[donors[d]]| - 1 - migrateStart
  {
    hide Concat, ApplyMoves, MoveList, Place;
    newTopology, moves, migrateTo, n := newTopology0, moves0, migrateTo0, n0;
    var list := topology[donors[d]];
    ghost var plan := Plan(Concat(Surpluses(donors, topology, quota)), Concat(AddSlots(newNodes, quota)));
    migrateStart := |list| - 1;
    var vnodeIndex := migrateStart;
    while vnodeIndex > quota
      invariant quota <= vnodeIndex == migrateStart < |list| && migrateTo < |newNodes|
      invariant Committed(was, map[], plan, n, shardingMap[..], moves, newTopology)
      invariant Cursor(AddSlots(newNodes, quota), migrateTo, n)
      invariant n == n0 + |list| - 1 - vnodeIndex
    {
      var vid := list[vnodeIndex];
      AddStep(was, donors, topology, newNodes, quota, d, vnodeIndex, migrateTo, n,
              shardingMap[..], moves, newTopology);
      moves := moves[vid := (donors[d], newNodes[migrateTo])];
      shardingMap[vid] := newNodes[migrateTo];
      newTopology := Push(newTopology, newNodes[migrateTo], vid);
      n, migrateStart := n + 1, migrateStart - 1;
      if |newTopology[newNodes[migrateTo]]| >= quota {
        // full: turn to the next receiver
        migrateTo := migrateTo + 1;
        if migrateTo >= |newNodes| {
          break;
        }
      }
      vnodeIndex := vnodeIndex - 1;
    }
  }

  method MigrateSharding(newNodes: seq<Shard>, quota: nat, topology: Topology, shardingMap: array<Shard>)
    returns (newTopology: Topology, moves: map<Vnode, (Shard, Shard)>)
    requires quota >= 1
    requires ListsInRange(topology, shardingMap.Length)
    modifies shardingMap
    ensures InRange(AddPlan(topology, newNodes, quota), shardingMap.Length)
    ensures shardingMap[..] == ApplyMoves(old(shardingMap[..]), AddPlan(topology, newNodes, quota))
    ensures moves == MoveList(AddPlan(topology, newNodes, quota))
    ensures newTopology == Place(map[], AddPlan(topology, newNodes, quota))
  {
    hide Concat, ApplyMoves, MoveList, Place, Committed, Cursor, Plan, Surplus;
    ghost var was := shardingMap[..];
    newTopology, moves := map[], map[];
    var migrateTo: nat := 0;
    var donors := KeysInOrder(topology.Keys);
    ghost var outParts, slotParts := Surpluses(donors, topology, quota), AddSlots(newNodes, quota);
    ghost var plan := Plan(Concat(outParts), Concat(slotParts));
    SurplusesAreHeld(donors, topology, quota);
    LeavingInRange(donors, topology, outParts, |was|);
    PlanStart(was, map[], outParts, slotParts);
    ghost var n := 0;
    var d := 0;
    while d < |donors|
      invariant d <= |donors| && migrateTo <= |newNodes|
      invariant Committed(was, map[], plan, n, shardingMap[..], moves, newTopology)
      invariant Cursor(slotParts, migrateTo, n)
      invariant n == |Concat(outParts[..d])|
    {
      var list := topology[donors[d]];
      ConcatTake(outParts, d);
      while migrateTo < |newNodes|
        invariant migrateTo <= |newNodes|
        invariant Committed(was, map[], plan, n, shardingMap[..], moves, newTopology)
        invariant Cursor(slotParts, migrateTo, n)
        invariant || (list == topology[donors[d]] && n == |Concat(outParts[..d])|)
                  || (|list| <= quota && n == |Concat(outParts[..d + 1])|)
                  || migrateTo == |newNodes|
        decreases |list|
      {
        // a donor keeps its first quota vnodes whatever happens
        if |list| <= quota {
          break;
        }
        var migrateStart;
        newTopology, moves, migrateTo, migrateStart, n :=
          MoveSurplus(newNodes, quota, topology, donors, d, shardingMap, newTopology, moves, migrateTo, was, n);
        list := list[..migrateStart];
      }
      if migrateTo >= |newNodes| {
        break;
      }
      d := d + 1;
    }
    PlanComplete(was, map[], outParts, slotParts, d, migrateTo, n, shardingMap[..], moves, newTopology);
  }

  // ----- removing shards

  /** The removed shards' part of the topology: a shard that owns nothing is listed as empty. */
  ghost function RemovedPart(t: Topology, removeNodes: seq<Shard>): Topology {
    map s | s in removeNodes :: Held(t, s)
  }

  ghost function KeptPart(t: Topology, removeNodes: seq<Shard>): Topology {
    t - Elements(removeNodes)
  }

  /** Some slot stays free, or the last one is filled by the very last vnode of the last list. */
  ghost predicate SlotsSuffice(sources: seq<Shard>, removed: Topology, keys: seq<Shard>, kept: Topology, quota: nat)
    requires Lists(sources, removed) && Lists(keys, kept)
  {
    var leaving, slots := |Concat(Contents(sources, removed))|, |Concat(RemoveSlots(keys, kept, quota))|;
    || leaving < slots
    || (leaving == slots && (sources != [] ==> removed[sources[|sources| - 1]] != []))
  }

  lemma RemoveStart(was: seq<Shard>, sources: seq<Shard>, removed: Topology, keys: seq<Shard>, kept: Topology, quota: nat)
    requires Lists(sources, removed) && ListsInRange(removed, |was|) && Lists(keys, kept)
    ensures var plan := Plan(Concat(Contents(sources, removed)), Concat(RemoveSlots(keys, kept, quota)));
      InRange(plan, |was|) && Committed(was, kept, plan, 0, was, map[], kept)
    ensures Cursor(RemoveSlots(keys, kept, quota), 0, 0)
    ensures |Concat(Contents(sources, removed)[..0])| == 0
  {
    LeavingInRange(sources, removed, Contents(sources, removed), |was|);
    PlanStart(was, kept, Contents(sources, removed), RemoveSlots(keys, kept, quota));
  }

  lemma RemoveStep(was: seq<Shard>, sources: seq<Shard>, removed: Topology, keys: seq<Shard>, kept: Topology, quota: nat,
                   r: nat, vnodeIndex: nat, migrateTo: nat, n: nat,
                   now: seq<Shard>, moves: map<Vnode, (Shard, Shard)>, receivers: Topology)
    requires Lists(sources, removed) && ListsInRange(removed, |was|)
    requires Lists(keys, kept) && StrictlyAscending(keys)
    requires r < |sources| && vnodeIndex < |removed[sources[r]]| && migrateTo < |keys|
    requires Cursor(RemoveSlots(keys, kept, quota), migrateTo, n)
    requires n == |Concat(Contents(sources, removed)[..r])| + vnodeIndex
    requires Committed(was, kept, Plan(Concat(Contents(sources, removed)), Concat(RemoveSlots(keys, kept, quota))), n,
                       now, moves, receivers)
    ensures
      var vid, node := removed[sources[r]][vnodeIndex], keys[migrateTo];
      var plan := Plan(Concat(Contents(sources, removed)), Concat(RemoveSlots(keys, kept, quota)));
      && vid < |was| == |now|
      && Committed(was, kept, plan, n + 1, now[vid := node], moves[vid := (sources[r], node)], Push(receivers, node, vid))
      && Cursor(RemoveSlots(keys, kept, quota),
                if |Push(receivers, node, vid)[node]| > quota then migrateTo + 1 else migrateTo, n + 1)
  {
    hide Concat, Count, ApplyMoves, MoveList, Place;
    var inParts, slotParts := Contents(sources, removed), RemoveSlots(keys, kept, quota);
    var leaving, slots := Concat(inParts), Concat(slotParts);
    var plan := Plan(leaving, slots);
    ConcatAt(inParts, r, vnodeIndex);
    SurvivorIsFull(keys, kept, quota, migrateTo, n);
    CursorMoves(slotParts, migrateTo, n);
    assert plan[n] == Move(removed[sources[r]][vnodeIndex], sources[r], keys[migrateTo]);
    OneMoreMove(was, kept, plan, n);
    PushedLength(kept, plan, slots, n + 1, keys[migrateTo]);
  }

  /** When the receivers run out, nothing is left over exactly if this was the last vnode of all. */
  lemma RunsOut(sources: seq<Shard>, removed: Topology, r: nat, vnodeIndex: nat)
    requires Lists(sources, removed) && r < |sources| && vnodeIndex < |removed[sources[r]]|
    ensures |Concat(Contents(sources, removed)[..r])| + vnodeIndex + 1 <= |Concat(Contents(sources, removed))|
    ensures vnodeIndex == |removed[sources[r]]| - 1 && r == |sources| - 1
      <==> && |Concat(Contents(sources, removed)[..r])| + vnodeIndex + 1 == |Concat(Contents(sources, removed))|
           && removed[sources[|sources| - 1]] != []
  {
    var parts := Contents(sources, removed);
    ConcatTake(parts, r);
    ConcatPrefix(parts, r + 1);
    if r == |sources| - 1 {
      assert parts[..r + 1] == parts;
    } else {
      var last := |sources| - 1;
      ConcatTake(parts, last);
      assert parts[..last + 1] == parts;
      ConcatPrefix(parts[..last], r + 1);
      assert parts[..last][..r + 1] == parts[..r + 1];
    }
  }

  /** The verdict of the loop: it fails only when every slot is used before the last vnode of the
      last list, and then the slots do not suffice. */
  lemma Verdict(sources: seq<Shard>, removed: Topology, keys: seq<Shard>, kept: Topology, quota: nat,
                n: nat, r: nat, vnodeIndex: nat)
    requires Lists(sources, removed) && Lists(keys, kept)
    requires r < |sources| && vnodeIndex < |removed[sources[r]]|
    requires Cursor(RemoveSlots(keys, kept, quota), |keys|, n)
    requires n == |Concat(Contents(sources, removed)[..r])| + vnodeIndex + 1
    ensures vnodeIndex == |removed[sources[r]]| - 1 && r + 1 == |sources|
      <==> SlotsSuffice(sources, removed, keys, kept, quota)
  {
    RunsOut(sources, removed, r, vnodeIndex);
  }

  lemma SlotsLeftOver(sources: seq<Shard>, removed: Topology, keys: seq<Shard>, kept: Topology, quota: nat,
                      migrateTo: nat, n: nat)
    requires Lists(sources, removed) && Lists(keys, kept) && migrateTo < |keys|
    requires Cursor(RemoveSlots(keys, kept, quota), migrateTo, n)
    requires n == |Concat(Contents(sources, removed))|
    ensures SlotsSuffice(sources, removed, keys, kept, quota)
  {
    CursorSlot(RemoveSlots(keys, kept, quota), migrateTo, n);
  }

  lemma NothingRemoved(topology: Topology)
    ensures RemovedPart(topology, []) == map[]
  {
  }

  lemma RemovedPartMore(topology: Topology, removeNodes: seq<Shard>, i: nat)
    requires i < |removeNodes| && Distinct(removeNodes[..i + 1])
    ensures Distinct(removeNodes[..i])
    ensures RemovedPart(topology, removeNodes[..i + 1])
         == RemovedPart(topology, removeNodes[..i])[removeNodes[i] := Held(topology - Elements(removeNodes[..i]), removeNodes[i])]
  {
    var more := removeNodes[..i + 1];
    assert more == removeNodes[..i] + [removeNodes[i]] && more[i] == removeNodes[i];
    assert forall j :: 0 <= j < i ==> more[j] == removeNodes[j];
    assert removeNodes[i] !in removeNodes[..i];
  }

  /** Takes the removed shards' lists out of the topology. A shard named twice is found empty the
      second time, and only the number of lists tells. */
  method SplitTopology(removeNodes: seq<Shard>, topology: Topology, ghost size: nat)
    returns (removed: Topology, kept: Topology)
    requires ListsInRange(topology, size)
    ensures ListsInRange(removed, size)
    ensures kept == KeptPart(topology, removeNodes)
    ensures |removed| == |removeNodes| <==> Distinct(removeNodes)
    ensures Distinct(removeNodes) ==> removed == RemovedPart(topology, removeNodes)
  {
    hide RemovedPart, Distinct;
    removed, kept := map[], topology;
    NothingRemoved(topology);
    for i := 0 to |removeNodes|
      invariant removeNodes[..0] == [] && removed.Keys == Elements(removeNodes[..i]) && ListsInRange(removed, size)
      invariant kept == topology - Elements(removeNodes[..i])
      invariant Distinct(removeNodes[..i]) ==> removed == RemovedPart(topology, removeNodes[..i])
    {
      if Distinct(removeNodes[..i + 1]) {
        RemovedPartMore(topology, removeNodes, i);
      }
      removed := removed[removeNodes[i] := Held(kept, removeNodes[i])];
      kept := kept - {removeNodes[i]};
      assert removeNodes[..i + 1] == removeNodes[..i] + [removeNodes[i]];
    }
    assert removeNodes[..|removeNodes|] == removeNodes;
    assert |removed| == |removed.Keys|;
    DistinctIffCardinality(removeNodes);
  }

  /** Hands the removed shards' vnodes, shard by shard in key order, to the receivers. */
  method SpreadVnodes(sources: seq<Shard>, removed: Topology, keys: seq<Shard>, kept: Topology, quota: nat,
                      shardingMap: array<Shard>)
    returns (ok: bool, leftNodes: seq<Shard>, receivers: Topology, moves: map<Vnode, (Shard, Shard)>)
    requires Lists(sources, removed) && ListsInRange(removed, shardingMap.Length)
    requires Lists(keys, kept) && StrictlyAscending(keys) && keys != []
    modifies shardingMap
    ensures leftNodes == keys && (ok <==> SlotsSuffice(sources, removed, keys, kept, quota))
    ensures
      var plan := Plan(Concat(Contents(sources, removed)), Concat(RemoveSlots(keys, kept, quota)));
      && InRange(plan, shardingMap.Length)
      && shardingMap[..] == ApplyMoves(old(shardingMap[..]), plan)
      && moves == MoveList(plan)
      && receivers == Place(kept, plan)
  {
    hide Concat, ApplyMoves, MoveList, Place, Committed, Cursor, Plan, SlotsSuffice;
    ghost var was := shardingMap[..];
    leftNodes, receivers, moves := [], kept, map[];
    ghost var inParts, slotParts := Contents(sources, removed), RemoveSlots(keys, kept, quota);
    ghost var plan := Plan(Concat(inParts), Concat(slotParts));
    RemoveStart(was, sources, removed, keys, kept, quota);
    ghost var n := 0;
    var migrateTo: nat := 0;
    var r := 0;
    while r < |sources|
      invariant r <= |sources|
      invariant r < |sources| ==> migrateTo < |keys|
      invariant migrateTo <= |keys|
      invariant migrateTo == |keys| ==> SlotsSuffice(sources, removed, keys, kept, quota)
      invariant leftNodes == keys[..migrateTo]
      invariant Committed(was, kept, plan, n, shardingMap[..], moves, receivers)
      invariant Cursor(slotParts, migrateTo, n)
      invariant n == |Concat(inParts[..r])|
    {
      var list := removed[sources[r]];
      ConcatTake(inParts, r);
      var vnodeIndex := 0;
      while vnodeIndex < |list|
        invariant vnodeIndex <= |list|
        invariant vnodeIndex < |list| ==> migrateTo < |keys|
        invariant migrateTo <= |keys|
        invariant migrateTo == |keys| ==> r == |sources| - 1 && SlotsSuffice(sources, removed, keys, kept, quota)
        invariant leftNodes == keys[..migrateTo]
        invariant Committed(was, kept, plan, n, shardingMap[..], moves, receivers)
        invariant Cursor(slotParts, migrateTo, n)
        invariant n == |Concat(inParts[..r])| + vnodeIndex
      {
        var vid := list[vnodeIndex];
        RemoveStep(was, sources, removed, keys, kept, quota, r, vnodeIndex, migrateTo, n,
                   shardingMap[..], moves, receivers);
        moves := moves[vid := (sources[r], keys[migrateTo])];
        shardingMap[vid] := keys[migrateTo];
        receivers := Push(receivers, keys[migrateTo], vid);
        n := n + 1;
        if |receivers[keys[migrateTo]]| > quota {
          // full: turn to the next receiver
          leftNodes := leftNodes + [keys[migrateTo]];
          migrateTo := migrateTo + 1;
          if migrateTo == |keys| {
            Verdict(sources, removed, keys, kept, quota, n, r, vnodeIndex);
            if vnodeIndex != |list| - 1 || r + 1 != |sources| {
              PlanComplete(was, kept, inParts, slotParts, r, migrateTo, n, shardingMap[..], moves, receivers);
              return false, leftNodes, receivers, moves;
            }
          }
        }
        vnodeIndex := vnodeIndex + 1;
      }
      r := r + 1;
    }
    assert inParts[..r] == inParts;
    if migrateTo < |keys| {
      SlotsLeftOver(sources, removed, keys, kept, quota, migrateTo, n);
    }
    PlanComplete(was, kept, inParts, slotParts, r, migrateTo, n, shardingMap[..], moves, receivers);
    while migrateTo < |keys|
      invariant migrateTo <= |keys|
      invariant leftNodes == keys[..migrateTo]
    {
      leftNodes := leftNodes + [keys[migrateTo]];
      migrateTo := migrateTo + 1;
    }
    ok := true;
  }

  method RemoveSharding(removeNodes: seq<Shard>, quota: nat, topology: Topology, shardingMap: array<Shard>)
    returns (ok: bool, leftNodes: seq<Shard>, receivers: Topology, moves: map<Vnode, (Shard, Shard)>)
    requires ListsInRange(topology, shardingMap.Length)
    modifies shardingMap
    ensures !Distinct(removeNodes) || KeptPart(topology, removeNodes) == map[] ==>
      !ok && leftNodes == [] && moves == map[] && shardingMap[..] == old(shardingMap[..])
    ensures Distinct(removeNodes) && KeptPart(topology, removeNodes) != map[] ==>
      var removed, kept := RemovedPart(topology, removeNodes), KeptPart(topology, removeNodes);
      var plan := RemovePlan(removed, kept, quota);
      && InRange(plan, shardingMap.Length)
      && (ok <==> SlotsSuffice(Ascending(removed.Keys), removed, Ascending(kept.Keys), kept, quota))
      && leftNodes == Ascending(kept.Keys)
      && shardingMap[..] == ApplyMoves(old(shardingMap[..]), plan)
      && moves == MoveList(plan)
      && receivers == Place(kept, plan)
  {
    hide Concat, ApplyMoves, MoveList, Place, Plan, SlotsSuffice, Ascending;
    leftNodes, moves := [], map[];
    var removed;
    removed, receivers := SplitTopology(removeNodes, topology, shardingMap.Length);
    if receivers == map[] || |removed| != |removeNodes| {
      return false, leftNodes, receivers, moves;
    }
    var sources := KeysInOrder(removed.Keys);
    var keys := KeysInOrder(receivers.Keys);
    assert |keys| == |receivers.Keys|;
    ok, leftNodes, receivers, moves := SpreadVnodes(sources, removed, keys, receivers, quota, shardingMap);
  }
}
