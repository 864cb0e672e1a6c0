/** Moving the documents: doMigrateWork as a state machine over the coordinator's steps and the
    shards' own progress through their write queues. */
module Migration {
  import opened Sequences
  import opened ShardPlan
  import opened ShardTask

  type Doc = string

  /** What a migration is given: the live documents, both maps, the move list, and the shards. */
  datatype Config = Config(
    docs: set<Doc>, hash: Doc -> nat, oldMap: seq<Shard>, newMap: seq<Shard>,
    moves: map<Vnode, (Shard, Shard)>, removing: bool, current: set<Shard>, migrateNodes: set<Shard>)

  function VnodeOf(c: Config, d: Doc): Vnode {
    c.hash(d) % MAX_MAP_SIZE
  }

  ghost predicate Valid(c: Config) {
    && |c.oldMap| == |c.newMap| == MAX_MAP_SIZE
    && RecordsTheChange(c.oldMap, c.newMap, c.moves)
    && (forall v :: v in c.moves ==> c.moves[v].0 in c.current)
    && (forall v :: v in c.moves ==> c.moves[v].1 in (if c.removing then c.current else c.migrateNodes))
    // a shard either gives vnodes away or receives them
    && (forall v, w :: v in c.moves && w in c.moves ==> c.moves[v].0 != c.moves[w].1)
  }

  function OldOwner(c: Config, d: Doc): Shard
    requires Valid(c)
  {
    c.oldMap[VnodeOf(c, d)]
  }

  function NewOwner(c: Config, d: Doc): Shard
    requires Valid(c)
  {
    c.newMap[VnodeOf(c, d)]
  }

  predicate Moving(c: Config, d: Doc)
    requires Valid(c)
  {
    OldOwner(c, d) != NewOwner(c, d)
  }

  datatype Request = Insert(docs: set<Doc>) | Delete(docs: set<Doc>)

  datatype Phase =
    | Generating(todo: set<Shard>)
    | AwaitReady
    | AwaitNewNodes
    | SendingInserts(todo: set<Shard>)
    | AwaitInserts
    | SendingDeletes(todo: set<Shard>)
    | AwaitDeletes
    | Finished(ok: bool)

  /** The shards' contents and write queues, the generated files, and what was done so far. */
  datatype Cluster = Cluster(
    phase: Phase,
    held: map<Shard, set<Doc>>, queue: map<Shard, seq<Request>>,
    inserts: map<Shard, set<Doc>>, deletes: map<Shard, set<Doc>>,
    produced: set<Shard>, insertsSent: set<Shard>, deletesSent: set<Shard>,
    published: seq<Shard>)

  datatype Event =
    | Generate(source: Shard, ok: bool)
    | GenerateDone
    | Ready(ok: bool)
    | NewNodesUp(ok: bool)
    | SendInsert(shard: Shard, ok: bool)
    | InsertsSent
    | InsertsIndexed
    | SendDelete(shard: Shard, ok: bool)
    | DeletesSent
    | DeletesIndexed
    | Work(shard: Shard)

  function DocsAt(m: map<Shard, set<Doc>>, s: Shard): set<Doc> {
    if s in m then m[s] else {}
  }

  function QueueAt(k: Cluster, s: Shard): seq<Request> {
    if s in k.queue then k.queue[s] else []
  }

  predicate Idle(k: Cluster, shards: set<Shard>) {
    forall s :: s in shards ==> QueueAt(k, s) == []
  }

  function Sources(c: Config): set<Shard> {
    set v | v in c.moves :: c.moves[v].0
  }

  function Initial(c: Config): Cluster
    requires Valid(c)
  {
    var shards := (set i | 0 <= i < |c.oldMap| :: c.oldMap[i]);
    Cluster(Generating(Sources(c)),
            map s | s in shards :: set d | d in c.docs && OldOwner(c, d) == s,
            map[], map[], map[], {}, {}, {}, c.oldMap)
  }

  /** The documents a source shard writes for a target: those whose vnode moves between the two. */
  function Outgoing(c: Config, k: Cluster, source: Shard, target: Shard): set<Doc> {
    set d | d in DocsAt(k.held, source) && VnodeOf(c, d) in c.moves && c.moves[VnodeOf(c, d)] == (source, target)
  }

  function Leaving(c: Config, k: Cluster, source: Shard): set<Doc> {
    set d | d in DocsAt(k.held, source) && VnodeOf(c, d) in c.moves && c.moves[VnodeOf(c, d)].0 == source
  }

  function Targets(c: Config): set<Shard> {
    set v | v in c.moves :: c.moves[v].1
  }

  /** A file is created for a shard with its first document, so only nonempty ones are listed. */
  function Produce(c: Config, k: Cluster, s: Shard): Cluster {
    k.(inserts := map t | t in Targets(c) && DocsAt(k.inserts, t) + Outgoing(c, k, s, t) != {}
                    :: DocsAt(k.inserts, t) + Outgoing(c, k, s, t),
       deletes := if Leaving(c, k, s) == {} then k.deletes else k.deletes[s := Leaving(c, k, s)],
       produced := k.produced + {s})
  }

  function Enqueue(k: Cluster, s: Shard, r: Request): Cluster {
    k.(queue := k.queue[s := QueueAt(k, s) + [r]])
  }

  function Apply(held: set<Doc>, r: Request): set<Doc> {
    match r
    case Insert(docs) => held + docs
    case Delete(docs) => held - docs
  }

  function InsertSent(k: Cluster, s: Shard): Cluster
    requires k.phase.SendingInserts?
  {
    Enqueue(k, s, Insert(DocsAt(k.inserts, s))).(
      phase := SendingInserts(k.phase.todo - {s}), insertsSent := k.insertsSent + {s})
  }

  function DeleteSent(k: Cluster, s: Shard): Cluster
    requires k.phase.SendingDeletes?
  {
    Enqueue(k, s, Delete(DocsAt(k.deletes, s))).(
      phase := SendingDeletes(k.phase.todo - {s}), deletesSent := k.deletesSent + {s})
  }

  /** The shard takes the next request off its queue and carries it out. */
  function Worked(k: Cluster, s: Shard): Cluster
    requires QueueAt(k, s) != []
  {
    k.(held := k.held[s := Apply(DocsAt(k.held, s), QueueAt(k, s)[0])],
       queue := k.queue[s := QueueAt(k, s)[1..]])
  }

  /** One step of the coordinator or of a shard; None when the event cannot happen now. */
  function Step(c: Config, k: Cluster, e: Event): Option<Cluster> {
    match e
    case Generate(s, ok) =>
      if k.phase.Generating? && s in k.phase.todo then
        if ok then
          Some(Produce(c, k, s).(phase := Generating(k.phase.todo - {s})))
        else
          // a host that cannot be reached, does not answer or fails breaks the migration off
          Some(k.(phase := Finished(false)))
      else None
    case GenerateDone =>
      if k.phase == Generating({}) then Some(k.(phase := AwaitReady)) else None
    case Ready(ok) =>
      if k.phase != AwaitReady || (ok && !Idle(k, c.current)) then None
      else if !ok then Some(k.(phase := Finished(false)))
      else Some(k.(phase := if c.removing then SendingInserts(k.inserts.Keys) else AwaitNewNodes))
    case NewNodesUp(ok) =>
      if k.phase != AwaitNewNodes then None
      else Some(k.(phase := if ok then SendingInserts(k.inserts.Keys) else Finished(false)))
    case SendInsert(s, ok) =>
      if k.phase.SendingInserts? && s in k.phase.todo then
        if ok then
          Some(InsertSent(k, s))
        else Some(k.(phase := Finished(false)))
      else None
    case InsertsSent =>
      if k.phase == SendingInserts({}) then
        Some(k.(phase := if c.removing then SendingDeletes(k.deletes.Keys) else AwaitInserts))
      else None
    case InsertsIndexed =>
      if k.phase == AwaitInserts && Idle(k, c.migrateNodes) then
        Some(k.(phase := SendingDeletes(k.deletes.Keys)))
      else None
    case SendDelete(s, ok) =>
      if k.phase.SendingDeletes? && s in k.phase.todo then
        if ok then
          Some(DeleteSent(k, s))
        else
          // the result of sending the deletes is not looked at
          Some(k.(phase := AwaitDeletes))
      else None
    case DeletesSent =>
      if k.phase == SendingDeletes({}) then Some(k.(phase := AwaitDeletes)) else None
    case DeletesIndexed =>
      if k.phase == AwaitDeletes && Idle(k, c.current) then
        Some(k.(phase := Finished(true), published := c.newMap))
      else None
    case Work(s) =>
      if QueueAt(k, s) == [] then None else Some(Worked(k, s))
  }

  function Run(c: Config, k: Cluster, events: seq<Event>): Option<Cluster> {
    if events == [] then
      Some(k)
    else
      match Run(c, k, events[..|events| - 1])
      case None => None
      case Some(k') => Step(c, k', events[|events| - 1])
  }

  // ----- the invariant

  /** Document d is in the insert file for s, and in the delete file for s, exactly when it should be. */
  ghost predicate FiledRight(c: Config, k: Cluster, d: Doc, s: Shard)
    requires Valid(c)
  {
    && (d in DocsAt(k.inserts, s) <==> d in c.docs && Moving(c, d) && NewOwner(c, d) == s && OldOwner(c, d) in k.produced)
    && (d in DocsAt(k.deletes, s) <==> d in c.docs && Moving(c, d) && OldOwner(c, d) == s && s in k.produced)
  }

  ghost predicate FilesRight(c: Config, k: Cluster)
    requires Valid(c)
  {
    && k.produced <= Sources(c)
    && (forall s, d :: FiledRight(c, k, d, s))
    && (forall t :: t in k.inserts ==> k.inserts[t] != {})
    && (forall s :: s in k.deletes ==> k.deletes[s] != {})
  }

  ghost predicate QueuesRight(k: Cluster) {
    && k.insertsSent <= k.inserts.Keys
    && k.deletesSent <= k.deletes.Keys
    && forall s ::
         || QueueAt(k, s) == []
         || (s in k.insertsSent && QueueAt(k, s) == [Insert(DocsAt(k.inserts, s))])
         || (s in k.deletesSent && QueueAt(k, s) == [Delete(DocsAt(k.deletes, s))])
  }

  /** A shard holds what it started with, less an executed delete, plus an executed insert. */
  ghost predicate HeldRight(c: Config, k: Cluster, d: Doc, s: Shard)
    requires Valid(c)
  {
    d in DocsAt(k.held, s) <==>
      || (d in c.docs && OldOwner(c, d) == s
          && !(s in k.deletesSent && QueueAt(k, s) == [] && d in DocsAt(k.deletes, s)))
      || (s in k.insertsSent && QueueAt(k, s) == [] && d in DocsAt(k.inserts, s))
  }

  ghost predicate HoldsRight(c: Config, k: Cluster)
    requires Valid(c)
  {
    forall s, d :: HeldRight(c, k, d, s)
  }

  ghost predicate PhaseRight(c: Config, k: Cluster) {
    match k.phase
    case Generating(todo) => todo !! k.produced && k.insertsSent == {} && k.deletesSent == {}
    case AwaitReady => k.insertsSent == {} && k.deletesSent == {}
    case AwaitNewNodes => k.insertsSent == {} && k.deletesSent == {}
    case SendingInserts(todo) => k.deletesSent == {} && todo !! k.insertsSent && todo + k.insertsSent == k.inserts.Keys
    case AwaitInserts => !c.removing && k.deletesSent == {} && k.insertsSent == k.inserts.Keys
    case SendingDeletes(todo) => k.insertsSent == k.inserts.Keys && todo !! k.deletesSent && todo + k.deletesSent == k.deletes.Keys
    case AwaitDeletes => k.insertsSent == k.inserts.Keys
    case Finished(ok) => if ok then k.insertsSent == k.inserts.Keys && Idle(k, c.current) else k.deletesSent == {}
  }

  /** Every source writes its files before the coordinator goes on. */
  ghost predicate AllProduced(c: Config, k: Cluster) {
    match k.phase
    case Generating(todo) => todo + k.produced == Sources(c)
    case Finished(ok) => ok ==> k.produced == Sources(c)
    case _ => k.produced == Sources(c)
  }

  /** When shards are added, no delete is sent before every insert has been indexed. */
  ghost predicate InsertsBeforeDeletes(c: Config, k: Cluster) {
    !c.removing && (k.deletesSent != {} || k.phase.SendingDeletes? || k.phase.AwaitDeletes? || k.phase == Finished(true)) ==>
      Idle(k, k.insertsSent) && k.insertsSent == k.inserts.Keys
  }

  ghost predicate Invariant(c: Config, k: Cluster)
    requires Valid(c)
  {
    && FilesRight(c, k) && QueuesRight(k) && HoldsRight(c, k) && PhaseRight(c, k) && AllProduced(c, k) && InsertsBeforeDeletes(c, k)
    && k.published == (if k.phase == Finished(true) then c.newMap else c.oldMap)
  }

  lemma MovingIsListed(c: Config, d: Doc)
    requires Valid(c)
    ensures Moving(c, d) <==> VnodeOf(c, d) in c.moves
    ensures Moving(c, d) ==> c.moves[VnodeOf(c, d)] == (OldOwner(c, d), NewOwner(c, d))
    ensures Moving(c, d) ==> OldOwner(c, d) in Sources(c) && NewOwner(c, d) in Targets(c)
  {
    var v := VnodeOf(c, d);
    assert v in c.moves <==> c.newMap[v] != c.oldMap[v];
  }

  lemma SourcesAreNotTargets(c: Config, k: Cluster)
    requires Valid(c) && FilesRight(c, k)
    ensures Sources(c) !! Targets(c)
    ensures k.inserts.Keys <= Targets(c) && k.deletes.Keys <= Sources(c)
  {
    forall s | s in k.inserts
      ensures s in Targets(c)
    {
      var d :| d in k.inserts[s];
      assert FiledRight(c, k, d, s);
      MovingIsListed(c, d);
    }
    forall s | s in k.deletes
      ensures s in Sources(c)
    {
      var d :| d in k.deletes[s];
      assert FiledRight(c, k, d, s);
      MovingIsListed(c, d);
    }
  }

  lemma InitialInvariant(c: Config)
    requires Valid(c)
    ensures Invariant(c, Initial(c))
  {
    var k := Initial(c);
    forall s, d
      ensures FiledRight(c, k, d, s) && HeldRight(c, k, d, s)
    {
    }
  }

  lemma WhatASourceFiles(c: Config, k: Cluster, d: Doc, s: Shard, t: Shard)
    requires Valid(c) && HeldRight(c, k, d, s) && k.deletesSent == {} && k.insertsSent == {}
    ensures d in Leaving(c, k, s) <==> d in c.docs && OldOwner(c, d) == s && Moving(c, d)
    ensures d in Outgoing(c, k, s, t) <==> d in Leaving(c, k, s) && NewOwner(c, d) == t
    ensures d in Outgoing(c, k, s, t) ==> t in Targets(c)
  {
    MovingIsListed(c, d);
  }

  lemma ProduceFiles(c: Config, k: Cluster, s: Shard, d: Doc, t: Shard)
    requires Valid(c) && k.deletesSent == {} && k.insertsSent == {} && s !in k.produced
    requires FiledRight(c, k, d, t) && HeldRight(c, k, d, s)
    ensures FiledRight(c, Produce(c, k, s), d, t)
  {
    WhatASourceFiles(c, k, d, s, t);
  }

  lemma ProduceKeepsFilesRight(c: Config, k: Cluster, s: Shard)
    requires Valid(c) && Invariant(c, k) && k.phase.Generating? && s in k.phase.todo
    ensures FilesRight(c, Produce(c, k, s))
  {
    hide FiledRight, HeldRight;
    forall t, d
      ensures FiledRight(c, Produce(c, k, s), d, t)
    {
      assert FiledRight(c, k, d, t) && HeldRight(c, k, d, s);
      ProduceFiles(c, k, s, d, t);
    }
  }

  /** A step that only moves the coordinator on leaves contents, queues and files alone. */
  lemma PhaseChange(c: Config, k: Cluster, k': Cluster)
    requires Valid(c) && Invariant(c, k)
    requires k' == k.(phase := k'.phase, published := k'.published)
    requires PhaseRight(c, k') && AllProduced(c, k') && InsertsBeforeDeletes(c, k')
    requires k'.published == if k'.phase == Finished(true) then c.newMap else c.oldMap
    ensures Invariant(c, k')
  {
    forall s, d
      ensures FiledRight(c, k', d, s) && HeldRight(c, k', d, s)
    {
      assert FiledRight(c, k, d, s) && HeldRight(c, k, d, s);
    }
    assert forall s :: QueueAt(k', s) == QueueAt(k, s);
  }

  lemma ProduceStep(c: Config, k: Cluster, s: Shard)
    requires Valid(c) && Invariant(c, k) && k.phase.Generating? && s in k.phase.todo
    ensures Invariant(c, Produce(c, k, s).(phase := Generating(k.phase.todo - {s})))
  {
    var k' := Produce(c, k, s).(phase := Generating(k.phase.todo - {s}));
    ProduceKeepsFilesRight(c, k, s);
    forall t, d
      ensures FiledRight(c, k', d, t) && HeldRight(c, k', d, t)
    {
      assert FiledRight(c, Produce(c, k, s), d, t) && HeldRight(c, k, d, t);
    }
    forall t
      ensures QueueAt(k', t) == []
    {
      assert QueueAt(k', t) == QueueAt(k, t);
    }
  }

  lemma SendInsertStep(c: Config, k: Cluster, s: Shard)
    requires Valid(c) && Invariant(c, k) && k.phase.SendingInserts? && s in k.phase.todo
    ensures Invariant(c, InsertSent(k, s))
  {
    var k' := InsertSent(k, s);
    assert QueueAt(k, s) == [];
    forall t, d
      ensures FiledRight(c, k', d, t) && HeldRight(c, k', d, t)
    {
      assert FiledRight(c, k, d, t) && HeldRight(c, k, d, t);
    }
    SendKeepsQueuesRight(k, k', s, Insert(DocsAt(k.inserts, s)));
  }

  lemma SendKeepsQueuesRight(k: Cluster, k': Cluster, s: Shard, r: Request)
    requires QueuesRight(k) && QueueAt(k, s) == [] && k'.queue == Enqueue(k, s, r).queue
    requires k'.inserts == k.inserts && k'.deletes == k.deletes
    requires k.insertsSent <= k'.insertsSent <= k.inserts.Keys && k.deletesSent <= k'.deletesSent <= k.deletes.Keys
    requires || (s in k'.insertsSent && r == Insert(DocsAt(k.inserts, s)))
             || (s in k'.deletesSent && r == Delete(DocsAt(k.deletes, s)))
    ensures QueuesRight(k')
  {
    assert forall t :: t != s ==> QueueAt(k', t) == QueueAt(k, t);
  }

  lemma DeleteSentKeeps(c: Config, k: Cluster, s: Shard, d: Doc, t: Shard)
    requires Valid(c) && k.phase.SendingDeletes? && QueueAt(k, s) == [] && s !in k.deletesSent && s !in k.insertsSent
    requires FiledRight(c, k, d, t) && HeldRight(c, k, d, t)
    ensures FiledRight(c, DeleteSent(k, s), d, t) && HeldRight(c, DeleteSent(k, s), d, t)
  {
  }

  lemma NotQueuedYet(c: Config, k: Cluster, s: Shard)
    requires Valid(c) && Invariant(c, k) && k.phase.SendingDeletes? && s in k.phase.todo
    ensures QueueAt(k, s) == [] && s !in k.insertsSent && s !in k.deletesSent
  {
    SourcesAreNotTargets(c, k);
    hide FilesRight, HoldsRight;
  }

  lemma SendLeavesOthersIdle(k: Cluster, s: Shard, shards: set<Shard>)
    requires k.phase.SendingDeletes? && s !in shards && Idle(k, shards)
    ensures Idle(DeleteSent(k, s), shards)
  {
  }

  lemma SendDeleteStep(c: Config, k: Cluster, s: Shard)
    requires Valid(c) && Invariant(c, k) && k.phase.SendingDeletes? && s in k.phase.todo
    ensures Invariant(c, DeleteSent(k, s))
  {
    var k' := DeleteSent(k, s);
    NotQueuedYet(c, k, s);
    if !c.removing {
      SendLeavesOthersIdle(k, s, k.insertsSent);
    }
    hide FiledRight, HeldRight, Valid, QueuesRight, QueueAt, Idle;
    forall t, d
      ensures FiledRight(c, k', d, t) && HeldRight(c, k', d, t)
    {
      assert FiledRight(c, k, d, t) && HeldRight(c, k, d, t);
      DeleteSentKeeps(c, k, s, d, t);
    }
    SendKeepsQueuesRight(k, k', s, Delete(DocsAt(k.deletes, s)));
  }

  /** What working off the one request in its queue does to a shard's contents. */
  lemma WorkAppliesRequest(c: Config, k: Cluster, s: Shard, d: Doc)
    requires Valid(c) && FilesRight(c, k) && QueuesRight(k) && HeldRight(c, k, d, s) && QueueAt(k, s) != []
    ensures HeldRight(c, Worked(k, s), d, s)
  {
    SourcesAreNotTargets(c, k);
    assert FiledRight(c, k, d, s);
    var k' := Worked(k, s);
    assert QueueAt(k', s) == [];
    if s in k.insertsSent {
      assert QueueAt(k, s) == [Insert(DocsAt(k.inserts, s))];
    } else {
      assert QueueAt(k, s) == [Delete(DocsAt(k.deletes, s))];
    }
  }

  /** Another shard is not touched. */
  lemma WorkElsewhere(c: Config, k: Cluster, s: Shard, d: Doc, t: Shard)
    requires Valid(c) && QueueAt(k, s) != [] && FiledRight(c, k, d, t) && HeldRight(c, k, d, t)
    ensures FiledRight(c, Worked(k, s), d, t)
    ensures t != s ==> HeldRight(c, Worked(k, s), d, t)
  {
  }

  lemma WorkKeepsQueuesRight(c: Config, k: Cluster, s: Shard)
    requires Valid(c) && FilesRight(c, k) && QueuesRight(k) && QueueAt(k, s) != []
    ensures QueuesRight(Worked(k, s)) && QueueAt(Worked(k, s), s) == []
    ensures forall shards :: Idle(k, shards) ==> Idle(Worked(k, s), shards)
  {
    hide FilesRight;
    var k' := Worked(k, s);
    assert forall t :: t != s ==> QueueAt(k', t) == QueueAt(k, t);
  }

  lemma WorkStep(c: Config, k: Cluster, s: Shard)
    requires Valid(c) && Invariant(c, k) && QueueAt(k, s) != []
    ensures Invariant(c, Worked(k, s))
  {
    hide FiledRight, HeldRight, QueuesRight, QueueAt, Idle, Valid;
    var k' := Worked(k, s);
    forall t, d
      ensures FiledRight(c, k', d, t) && HeldRight(c, k', d, t)
    {
      assert FiledRight(c, k, d, t) && HeldRight(c, k, d, t);
      WorkElsewhere(c, k, s, d, t);
      if t == s {
        WorkAppliesRequest(c, k, s, d);
      }
    }
    WorkKeepsQueuesRight(c, k, s);
  }

  lemma InsertsIndexedStep(c: Config, k: Cluster)
    requires Valid(c) && Invariant(c, k) && k.phase == AwaitInserts && Idle(k, c.migrateNodes)
    requires !c.removing
    ensures InsertsBeforeDeletes(c, k.(phase := SendingDeletes(k.deletes.Keys)))
  {
    SourcesAreNotTargets(c, k);
    forall s | s in k.insertsSent
      ensures QueueAt(k, s) == []
    {
      assert s in c.migrateNodes;
    }
  }

  lemma CoordinatorMovesOn(c: Config, k: Cluster, e: Event)
    requires Valid(c) && Invariant(c, k) && Step(c, k, e).Some?
    requires !e.Generate? && !e.SendInsert? && !e.SendDelete? && !e.Work?
    ensures Invariant(c, Step(c, k, e).value)
  {
    hide FilesRight, QueuesRight, HoldsRight, Valid, Produce, Worked, InsertSent, DeleteSent;
    if e.InsertsIndexed? {
      InsertsIndexedStep(c, k);
    }
    PhaseChange(c, k, Step(c, k, e).value);
  }

  lemma StepKeepsInvariant(c: Config, k: Cluster, e: Event)
    requires Valid(c) && Invariant(c, k) && Step(c, k, e).Some?
    ensures Invariant(c, Step(c, k, e).value)
  {
    hide FilesRight, QueuesRight, HoldsRight;
    match e
    case Generate(s, ok) =>
      if ok {
        ProduceStep(c, k, s);
      } else {
        PhaseChange(c, k, Step(c, k, e).value);
      }
    case SendInsert(s, ok) =>
      if ok {
        SendInsertStep(c, k, s);
      } else {
        PhaseChange(c, k, Step(c, k, e).value);
      }
    case SendDelete(s, ok) =>
      if ok {
        SendDeleteStep(c, k, s);
      } else {
        PhaseChange(c, k, Step(c, k, e).value);
      }
    case Work(s) => WorkStep(c, k, s);
    case _ => CoordinatorMovesOn(c, k, e);
  }

  lemma {:induction false} RunKeepsInvariant(c: Config, events: seq<Event>)
    requires Valid(c) && Run(c, Initial(c), events).Some?
    ensures Invariant(c, Run(c, Initial(c), events).value)
  {
    if events == [] {
      InitialInvariant(c);
    } else {
      RunKeepsInvariant(c, events[..|events| - 1]);
      StepKeepsInvariant(c, Run(c, Initial(c), events[..|events| - 1]).value, events[|events| - 1]);
    }
  }

  // ----- what every run keeps, and where the documents end

  ghost predicate HeldSomewhere(k: Cluster, d: Doc) {
    exists s :: d in DocsAt(k.held, s)
  }

  ghost predicate PendingSomewhere(k: Cluster, d: Doc) {
    exists s :: QueueAt(k, s) != [] && QueueAt(k, s)[0].Insert? && d in QueueAt(k, s)[0].docs
  }

  /** Adding shards: after every step of every run, each live document is held by its old or its
      new owner - whatever fails, and however the shards' progress interleaves. */
  lemma AddingNeverLosesADocument(c: Config, events: seq<Event>, d: Doc)
    requires Valid(c) && !c.removing && d in c.docs && Run(c, Initial(c), events).Some?
    ensures var k := Run(c, Initial(c), events).value;
      d in DocsAt(k.held, OldOwner(c, d)) || d in DocsAt(k.held, NewOwner(c, d))
  {
    var k := Run(c, Initial(c), events).value;
    RunKeepsInvariant(c, events);
    OwnersAccountFor(c, k, d);
  }

  lemma OwnersAccountFor(c: Config, k: Cluster, d: Doc)
    requires Valid(c) && Invariant(c, k) && d in c.docs
    ensures || d in DocsAt(k.held, OldOwner(c, d))
            || d in DocsAt(k.held, NewOwner(c, d))
            || (c.removing && QueueAt(k, NewOwner(c, d)) == [Insert(DocsAt(k.inserts, NewOwner(c, d)))]
                && d in DocsAt(k.inserts, NewOwner(c, d)))
  {
    var o, n := OldOwner(c, d), NewOwner(c, d);
    assert HeldRight(c, k, d, o) && HeldRight(c, k, d, n);
    assert FiledRight(c, k, d, o) && FiledRight(c, k, d, n);
    SourcesAreNotTargets(c, k);
  }

  /** Adding or removing: a live document that no shard holds is carried by a pending insert. */
  lemma NoDocumentIsForgotten(c: Config, events: seq<Event>, d: Doc)
    requires Valid(c) && d in c.docs && Run(c, Initial(c), events).Some?
    ensures var k := Run(c, Initial(c), events).value; HeldSomewhere(k, d) || PendingSomewhere(k, d)
  {
    RunKeepsInvariant(c, events);
    OwnersAccountFor(c, Run(c, Initial(c), events).value, d);
  }

  /** Breaking off leaves the old map in force and every document still on its old owner. */
  lemma FailureLeavesOldOwners(c: Config, events: seq<Event>, d: Doc)
    requires Valid(c) && d in c.docs && Run(c, Initial(c), events).Some?
    requires Run(c, Initial(c), events).value.phase == Finished(false)
    ensures var k := Run(c, Initial(c), events).value;
      k.published == c.oldMap && d in DocsAt(k.held, OldOwner(c, d))
  {
    RunKeepsInvariant(c, events);
    assert HeldRight(c, Run(c, Initial(c), events).value, d, OldOwner(c, d));
  }

  /** Every document is on exactly the shard the new map gives its vnode. */
  ghost predicate Placed(c: Config, k: Cluster)
    requires Valid(c)
  {
    forall d, s :: d in c.docs ==> (d in DocsAt(k.held, s) <==> s == NewOwner(c, d))
  }

  lemma WhereItEnds(c: Config, k: Cluster, d: Doc, s: Shard)
    requires Valid(c) && Invariant(c, k) && k.phase == Finished(true) && d in c.docs
    ensures d in DocsAt(k.held, s) <==>
      s == NewOwner(c, d) || (s == OldOwner(c, d) && s !in k.deletesSent)
  {
    var o, n := OldOwner(c, d), NewOwner(c, d);
    assert HeldRight(c, k, d, s) && FiledRight(c, k, d, s) && FiledRight(c, k, d, o) && FiledRight(c, k, d, n);
    SourcesAreNotTargets(c, k);
    MovingIsListed(c, d);
    AllIdleAtTheEnd(c, k, s);
  }

  lemma AllIdleAtTheEnd(c: Config, k: Cluster, s: Shard)
    requires Valid(c) && Invariant(c, k) && k.phase == Finished(true)
    ensures QueueAt(k, s) == []
  {
    SourcesAreNotTargets(c, k);
    if s in k.insertsSent {
      assert s in Targets(c);
    } else if s in k.deletesSent {
      assert s in Sources(c);
    }
  }

  lemma StepSendsDelete(c: Config, k: Cluster, e: Event, s: Shard)
    requires Valid(c) && Step(c, k, e).Some?
    ensures s in Step(c, k, e).value.deletesSent <==> s in k.deletesSent || e == SendDelete(s, true)
  {
    hide Valid, Sources, Targets, Outgoing, Leaving, DocsAt, QueueAt, Idle, Apply;
  }

  /** The shards that were sent their deletes are those a successful step sent them to. */
  lemma {:induction false} DeletesSentBySteps(c: Config, events: seq<Event>, s: Shard)
    requires Valid(c) && Run(c, Initial(c), events).Some?
    ensures s in Run(c, Initial(c), events).value.deletesSent <==> SendDelete(s, true) in events
  {
    if events != [] {
      hide Step;
      var front, last := events[..|events| - 1], events[|events| - 1];
      assert events == front + [last];
      DeletesSentBySteps(c, front, s);
      StepSendsDelete(c, Run(c, Initial(c), front).value, last, s);
    }
  }

  ghost predicate NoDeleteMissing(k: Cluster) {
    k.phase == AwaitDeletes || k.phase == Finished(true) ==> k.deletesSent == k.deletes.Keys
  }

  lemma StepMissesNoDelete(c: Config, k: Cluster, e: Event)
    requires Step(c, k, e).Some? && PhaseRight(c, k) && NoDeleteMissing(k)
    requires e.SendDelete? ==> e.ok
    ensures NoDeleteMissing(Step(c, k, e).value)
  {
    hide Sources, Targets, Outgoing, Leaving, DocsAt, QueueAt, Idle, Apply;
  }

  /** Without a failed step the coordinator has sent all deletes when it waits for them. */
  lemma {:induction false} AllDeletesSent(c: Config, events: seq<Event>)
    requires Valid(c) && Run(c, Initial(c), events).Some?
    requires forall s :: SendDelete(s, false) !in events
    ensures NoDeleteMissing(Run(c, Initial(c), events).value)
  {
    if events != [] {
      hide Step, FilesRight, QueuesRight, HoldsRight, InsertsBeforeDeletes, AllProduced, PhaseRight, NoDeleteMissing;
      var front, last := events[..|events| - 1], events[|events| - 1];
      assert events == front + [last] && last in events;
      AllDeletesSent(c, front);
      RunKeepsInvariant(c, front);
      StepMissesNoDelete(c, Run(c, Initial(c), front).value, last);
    }
  }

  /** A migration that reports success has published the new map and brought every live document to its new
      owner; a copy can be left on its old owner, and nowhere else. */
  lemma SuccessBringsDocuments(c: Config, events: seq<Event>, d: Doc)
    requires Valid(c) && d in c.docs && Run(c, Initial(c), events).Some?
    requires Run(c, Initial(c), events).value.phase == Finished(true)
    ensures var k := Run(c, Initial(c), events).value;
      && k.published == c.newMap
      && d in DocsAt(k.held, NewOwner(c, d))
      && forall s :: d in DocsAt(k.held, s) ==> s == NewOwner(c, d) || s == OldOwner(c, d)
  {
    var k := Run(c, Initial(c), events).value;
    RunKeepsInvariant(c, events);
    forall s
      ensures d in DocsAt(k.held, s) <==> s == NewOwner(c, d) || (s == OldOwner(c, d) && s !in k.deletesSent)
    {
      WhereItEnds(c, k, d, s);
    }
  }

  /** After a reported success the documents are exactly where the new map says if and only if every source
      of a document that moved was sent its deletes. */
  lemma SuccessPlacesDocuments(c: Config, events: seq<Event>)
    requires Valid(c) && Run(c, Initial(c), events).Some?
    requires Run(c, Initial(c), events).value.phase == Finished(true)
    ensures Placed(c, Run(c, Initial(c), events).value)
      <==> forall d :: d in c.docs && Moving(c, d) ==> SendDelete(OldOwner(c, d), true) in events
  {
    var k := Run(c, Initial(c), events).value;
    RunKeepsInvariant(c, events);
    hide Invariant, Run, Initial;
    forall d, s | d in c.docs
      ensures d in DocsAt(k.held, s) <==> s == NewOwner(c, d) || (s == OldOwner(c, d) && SendDelete(s, true) !in events)
    {
      WhereItEnds(c, k, d, s);
      DeletesSentBySteps(c, events, s);
    }
    if Placed(c, k) {
      forall d | d in c.docs && Moving(c, d)
        ensures SendDelete(OldOwner(c, d), true) in events
      {
        assert d in DocsAt(k.held, OldOwner(c, d)) <==> OldOwner(c, d) == NewOwner(c, d);
      }
    }
  }

  /** When every step succeeds - when no delete fails to be sent, for any other failure ends the migration -
      a reported success leaves every document on exactly the shard the new map gives it. */
  lemma SuccessfulStepsPlaceDocuments(c: Config, events: seq<Event>)
    requires Valid(c) && Run(c, Initial(c), events).Some?
    requires Run(c, Initial(c), events).value.phase == Finished(true)
    requires forall s :: SendDelete(s, false) !in events
    ensures Placed(c, Run(c, Initial(c), events).value)
  {
    var k := Run(c, Initial(c), events).value;
    RunKeepsInvariant(c, events);
    AllDeletesSent(c, events);
    SuccessPlacesDocuments(c, events);
    hide Run, Initial, Placed;
    forall d | d in c.docs && Moving(c, d)
      ensures SendDelete(OldOwner(c, d), true) in events
    {
      MovingIsListed(c, d);
      assert FiledRight(c, k, d, OldOwner(c, d));
      DeletesSentBySteps(c, events, OldOwner(c, d));
    }
  }

  // ----- the order of the steps

  /** How far the coordinator has come; a migration that broke off has no stage. */
  function Stage(p: Phase): nat {
    match p
    case Generating(_) => 0
    case AwaitReady => 1
    case AwaitNewNodes => 2
    case SendingInserts(_) => 3
    case AwaitInserts => 4
    case SendingDeletes(_) => 5
    case AwaitDeletes => 6
    case Finished(ok) => if ok then 7 else 0
  }

  /** What has happened when the coordinator is at a stage. */
  ghost predicate StagesPassed(c: Config, events: seq<Event>, stage: nat) {
    && (stage >= 1 ==> GenerateDone in events)
    && (stage >= 2 ==> Ready(true) in events)
    && (stage >= 3 && !c.removing ==> NewNodesUp(true) in events)
    && (stage >= 4 ==> InsertsSent in events)
    && (stage >= 5 && !c.removing ==> InsertsIndexed in events)
    && (stage >= 6 ==> DeletesSent in events || exists s :: SendDelete(s, false) in events)
    && (stage >= 7 ==> DeletesIndexed in events)
  }

  lemma StepPassesStage(c: Config, k: Cluster, front: seq<Event>, e: Event)
    requires Step(c, k, e).Some? && StagesPassed(c, front, Stage(k.phase)) && (k.phase.AwaitInserts? ==> !c.removing)
    ensures StagesPassed(c, front + [e], Stage(Step(c, k, e).value.phase))
  {
    hide Produce, Worked, InsertSent, DeleteSent, Idle;
    assert forall x :: x in front ==> x in front + [e];
    assert e in front + [e];
    StepStage(c, k, e);
  }

  /** Each step stays at the stage, goes on from it, or breaks off. */
  lemma StepStage(c: Config, k: Cluster, e: Event)
    requires Step(c, k, e).Some?
    ensures var from, to := Stage(k.phase), Stage(Step(c, k, e).value.phase);
      || to == from || Step(c, k, e).value.phase == Finished(false)
      || (from == 0 && to == 1 && e == GenerateDone)
      || (from == 1 && to == (if c.removing then 3 else 2) && e == Ready(true))
      || (from == 2 && to == 3 && e == NewNodesUp(true))
      || (from == 3 && to == (if c.removing then 5 else 4) && e == InsertsSent)
      || (from == 4 && to == 5 && e == InsertsIndexed)
      || (from == 5 && to == 6 && (e == DeletesSent || (e.SendDelete? && !e.ok)))
      || (from == 6 && to == 7 && e == DeletesIndexed)
  {
    hide Idle, Produce;
  }

  /** At every stage of every run the steps before it have happened. */
  lemma {:induction false} StepsComeInOrder(c: Config, events: seq<Event>)
    requires Valid(c) && Run(c, Initial(c), events).Some?
    ensures StagesPassed(c, events, Stage(Run(c, Initial(c), events).value.phase))
  {
    if events != [] {
      hide Step, Stage, StagesPassed, FilesRight, QueuesRight, HoldsRight;
      var front, last := events[..|events| - 1], events[|events| - 1];
      assert events == front + [last];
      StepsComeInOrder(c, front);
      RunKeepsInvariant(c, front);
      StepPassesStage(c, Run(c, Initial(c), front).value, front, last);
    }
  }

  /** An insert is sent only after all sources wrote their files and the shards were ready, and when shards are
      added, after the new ones were up; a delete only after all inserts were sent, and when shards are added,
      indexed. */
  lemma SendsComeInOrder(c: Config, front: seq<Event>, s: Shard, ok: bool)
    requires Valid(c)
    ensures Run(c, Initial(c), front + [SendInsert(s, ok)]).Some? ==>
      GenerateDone in front && Ready(true) in front && (!c.removing ==> NewNodesUp(true) in front)
    ensures Run(c, Initial(c), front + [SendDelete(s, ok)]).Some? ==>
      && GenerateDone in front && Ready(true) in front && InsertsSent in front
      && (!c.removing ==> NewNodesUp(true) in front && InsertsIndexed in front)
  {
    forall e | e == SendInsert(s, ok) || e == SendDelete(s, ok)
      ensures Run(c, Initial(c), front + [e]).Some? ==>
        && Run(c, Initial(c), front).Some? && Step(c, Run(c, Initial(c), front).value, e).Some?
        && StagesPassed(c, front, Stage(Run(c, Initial(c), front).value.phase))
    {
      assert (front + [e])[..|front|] == front;
      if Run(c, Initial(c), front + [e]).Some? {
        StepsComeInOrder(c, front);
      }
    }
    hide Run, Initial;
  }

  // ----- removing shards does not wait for the inserts

  ghost predicate Reachable(c: Config, k: Cluster)
    requires Valid(c)
  {
    exists events :: Run(c, Initial(c), events) == Some(k)
  }

  lemma ReachFurther(c: Config, k: Cluster, e: Event)
    requires Valid(c) && Reachable(c, k) && Step(c, k, e).Some?
    ensures Reachable(c, Step(c, k, e).value)
  {
    var events :| Run(c, Initial(c), events) == Some(k);
    assert (events + [e])[..|events|] == events;
    assert Run(c, Initial(c), events + [e]) == Step(c, k, e);
  }

  lemma ReachableInvariant(c: Config, k: Cluster)
    requires Valid(c) && Reachable(c, k)
    ensures Invariant(c, k)
  {
    var events :| Run(c, Initial(c), events) == Some(k);
    RunKeepsInvariant(c, events);
  }

  lemma {:induction false} GenerateEverything(c: Config, k: Cluster) returns (k': Cluster)
    requires Valid(c) && Reachable(c, k) && k.phase.Generating? && k.phase.todo + k.produced == Sources(c)
    ensures Reachable(c, k') && k'.phase == Generating({}) && k'.produced == Sources(c)
    decreases |k.phase.todo|
  {
    if k.phase.todo == {} {
      k' := k;
    } else {
      var s :| s in k.phase.todo;
      var e := Generate(s, true);
      ReachFurther(c, k, e);
      k' := GenerateEverything(c, Step(c, k, e).value);
    }
  }

  lemma {:induction false} SendEveryInsert(c: Config, k: Cluster) returns (k': Cluster)
    requires Valid(c) && Reachable(c, k) && k.phase.SendingInserts?
    requires forall s :: s in k.insertsSent ==> QueueAt(k, s) != []
    ensures Reachable(c, k') && k'.phase == SendingInserts({})
    ensures k'.produced == k.produced
    ensures forall s :: s in k'.insertsSent ==> QueueAt(k', s) != []
    decreases |k.phase.todo|
  {
    if k.phase.todo == {} {
      k' := k;
    } else {
      var s :| s in k.phase.todo;
      var e := SendInsert(s, true);
      ReachFurther(c, k, e);
      var next := Step(c, k, e).value;
      forall t | t in next.insertsSent
        ensures QueueAt(next, t) != []
      {
      }
      k' := SendEveryInsert(c, next);
    }
  }

  ghost predicate Quiet(k: Cluster) {
    forall s :: QueueAt(k, s) == []
  }

  lemma QuietStays(k: Cluster, k': Cluster)
    requires Quiet(k) && k'.queue == k.queue
    ensures Quiet(k') && forall shards :: Idle(k', shards)
  {
    assert forall s :: QueueAt(k', s) == QueueAt(k, s);
  }

  /** With all files there and nothing queued, the coordinator gets on to sending the inserts. */
  lemma StartSending(c: Config, k: Cluster)
    requires Valid(c) && Reachable(c, k) && k.phase == Generating({}) && Idle(k, c.current)
    ensures Reachable(c, k.(phase := SendingInserts(k.inserts.Keys)))
  {
    hide Reachable;
    ReachFurther(c, k, GenerateDone);
    var k1 := k.(phase := AwaitReady);
    assert Idle(k1, c.current);
    ReachFurther(c, k1, Ready(true));
    if !c.removing {
      ReachFurther(c, k.(phase := AwaitNewNodes), NewNodesUp(true));
    }
  }

  lemma ReachInsertsSent(c: Config) returns (k: Cluster)
    requires Valid(c)
    ensures Reachable(c, k) && k.produced == Sources(c) && k.phase == SendingInserts({})
    ensures forall s :: s in k.insertsSent ==> QueueAt(k, s) != []
  {
    hide FilesRight, HoldsRight, QueuesRight, FiledRight;
    assert Run(c, Initial(c), []) == Some(Initial(c));
    k := GenerateEverything(c, Initial(c));
    NothingQueuedYet(c, k);
    StartSending(c, k);
    k := SendEveryInsert(c, k.(phase := SendingInserts(k.inserts.Keys)));
  }

  lemma ReachSendingDeletes(c: Config) returns (k: Cluster)
    requires Valid(c) && c.removing
    ensures Reachable(c, k) && k.produced == Sources(c) && k.phase == SendingDeletes(k.deletes.Keys)
    ensures forall s :: s in k.insertsSent ==> QueueAt(k, s) != []
  {
    k := ReachInsertsSent(c);
    ReachFurther(c, k, InsertsSent);
    k := Step(c, k, InsertsSent).value;
  }

  lemma NothingQueuedYet(c: Config, k: Cluster)
    requires Valid(c) && Reachable(c, k) && k.phase.Generating?
    ensures Idle(k, c.current) && k.insertsSent == {}
  {
    ReachableInvariant(c, k);
  }

  lemma DeletedBeforeInserted(c: Config, k: Cluster, d: Doc)
    requires Valid(c) && Invariant(c, k) && d in c.docs && Moving(c, d) && OldOwner(c, d) in k.produced
    requires OldOwner(c, d) in k.deletesSent && QueueAt(k, OldOwner(c, d)) == [] && QueueAt(k, NewOwner(c, d)) != []
    ensures !HeldSomewhere(k, d)
  {
    SourcesAreNotTargets(c, k);
    forall s
      ensures d !in DocsAt(k.held, s)
    {
      assert HeldRight(c, k, d, s) && FiledRight(c, k, d, s);
      assert FiledRight(c, k, d, OldOwner(c, d)) && FiledRight(c, k, d, NewOwner(c, d));
    }
  }

  lemma BothFilesExist(c: Config, k: Cluster, d: Doc)
    requires Valid(c) && Invariant(c, k) && d in c.docs && Moving(c, d) && k.produced == Sources(c)
    requires k.phase == SendingDeletes(k.deletes.Keys) && forall s :: s in k.insertsSent ==> QueueAt(k, s) != []
    ensures OldOwner(c, d) in k.deletes && QueueAt(k, NewOwner(c, d)) != []
    ensures QueueAt(k, OldOwner(c, d)) == [] && OldOwner(c, d) != NewOwner(c, d)
  {
    MovingIsListed(c, d);
    SourcesAreNotTargets(c, k);
    assert FiledRight(c, k, d, OldOwner(c, d)) && FiledRight(c, k, d, NewOwner(c, d));
  }

  /** Removing shards: as soon as one live document has to move, some run - no failure in it - has a
      step after which no shard holds that document. */
  lemma RemovalCanLoseADocument(c: Config, d: Doc) returns (k: Cluster)
    requires Valid(c) && c.removing && d in c.docs && Moving(c, d)
    ensures Reachable(c, k) && !HeldSomewhere(k, d)
  {
    hide Invariant, HeldSomewhere;
    var o := OldOwner(c, d);
    MovingIsListed(c, d);
    k := ReachSendingDeletes(c);
    ReachableInvariant(c, k);
    BothFilesExist(c, k, d);
    ReachFurther(c, k, SendDelete(o, true));
    k := Step(c, k, SendDelete(o, true)).value;
    ReachFurther(c, k, Work(o));
    k := Step(c, k, Work(o)).value;
    ReachableInvariant(c, k);
    DeletedBeforeInserted(c, k, d);
  }

  /** Every run keeps every live document on some shard - exactly when shards are being added, or
      no live document has to move. */
  lemma SafeExactlyWhenAdding(c: Config)
    requires Valid(c)
    ensures (forall k, d :: Reachable(c, k) && d in c.docs ==> HeldSomewhere(k, d))
      <==> !c.removing || forall d :: d in c.docs ==> !Moving(c, d)
  {
    if c.removing && exists d :: d in c.docs && Moving(c, d) {
      var d :| d in c.docs && Moving(c, d);
      var k := RemovalCanLoseADocument(c, d);
    } else {
      forall k, d | Reachable(c, k) && d in c.docs
        ensures HeldSomewhere(k, d)
      {
        ReachableInvariant(c, k);
        OwnersAccountFor(c, k, d);
        assert FiledRight(c, k, d, NewOwner(c, d));
      }
    }
  }

  // ----- what a reported success is worth

  /** With nothing queued, the inserts count as indexed. */
  lemma StartDeleting(c: Config, k: Cluster)
    requires Valid(c) && Reachable(c, k) && k.phase == SendingInserts({}) && Quiet(k)
    ensures Reachable(c, k.(phase := SendingDeletes(k.deletes.Keys)))
  {
    hide Reachable;
    ReachFurther(c, k, InsertsSent);
    if !c.removing {
      QuietStays(k, k.(phase := AwaitInserts));
      ReachFurther(c, k.(phase := AwaitInserts), InsertsIndexed);
    }
  }

  lemma ReportSuccess(c: Config, k: Cluster)
    requires Valid(c) && Reachable(c, k) && k.phase == AwaitDeletes && Quiet(k)
    ensures Reachable(c, k.(phase := Finished(true), published := c.newMap))
  {
    hide Reachable;
    QuietStays(k, k);
    ReachFurther(c, k, DeletesIndexed);
  }

  /** The shards work their queues off. */
  lemma {:induction false} WorkOff(c: Config, k: Cluster, busy: set<Shard>) returns (k': Cluster)
    requires Valid(c) && Reachable(c, k) && forall s :: QueueAt(k, s) != [] ==> s in busy
    ensures Reachable(c, k') && Quiet(k')
    ensures k'.phase == k.phase && k'.produced == k.produced && k'.deletesSent == k.deletesSent && k'.deletes == k.deletes
    decreases |busy|
  {
    if busy == {} {
      k' := k;
    } else {
      var s :| s in busy;
      var next := k;
      if QueueAt(k, s) != [] {
        ReachableInvariant(c, k);
        ReachFurther(c, k, Work(s));
        next := Step(c, k, Work(s)).value;
      }
      hide Invariant;
      forall t | QueueAt(next, t) != []
        ensures t in busy - {s}
      {
        assert t != s ==> QueueAt(next, t) == QueueAt(k, t);
      }
      k' := WorkOff(c, next, busy - {s});
    }
  }

  /** Sending a delete fails: the migration still reports success, and a document that moved is on its
      old and its new owner. */
  lemma SuccessCanLeaveTwoCopies(c: Config, d: Doc) returns (k: Cluster)
    requires Valid(c) && d in c.docs && Moving(c, d)
    ensures Reachable(c, k) && k.phase == Finished(true) && k.published == c.newMap
    ensures OldOwner(c, d) != NewOwner(c, d) && d in DocsAt(k.held, OldOwner(c, d)) && d in DocsAt(k.held, NewOwner(c, d))
  {
    hide Invariant, Reachable, Valid;
    var o := OldOwner(c, d);
    MovingIsListed(c, d);
    k := ReachInsertsSent(c);
    k := WorkOff(c, k, k.queue.Keys);
    assert Quiet(k);
    StartDeleting(c, k);
    QuietStays(k, k.(phase := SendingDeletes(k.deletes.Keys)));
    k := k.(phase := SendingDeletes(k.deletes.Keys));
    NoDeleteSentYet(c, k, d);
    ReachFurther(c, k, SendDelete(o, false));
    QuietStays(k, k.(phase := AwaitDeletes));
    k := k.(phase := AwaitDeletes);
    ReportSuccess(c, k);
    k := k.(phase := Finished(true), published := c.newMap);
    ReachableInvariant(c, k);
    WhereItEnds(c, k, d, o);
    WhereItEnds(c, k, d, NewOwner(c, d));
  }

  lemma NoDeleteSentYet(c: Config, k: Cluster, d: Doc)
    requires Valid(c) && Reachable(c, k) && d in c.docs && Moving(c, d) && OldOwner(c, d) in k.produced
    requires k.phase == SendingDeletes(k.deletes.Keys)
    ensures OldOwner(c, d) in k.deletes && k.deletesSent == {} && (k.published == c.oldMap)
  {
    ReachableInvariant(c, k);
    assert FiledRight(c, k, d, OldOwner(c, d));
    assert k.deletesSent <= k.deletes.Keys;
  }

  /** Whatever failed, a reported success means that every document is only where the new map says: exactly
      when no live document had to move. */
  lemma SuccessIsReliableExactlyWhenNothingMoves(c: Config)
    requires Valid(c)
    ensures (forall k :: Reachable(c, k) && k.phase == Finished(true) ==> Placed(c, k))
      <==> forall d :: d in c.docs ==> !Moving(c, d)
  {
    if d :| d in c.docs && Moving(c, d) {
      var k := SuccessCanLeaveTwoCopies(c, d);
      assert d in DocsAt(k.held, OldOwner(c, d));
      assert !Placed(c, k);
    } else {
      forall k | Reachable(c, k) && k.phase == Finished(true)
        ensures Placed(c, k)
      {
        ReachableInvariant(c, k);
        forall d, s | d in c.docs
          ensures d in DocsAt(k.held, s) <==> s == NewOwner(c, d)
        {
          WhereItEnds(c, k, d, s);
        }
      }
    }
  }
}
