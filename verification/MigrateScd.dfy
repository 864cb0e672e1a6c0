/** Which documents a source shard writes for which target: grouping the moves by source host, and
    the walk over the source's documents that fills one insert file per target and one delete file. */
module MigrateScd {
  import opened Sequences
  import opened ShardPlan
  import opened ShardTask
  import opened Migration

  type VnodeList = map<Shard, seq<Vnode>>

  function VnodesFor(list: VnodeList, t: Shard): seq<Vnode> {
    if t in list then list[t] else []
  }

  function ListAt(groups: map<string, VnodeList>, host: string): VnodeList {
    if host in groups then groups[host] else map[]
  }

  // ----- grouping the moves by source host

  /** Host by host and target by target, the groups name exactly the moves among the first n keys. */
  ghost predicate Grouped(groups: map<string, VnodeList>, moves: map<Vnode, (Shard, Shard)>, keys: seq<Vnode>,
                          ip: Shard -> string)
    requires forall v :: v in keys ==> v in moves
  {
    && (forall host, t, v :: v in VnodesFor(ListAt(groups, host), t) <==>
         v in keys && ip(moves[v].0) == host && moves[v].1 == t)
    && forall host :: host in groups ==> exists v :: v in keys && ip(moves[v].0) == host
  }

  method GroupMoves(moves: map<Vnode, (Shard, Shard)>, ip: Shard -> string)
    returns (ok: bool, groups: map<string, VnodeList>)
    ensures ok <==> forall v :: v in moves ==> ip(moves[v].0) != ""
    ensures ok ==> Grouped(groups, moves, Ascending(moves.Keys), ip)
  {
    hide Grouped, ListAt, VnodesFor;
    groups := map[];
    var keys := KeysInOrder(moves.Keys);
    NothingGrouped(moves, ip);
    assert keys[..0] == [];
    for i := 0 to |keys|
      invariant forall j :: 0 <= j < i ==> ip(moves[keys[j]].0) != ""
      invariant Grouped(groups, moves, keys[..i], ip)
    {
      var vid := keys[i];
      var (source, target) := moves[vid];
      var host := ip(source);
      if host == "" {
        return false, groups;
      }
      ghost var before := groups;
      groups := groups[host := ListAt(groups, host)[target := VnodesFor(ListAt(groups, host), target) + [vid]]];
      assert keys[..i + 1] == keys[..i] + [vid];
      GroupOneMore(before, groups, moves, keys[..i], vid, ip);
    }
    assert keys[..|keys|] == keys;
    ok := true;
  }

  lemma NothingGrouped(moves: map<Vnode, (Shard, Shard)>, ip: Shard -> string)
    ensures Grouped(map[], moves, [], ip)
  {
  }

  lemma GroupOneMore(before: map<string, VnodeList>, after: map<string, VnodeList>, moves: map<Vnode, (Shard, Shard)>,
                     keys: seq<Vnode>, vid: Vnode, ip: Shard -> string)
    requires vid in moves && forall v :: v in keys ==> v in moves
    requires Grouped(before, moves, keys, ip)
    requires var host, target := ip(moves[vid].0), moves[vid].1;
      after == before[host := ListAt(before, host)[target := VnodesFor(ListAt(before, host), target) + [vid]]]
    ensures Grouped(after, moves, keys + [vid], ip)
  {
    var host0, target0 := ip(moves[vid].0), moves[vid].1;
    forall host, t, v
      ensures v in VnodesFor(ListAt(after, host), t) <==> v in keys + [vid] && ip(moves[v].0) == host && moves[v].1 == t
    {
      if host == host0 && t == target0 {
        assert VnodesFor(ListAt(after, host), t) == VnodesFor(ListAt(before, host), t) + [vid];
      } else {
        assert VnodesFor(ListAt(after, host), t) == VnodesFor(ListAt(before, host), t);
      }
    }
    forall host | host in after
      ensures exists v :: v in keys + [vid] && ip(moves[v].0) == host
    {
      if host == host0 {
        assert vid in keys + [vid];
      } else {
        var v :| v in keys && ip(moves[v].0) == host;
        assert v in keys + [vid];
      }
    }
  }

  // ----- the walk over one source's documents

  /** A document slot: deleted or not, readable or not, with its DOCID property if it has one. */
  datatype Record = Record(deleted: bool, stored: bool, docid: Option<Doc>)

  predicate Live(r: Record) {
    !r.deleted && r.stored && r.docid.Some?
  }

  /** The first listed shard, in key order, whose list names the vnode; 0 when none does. */
  ghost function Destination(keys: seq<Shard>, list: VnodeList, v: Vnode): Shard {
    if keys == [] then
      0
    else if v in VnodesFor(list, keys[0]) then
      keys[0]
    else
      Destination(keys[1..], list, v)
  }

  ghost function RecordTarget(list: VnodeList, hash: Doc -> nat, r: Record): Shard {
    if Live(r) then Destination(Ascending(list.Keys), list, hash(r.docid.value) % MAX_MAP_SIZE) else 0
  }

  /** A target's insert file takes the documents bound for it; the delete file takes all of them. */
  ghost predicate Wanted(file: Option<Shard>, target: Shard) {
    target != 0 && (file.Some? ==> file.value == target)
  }

  /** The documents, in slot order, that belong in a file. */
  ghost function Written(records: seq<Record>, list: VnodeList, hash: Doc -> nat, file: Option<Shard>): seq<Doc> {
    if records == [] then
      []
    else
      var last := records[|records| - 1];
      Written(records[..|records| - 1], list, hash, file)
      + (if Live(last) && Wanted(file, RecordTarget(list, hash, last)) then [last.docid.value] else [])
  }

  ghost function InsertFile(records: seq<Record>, list: VnodeList, hash: Doc -> nat, t: Shard): seq<Doc> {
    Written(records, list, hash, Some(t))
  }

  ghost function DeleteFile(records: seq<Record>, list: VnodeList, hash: Doc -> nat): seq<Doc> {
    Written(records, list, hash, None)
  }

  function FileFor(files: map<Shard, seq<Doc>>, t: Shard): seq<Doc> {
    if t in files then files[t] else []
  }

  /** Exactly the nonempty files exist, each with its documents in slot order. */
  ghost predicate FilesAre(inserts: map<Shard, seq<Doc>>, deletes: map<Shard, seq<Doc>>, self: Shard,
                           records: seq<Record>, list: VnodeList, hash: Doc -> nat)
  {
    && 0 !in inserts
    && (forall t :: t != 0 ==> FileFor(inserts, t) == InsertFile(records, list, hash, t))
    && (forall t :: t in inserts ==> inserts[t] != [])
    && deletes == (if DeleteFile(records, list, hash) == [] then map[] else map[self := DeleteFile(records, list, hash)])
  }

  method FindShard(keys: seq<Shard>, list: VnodeList, v: Vnode) returns (found: Shard)
    ensures found == Destination(keys, list, v)
  {
    found := 0;
    for i := 0 to |keys|
      invariant found == 0 && Destination(keys, list, v) == Destination(keys[i..], list, v)
    {
      if v in VnodesFor(list, keys[i]) {
        found := keys[i];
        break;
      }
    }
  }

  method GenerateMigrateScd(records: seq<Record>, list: VnodeList, hash: Doc -> nat, self: Shard)
    returns (inserts: map<Shard, seq<Doc>>, deletes: map<Shard, seq<Doc>>)
    ensures FilesAre(inserts, deletes, self, records, list, hash)
  {
    hide FilesAre, Destination, Written;
    inserts, deletes := map[], map[];
    var keys := KeysInOrder(list.Keys);
    NothingWritten(self, list, hash);
    for i := 0 to |records|
      invariant FilesAre(inserts, deletes, self, records[..i], list, hash)
    {
      assert records[..i + 1][..i] == records[..i] && records[..i + 1][i] == records[i];
      ghost var inserts0, deletes0 := inserts, deletes;
      var r := records[i];
      if r.deleted || !r.stored || r.docid.None? {
        SkipRecord(inserts, deletes, self, records[..i + 1], list, hash);
        continue;
      }
      var doc := r.docid.value;
      var found := FindShard(keys, list, hash(doc) % MAX_MAP_SIZE);
      if found == 0 {
        SkipRecord(inserts, deletes, self, records[..i + 1], list, hash);
        continue;
      }
      inserts := inserts[found := FileFor(inserts, found) + [doc]];
      deletes := deletes[self := FileFor(deletes, self) + [doc]];
      AppendRecord(inserts0, deletes0, self, records[..i + 1], list, hash);
    }
    assert records[..|records|] == records;
  }

  lemma NothingWritten(self: Shard, list: VnodeList, hash: Doc -> nat)
    ensures FilesAre(map[], map[], self, [], list, hash)
  {
  }

  lemma SkipRecord(inserts: map<Shard, seq<Doc>>, deletes: map<Shard, seq<Doc>>, self: Shard,
                   records: seq<Record>, list: VnodeList, hash: Doc -> nat)
    requires records != [] && FilesAre(inserts, deletes, self, records[..|records| - 1], list, hash)
    requires RecordTarget(list, hash, records[|records| - 1]) == 0
    ensures FilesAre(inserts, deletes, self, records, list, hash)
  {
    forall t | t != 0
      ensures FileFor(inserts, t) == InsertFile(records, list, hash, t)
    {
      assert FileFor(inserts, t) == InsertFile(records[..|records| - 1], list, hash, t);
    }
    assert DeleteFile(records, list, hash) == DeleteFile(records[..|records| - 1], list, hash);
  }

  lemma AppendRecord(inserts: map<Shard, seq<Doc>>, deletes: map<Shard, seq<Doc>>, self: Shard,
                     records: seq<Record>, list: VnodeList, hash: Doc -> nat)
    requires records != [] && FilesAre(inserts, deletes, self, records[..|records| - 1], list, hash)
    requires var last := records[|records| - 1]; Live(last) && RecordTarget(list, hash, last) != 0
    ensures
      var last := records[|records| - 1];
      var t := RecordTarget(list, hash, last);
      FilesAre(inserts[t := FileFor(inserts, t) + [last.docid.value]],
               deletes[self := FileFor(deletes, self) + [last.docid.value]], self, records, list, hash)
  {
    var last := records[|records| - 1];
    var t0 := RecordTarget(list, hash, last);
    var inserts' := inserts[t0 := FileFor(inserts, t0) + [last.docid.value]];
    forall t | t != 0
      ensures FileFor(inserts', t) == InsertFile(records, list, hash, t)
    {
      assert FileFor(inserts, t) == InsertFile(records[..|records| - 1], list, hash, t);
    }
    assert DeleteFile(records[..|records| - 1], list, hash) == FileFor(deletes, self);
  }

  lemma {:induction false} WrittenMember(records: seq<Record>, list: VnodeList, hash: Doc -> nat, file: Option<Shard>, d: Doc)
    ensures d in Written(records, list, hash, file) <==>
      exists i :: 0 <= i < |records| && Live(records[i]) && records[i].docid.value == d && Wanted(file, RecordTarget(list, hash, records[i]))
  {
    if records != [] {
      var front := records[..|records| - 1];
      WrittenMember(front, list, hash, file, d);
      if i :| 0 <= i < |records| && Live(records[i]) && records[i].docid.value == d && Wanted(file, RecordTarget(list, hash, records[i])) {
        assert i < |front| ==> front[i] == records[i];
      }
      if i :| 0 <= i < |front| && Live(front[i]) && front[i].docid.value == d && Wanted(file, RecordTarget(list, hash, front[i])) {
        assert records[i] == front[i];
      }
    }
  }

  // ----- what a file holds, slot by slot

  /** The slot's document d is stored and not deleted. */
  ghost predicate HoldsDoc(r: Record, d: Doc) {
    !r.deleted && r.stored && r.docid == Some(d)
  }

  /** t is the first shard of the list that names the vnode; a shard 0 there stands for no shard. */
  ghost predicate FirstNaming(list: VnodeList, v: Vnode, t: Shard) {
    && t != 0 && t in list && v in list[t]
    && forall s :: s in list && s < t ==> v !in list[s]
  }

  /** The slot goes to target t, or to any target when none is given. */
  ghost predicate GoesTo(r: Record, list: VnodeList, hash: Doc -> nat, file: Option<Shard>) {
    exists d: Doc, t: Shard :: HoldsDoc(r, d) && FirstNaming(list, hash(d) % 65535, t) && (file.Some? ==> file.value == t)
  }

  /** The file lists the documents of exactly the slots that go to it, one each, in slot order. */
  ghost predicate ListsSlots(file: seq<Doc>, slots: seq<nat>, records: seq<Record>, list: VnodeList, hash: Doc -> nat,
                             target: Option<Shard>)
  {
    && |slots| == |file| && StrictlyAscending(slots)
    && (forall i :: i in slots <==> 0 <= i < |records| && GoesTo(records[i], list, hash, target))
    && forall j :: 0 <= j < |slots| ==> slots[j] < |records| && HoldsDoc(records[slots[j]], file[j])
  }

  ghost predicate ListsItsSlots(file: seq<Doc>, records: seq<Record>, list: VnodeList, hash: Doc -> nat, target: Option<Shard>) {
    exists slots: seq<nat> :: ListsSlots(file, slots, records, list, hash, target)
  }

  lemma {:induction false} DestinationIsFirst(keys: seq<Shard>, list: VnodeList, v: Vnode, t: Shard)
    requires StrictlyAscending(keys) && forall s :: s in keys ==> s in list
    ensures Destination(keys, list, v) == t && t != 0 <==>
      t != 0 && t in keys && v in list[t] && forall s :: s in keys && s < t ==> v !in list[s]
  {
    if keys != [] {
      assert keys == [keys[0]] + keys[1..];
      DestinationIsFirst(keys[1..], list, v, t);
      forall s | s in keys[1..]
        ensures keys[0] < s
      {
        var i :| 0 <= i < |keys[1..]| && keys[1..][i] == s;
        assert keys[i + 1] == s;
      }
    }
  }

  lemma TargetIsFirst(list: VnodeList, v: Vnode, t: Shard)
    ensures Destination(Ascending(list.Keys), list, v) == t && t != 0 <==> FirstNaming(list, v, t)
  {
    var keys := Ascending(list.Keys);
    assert forall s :: s in keys <==> s in list;
    DestinationIsFirst(keys, list, v, t);
  }

  lemma WantedSlots(r: Record, list: VnodeList, hash: Doc -> nat, file: Option<Shard>)
    requires file != Some(0)
    ensures Live(r) && Wanted(file, RecordTarget(list, hash, r)) <==> GoesTo(r, list, hash, file)
  {
    hide FirstNaming, Destination, Ascending;
    if r.docid.Some? {
      var v: nat := hash(r.docid.value) % 65535;
      var t := Destination(Ascending(list.Keys), list, v);
      TargetIsFirst(list, v, t);
      if GoesTo(r, list, hash, file) {
        var d: Doc, t': Shard :| HoldsDoc(r, d) && FirstNaming(list, hash(d) % 65535, t') && (file.Some? ==> file.value == t');
        TargetIsFirst(list, v, t');
      }
    }
  }

  lemma SlotsOneMore(file: seq<Doc>, slots: seq<nat>, records: seq<Record>, list: VnodeList, hash: Doc -> nat, target: Option<Shard>)
    requires records != [] && ListsSlots(file, slots, records[..|records| - 1], list, hash, target)
    ensures var last := records[|records| - 1];
      if GoesTo(last, list, hash, target) then
        last.docid.Some? && ListsSlots(file + [last.docid.value], slots + [|records| - 1], records, list, hash, target)
      else
        ListsSlots(file, slots, records, list, hash, target)
  {
    hide FirstNaming;
    var n, last := |records| - 1, records[|records| - 1];
    assert forall i :: 0 <= i < n ==> records[..n][i] == records[i];
    assert forall j :: 0 <= j < |slots| ==> slots[j] in slots && slots[j] < n;
    if GoesTo(last, list, hash, target) {
      forall i
        ensures i in slots + [n] <==> 0 <= i < |records| && GoesTo(records[i], list, hash, target)
      {
        assert i in slots + [n] <==> i in slots || i == n;
      }
    }
  }

  lemma {:induction false} WrittenListsSlots(records: seq<Record>, list: VnodeList, hash: Doc -> nat, target: Option<Shard>)
    returns (slots: seq<nat>)
    requires target != Some(0)
    ensures ListsSlots(Written(records, list, hash, target), slots, records, list, hash, target)
  {
    if records == [] {
      slots := [];
    } else {
      hide ListsSlots, GoesTo, Live, Wanted, RecordTarget;
      var n, last := |records| - 1, records[|records| - 1];
      slots := WrittenListsSlots(records[..n], list, hash, target);
      WantedSlots(last, list, hash, target);
      SlotsOneMore(Written(records[..n], list, hash, target), slots, records, list, hash, target);
      if GoesTo(last, list, hash, target) {
        slots := slots + [n];
      }
    }
  }

  /** Each target's file lists exactly the stored, undeleted documents whose vnode the list names first under
      the target, and the delete file those of all targets. */
  lemma FilesListSlots(inserts: map<Shard, seq<Doc>>, deletes: map<Shard, seq<Doc>>, self: Shard, records: seq<Record>,
                       list: VnodeList, hash: Doc -> nat)
    requires FilesAre(inserts, deletes, self, records, list, hash)
    ensures 0 !in inserts && deletes.Keys <= {self}
    ensures forall t: Shard :: t != 0 ==> ListsItsSlots(FileFor(inserts, t), records, list, hash, Some(t))
    ensures ListsItsSlots(FileFor(deletes, self), records, list, hash, None)
  {
    hide Written, ListsSlots;
    forall t: Shard | t != 0
      ensures ListsItsSlots(FileFor(inserts, t), records, list, hash, Some(t))
    {
      var slots := WrittenListsSlots(records, list, hash, Some(t));
      assert FileFor(inserts, t) == Written(records, list, hash, Some(t));
    }
    var slots := WrittenListsSlots(records, list, hash, None);
    assert FileFor(deletes, self) == Written(records, list, hash, None);
  }

  /** So a document is in a file exactly when a slot holds it that goes there. */
  lemma FilesHoldExactly(inserts: map<Shard, seq<Doc>>, deletes: map<Shard, seq<Doc>>, self: Shard, records: seq<Record>,
                         list: VnodeList, hash: Doc -> nat, t: Shard, d: Doc)
    requires FilesAre(inserts, deletes, self, records, list, hash)
    ensures t != 0 ==>
      (d in FileFor(inserts, t) <==>
        exists i: nat :: i < |records| && HoldsDoc(records[i], d) && FirstNaming(list, hash(d) % 65535, t))
    ensures d in FileFor(deletes, self) <==>
      exists i: nat, s: Shard :: i < |records| && HoldsDoc(records[i], d) && FirstNaming(list, hash(d) % 65535, s)
  {
    hide FilesAre, FirstNaming, HoldsDoc, ListsSlots;
    FilesListSlots(inserts, deletes, self, records, list, hash);
    if t != 0 {
      var slots: seq<nat> :| ListsSlots(FileFor(inserts, t), slots, records, list, hash, Some(t));
      SlotOf(FileFor(inserts, t), slots, records, list, hash, Some(t), d);
    }
    var slots: seq<nat> :| ListsSlots(FileFor(deletes, self), slots, records, list, hash, None);
    SlotOf(FileFor(deletes, self), slots, records, list, hash, None, d);
  }

  lemma SlotOf(file: seq<Doc>, slots: seq<nat>, records: seq<Record>, list: VnodeList, hash: Doc -> nat, target: Option<Shard>, d: Doc)
    requires ListsSlots(file, slots, records, list, hash, target)
    ensures d in file <==> exists i: nat, t: Shard ::
      i < |records| && HoldsDoc(records[i], d) && FirstNaming(list, hash(d) % 65535, t) && (target.Some? ==> target.value == t)
  {
    hide FirstNaming;
    if d in file {
      var j :| 0 <= j < |file| && file[j] == d;
      assert slots[j] in slots;
    }
    if exists i: nat, t: Shard ::
      i < |records| && HoldsDoc(records[i], d) && FirstNaming(list, hash(d) % 65535, t) && (target.Some? ==> target.value == t)
    {
      var i: nat, t: Shard :| i < |records| && HoldsDoc(records[i], d) && FirstNaming(list, hash(d) % 65535, t)
        && (target.Some? ==> target.value == t);
      assert GoesTo(records[i], list, hash, target);
      var j :| 0 <= j < |slots| && slots[j] == i;
      assert file[j] == d;
    }
  }

  // ----- the files are the migration's files

  /** The list a source gets names a vnode under a shard exactly when that move is planned. */
  ghost predicate ListsMovesOf(list: VnodeList, moves: map<Vnode, (Shard, Shard)>, source: Shard) {
    forall t: Shard, v: Vnode :: v in VnodesFor(list, t) <==> v in moves && moves[v] == (source, t)
  }

  lemma {:induction false} DestinationIsTarget(keys: seq<Shard>, list: VnodeList, moves: map<Vnode, (Shard, Shard)>,
                                               source: Shard, v: Vnode)
    requires ListsMovesOf(list, moves, source)
    ensures v in moves && moves[v].0 == source && moves[v].1 in keys ==> Destination(keys, list, v) == moves[v].1
    ensures !(v in moves && moves[v].0 == source && moves[v].1 in keys) ==> Destination(keys, list, v) == 0
  {
    if keys != [] {
      DestinationIsTarget(keys[1..], list, moves, source, v);
      assert keys == [keys[0]] + keys[1..];
    }
  }

  lemma DocIsFiled(c: Config, k: Cluster, source: Shard, list: VnodeList, records: seq<Record>,
                   inserts: map<Shard, seq<Doc>>, deletes: map<Shard, seq<Doc>>, t: Shard, d: Doc)
    requires Valid(c) && ListsMovesOf(list, c.moves, source)
    requires forall v :: v in c.moves ==> c.moves[v].1 != 0
    requires d in DocsAt(k.held, source) <==> exists i :: 0 <= i < |records| && HoldsDoc(records[i], d)
    requires FilesAre(inserts, deletes, source, records, list, c.hash)
    ensures t != 0 ==> (d in FileFor(inserts, t) <==> d in Outgoing(c, k, source, t))
    ensures d in FileFor(deletes, source) <==> d in Leaving(c, k, source)
  {
    hide Written;
    var v := VnodeOf(c, d);
    DestinationIsTarget(Ascending(list.Keys), list, c.moves, source, v);
    if v in c.moves && c.moves[v].0 == source {
      assert v in VnodesFor(list, c.moves[v].1);
    }
    WrittenMember(records, list, c.hash, Some(t), d);
    WrittenMember(records, list, c.hash, None, d);
  }

  /** With nonzero shard ids, the files a source writes hold exactly the documents the migration
      takes from it: per target, and for its own delete file. */
  lemma FilesAreOutgoing(c: Config, k: Cluster, source: Shard, list: VnodeList, records: seq<Record>,
                         inserts: map<Shard, seq<Doc>>, deletes: map<Shard, seq<Doc>>, t: Shard)
    requires Valid(c) && ListsMovesOf(list, c.moves, source)
    requires forall v :: v in c.moves ==> c.moves[v].1 != 0
    requires forall d :: d in DocsAt(k.held, source) <==> exists i :: 0 <= i < |records| && HoldsDoc(records[i], d)
    requires FilesAre(inserts, deletes, source, records, list, c.hash)
    ensures t != 0 ==> Elements(FileFor(inserts, t)) == Outgoing(c, k, source, t)
    ensures Elements(FileFor(deletes, source)) == Leaving(c, k, source)
  {
    hide Valid, Written, Ascending, ListsMovesOf;
    forall d
      ensures t != 0 ==> (d in FileFor(inserts, t) <==> d in Outgoing(c, k, source, t))
      ensures d in FileFor(deletes, source) <==> d in Leaving(c, k, source)
    {
      DocIsFiled(c, k, source, list, records, inserts, deletes, t, d);
    }
  }
}
