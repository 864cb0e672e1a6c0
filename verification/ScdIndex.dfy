/** The index of an SCD file: inserting documents directly, or buffering them between flushes. */
module ScdIndex {
  import opened Arithmetic
  import opened Sequences

  datatype Document = Document(docid: nat, property: nat, offset: nat)

  type PropertyMap = map<nat, seq<nat>>

  function OffsetsOf(t: PropertyMap, key: nat): seq<nat> {
    if key in t then t[key] else []
  }

  /** A table whose lists are continued by those of the buffer. */
  function Continued(table: PropertyMap, buffer: PropertyMap): PropertyMap {
    map k | k in table.Keys + buffer.Keys :: OffsetsOf(table, k) + OffsetsOf(buffer, k)
  }

  // ----- what inserting each document directly gives

  ghost function DirectDocids(docs: seq<Document>): map<nat, nat> {
    if docs == [] then map[]
    else DirectDocids(docs[..|docs| - 1])[docs[|docs| - 1].docid := docs[|docs| - 1].offset]
  }

  ghost function DirectProperties(docs: seq<Document>): PropertyMap {
    if docs == [] then
      map[]
    else
      var front, last := DirectProperties(docs[..|docs| - 1]), docs[|docs| - 1];
      front[last.property := OffsetsOf(front, last.property) + [last.offset]]
  }

  /** Buffered inserts: within a batch the first offset of a docid stays, a flush overwrites. */
  ghost function BuiltDocids(docs: seq<Document>, flushCount: nat): (map<nat, nat>, map<nat, nat>)
    requires flushCount >= 1
  {
    if docs == [] then
      (map[], map[])
    else
      var (table, buffer0) := BuiltDocids(docs[..|docs| - 1], flushCount);
      var last := docs[|docs| - 1];
      var buffer := if last.docid in buffer0 then buffer0 else buffer0[last.docid := last.offset];
      if |docs| % flushCount == 0 then (table + buffer, map[]) else (table, buffer)
  }

  class ScdIndexLeveldb {
    var docidTable: map<nat, nat>
    var propertyTable: PropertyMap
    var docidBuffer: map<nat, nat>
    var propertyBuffer: PropertyMap

    constructor ()
      ensures docidTable == map[] && propertyTable == map[] && docidBuffer == map[] && propertyBuffer == map[]
    {
      docidTable, propertyTable, docidBuffer, propertyBuffer := map[], map[], map[], map[];
    }

    method InsertDocument(d: Document)
      modifies this`docidTable, this`propertyTable
      ensures docidTable == old(docidTable)[d.docid := d.offset]
      ensures propertyTable == old(propertyTable)[d.property := OffsetsOf(old(propertyTable), d.property) + [d.offset]]
    {
      docidTable := docidTable[d.docid := d.offset];
      InsertProperty(d.property, [d.offset]);
    }

    method InsertProperty(property: nat, offsets: seq<nat>)
      modifies this`propertyTable
      ensures propertyTable == old(propertyTable)[property := OffsetsOf(old(propertyTable), property) + offsets]
    {
      var stored := OffsetsOf(propertyTable, property);
      propertyTable := propertyTable[property := stored + offsets];
    }

    method InsertBatch(d: Document)
      modifies this`docidBuffer, this`propertyBuffer
      ensures docidBuffer == if d.docid in old(docidBuffer) then old(docidBuffer) else old(docidBuffer)[d.docid := d.offset]
      ensures propertyBuffer == old(propertyBuffer)[d.property := OffsetsOf(old(propertyBuffer), d.property) + [d.offset]]
    {
      if d.docid !in docidBuffer {
        docidBuffer := docidBuffer[d.docid := d.offset];
      }
      propertyBuffer := propertyBuffer[d.property := OffsetsOf(propertyBuffer, d.property) + [d.offset]];
    }

    method FlushDocids()
      modifies this`docidTable, this`docidBuffer
      ensures docidTable == old(docidTable) + old(docidBuffer) && docidBuffer == map[]
    {
      var todo := docidBuffer.Keys;
      assert docidBuffer - todo == map[];
      while todo != {}
        invariant docidBuffer == old(docidBuffer) && todo <= docidBuffer.Keys
        invariant docidTable == old(docidTable) + (docidBuffer - todo)
      {
        var key :| key in todo;
        assert docidBuffer - (todo - {key}) == (docidBuffer - todo)[key := docidBuffer[key]];
        docidTable := docidTable[key := docidBuffer[key]];
        todo := todo - {key};
      }
      assert docidBuffer - {} == docidBuffer;
      docidBuffer := map[];
    }

    method FlushProperties()
      modifies this`propertyTable, this`propertyBuffer
      ensures propertyTable == Continued(old(propertyTable), old(propertyBuffer)) && propertyBuffer == map[]
    {
      var todo := propertyBuffer.Keys;
      assert propertyBuffer - todo == map[];
      ContinuedByNothing(propertyTable);
      while todo != {}
        invariant propertyBuffer == old(propertyBuffer) && todo <= propertyBuffer.Keys
        invariant propertyTable == Continued(old(propertyTable), propertyBuffer - todo)
      {
        var key :| key in todo;
        ContinuedByList(old(propertyTable), propertyBuffer, todo, key);
        InsertProperty(key, propertyBuffer[key]);
        todo := todo - {key};
      }
      assert propertyBuffer - {} == propertyBuffer;
      propertyBuffer := map[];
    }

    /** Writes everything pending: each buffered pair overwrites, each buffered list is appended. */
    method Flush()
      modifies this
      ensures docidTable == old(docidTable) + old(docidBuffer)
      ensures propertyTable == Continued(old(propertyTable), old(propertyBuffer))
      ensures docidBuffer == map[] && propertyBuffer == map[]
    {
      FlushDocids();
      FlushProperties();
    }
  }

  method BuildDirectly(docs: seq<Document>) returns (index: ScdIndexLeveldb)
    ensures fresh(index) && index.docidTable == DirectDocids(docs) && index.propertyTable == DirectProperties(docs)
  {
    index := new ScdIndexLeveldb();
    for i := 0 to |docs|
      invariant fresh(index)
      invariant index.docidTable == DirectDocids(docs[..i]) && index.propertyTable == DirectProperties(docs[..i])
    {
      assert docs[..i + 1][..i] == docs[..i];
      index.InsertDocument(docs[i]);
    }
    assert docs[..|docs|] == docs;
  }

  method Build(docs: seq<Document>, flushCount: nat) returns (index: ScdIndexLeveldb)
    requires flushCount >= 1
    ensures fresh(index) && index.docidBuffer == map[] && index.propertyBuffer == map[]
    ensures index.docidTable == BuiltDocids(docs, flushCount).0 + BuiltDocids(docs, flushCount).1
    ensures index.propertyTable == DirectProperties(docs)
    ensures UniqueDocids(docs) ==> index.docidTable == DirectDocids(docs)
  {
    index := new ScdIndexLeveldb();
    assert Continued(map[], map[]) == map[];
    var count := 1;
    for i := 0 to |docs|
      invariant fresh(index) && count == i + 1
      invariant (index.docidTable, index.docidBuffer) == BuiltDocids(docs[..i], flushCount)
      invariant Continued(index.propertyTable, index.propertyBuffer) == DirectProperties(docs[..i])
    {
      assert docs[..i + 1][..i] == docs[..i];
      ContinuedOneMore(index.propertyTable, index.propertyBuffer, docs[i].property, docs[i].offset);
      index.InsertBatch(docs[i]);
      if count % flushCount == 0 {
        index.Flush();
        ContinuedByNothing(index.propertyTable);
      }
      count := count + 1;
    }
    index.Flush();
    assert docs[..|docs|] == docs;
    if UniqueDocids(docs) {
      UniqueDocidsBuildTheSame(docs, flushCount);
    }
  }

  lemma ContinuedOneMore(table: PropertyMap, buffer: PropertyMap, key: nat, offset: nat)
    ensures Continued(table, buffer[key := OffsetsOf(buffer, key) + [offset]])
         == Continued(table, buffer)[key := OffsetsOf(Continued(table, buffer), key) + [offset]]
  {
    assert OffsetsOf(table, key) + (OffsetsOf(buffer, key) + [offset]) == OffsetsOf(table, key) + OffsetsOf(buffer, key) + [offset];
  }

  lemma ContinuedByNothing(table: PropertyMap)
    ensures Continued(table, map[]) == table
  {
    assert forall k :: k in table ==> table[k] + [] == table[k];
  }

  lemma ContinuedByList(table: PropertyMap, buffer: PropertyMap, todo: set<nat>, key: nat)
    requires key in todo && todo <= buffer.Keys
    ensures Continued(table, buffer - todo)[key := OffsetsOf(Continued(table, buffer - todo), key) + buffer[key]]
         == Continued(table, buffer - (todo - {key}))
  {
    assert OffsetsOf(table, key) + [] == OffsetsOf(table, key);
  }

  // ----- when buffering makes no difference

  ghost predicate UniqueDocids(docs: seq<Document>) {
    forall i, j :: 0 <= i < j < |docs| ==> docs[i].docid != docs[j].docid
  }

  lemma {:induction false} DirectKeys(docs: seq<Document>)
    ensures forall k :: k in DirectDocids(docs) <==> exists i :: 0 <= i < |docs| && docs[i].docid == k
  {
    if docs != [] {
      var front := docs[..|docs| - 1];
      DirectKeys(front);
      forall k | exists i :: 0 <= i < |docs| && docs[i].docid == k
        ensures k in DirectDocids(docs)
      {
        var i :| 0 <= i < |docs| && docs[i].docid == k;
        if i < |front| {
          assert front[i].docid == k;
        }
      }
      forall k | k in DirectDocids(docs)
        ensures exists i :: 0 <= i < |docs| && docs[i].docid == k
      {
        if k in DirectDocids(front) {
          var i :| 0 <= i < |front| && front[i].docid == k;
          assert docs[i].docid == k;
        }
      }
    }
  }

  lemma {:induction false} UniqueDocidsBuildTheSame(docs: seq<Document>, flushCount: nat)
    requires flushCount >= 1 && UniqueDocids(docs)
    ensures BuiltDocids(docs, flushCount).0 + BuiltDocids(docs, flushCount).1 == DirectDocids(docs)
  {
    if docs != [] {
      var front, last := docs[..|docs| - 1], docs[|docs| - 1];
      UniqueDocidsBuildTheSame(front, flushCount);
      DirectKeys(front);
      assert last.docid !in DirectDocids(front);
      var (table, buffer) := BuiltDocids(front, flushCount);
      PutLast(table, buffer, last.docid, last.offset);
    }
  }

  lemma PutLast(table: map<nat, nat>, buffer: map<nat, nat>, key: nat, value: nat)
    requires key !in table + buffer
    ensures key !in buffer
    ensures table + buffer[key := value] == (table + buffer)[key := value]
    ensures (table + buffer[key := value]) + map[] == (table + buffer)[key := value]
  {
    assert key in buffer ==> key in table + buffer;
  }

  /** Where the batch starts that is pending after n documents. */
  ghost function BatchStart(n: nat, flushCount: nat): nat
    requires flushCount >= 1
  {
    n - n % flushCount
  }

  lemma SameBatch(n: nat, flushCount: nat)
    requires flushCount >= 1 && (n + 1) % flushCount != 0
    ensures BatchStart(n + 1, flushCount) == BatchStart(n, flushCount)
  {
    var q := (n + 1) / flushCount;
    assert n + 1 == q * flushCount + (n + 1) % flushCount;
    ModuloInBlock(n, q, flushCount);
  }

  lemma OneBatch(n: nat, flushCount: nat)
    requires n < flushCount
    ensures BatchStart(n, flushCount) == 0
  {
    ModuloInBlock(n, 0, flushCount);
  }

  /** The buffer holds the docids of the pending batch, each with the offset it came with first. */
  lemma {:induction false} BufferKeepsFirst(docs: seq<Document>, flushCount: nat, i: nat)
    requires flushCount >= 1 && BatchStart(|docs|, flushCount) <= i < |docs|
    requires forall l :: BatchStart(|docs|, flushCount) <= l < i ==> docs[l].docid != docs[i].docid
    ensures var buffer := BuiltDocids(docs, flushCount).1;
      docs[i].docid in buffer && buffer[docs[i].docid] == docs[i].offset
  {
    var front := docs[..|docs| - 1];
    SameBatch(|front|, flushCount);
    hide BatchStart;
    if i < |front| {
      assert front[i] == docs[i];
      BufferKeepsFirst(front, flushCount, i);
    } else {
      BufferHoldsBatch(front, flushCount, docs[i].docid);
    }
  }

  lemma {:induction false} BufferHoldsBatch(docs: seq<Document>, flushCount: nat, k: nat)
    requires flushCount >= 1
    ensures k in BuiltDocids(docs, flushCount).1 ==>
      exists l :: BatchStart(|docs|, flushCount) <= l < |docs| && docs[l].docid == k
  {
    if docs != [] && |docs| % flushCount != 0 {
      var front := docs[..|docs| - 1];
      SameBatch(|front|, flushCount);
      hide BatchStart;
      BufferHoldsBatch(front, flushCount, k);
      if k in BuiltDocids(front, flushCount).1 {
        var l :| BatchStart(|front|, flushCount) <= l < |front| && front[l].docid == k;
        assert docs[l].docid == k;
      } else {
        assert k in BuiltDocids(docs, flushCount).1 ==> docs[|front|].docid == k;
      }
    }
  }

  /** The offset stored for a docid, whatever the flush count: the one it came with first in the last batch that
      has it. */
  lemma {:induction false} FirstOfLastBatch(docs: seq<Document>, flushCount: nat, i: nat, j: nat)
    requires flushCount >= 1 && i <= j < |docs| && docs[i].docid == docs[j].docid
    requires forall l :: j < l < |docs| ==> docs[l].docid != docs[j].docid
    requires BatchStart(j, flushCount) <= i && forall l :: BatchStart(j, flushCount) <= l < i ==> docs[l].docid != docs[j].docid
    ensures var built := BuiltDocids(docs, flushCount).0 + BuiltDocids(docs, flushCount).1;
      docs[j].docid in built && built[docs[j].docid] == docs[i].offset
  {
    var n, front := |docs| - 1, docs[..|docs| - 1];
    hide BatchStart;
    if j < n {
      assert front[i] == docs[i] && front[j] == docs[j];
      FirstOfLastBatch(front, flushCount, i, j);
    } else if i < n {
      assert front[i] == docs[i];
      BufferKeepsFirst(front, flushCount, i);
    } else {
      BufferHoldsBatch(front, flushCount, docs[n].docid);
    }
  }

  lemma {:induction false} DirectKeepsLast(docs: seq<Document>, j: nat)
    requires j < |docs| && forall l :: j < l < |docs| ==> docs[l].docid != docs[j].docid
    ensures docs[j].docid in DirectDocids(docs) && DirectDocids(docs)[docs[j].docid] == docs[j].offset
  {
    if j < |docs| - 1 {
      var front := docs[..|docs| - 1];
      assert front[j] == docs[j];
      DirectKeepsLast(front, j);
    }
  }

  lemma {:induction false} FirstWithDocid(docs: seq<Document>, j: nat) returns (i: nat)
    requires j < |docs|
    ensures i <= j && docs[i].docid == docs[j].docid && forall l :: 0 <= l < i ==> docs[l].docid != docs[j].docid
  {
    i := 0;
    while docs[i].docid != docs[j].docid
      invariant i <= j && forall l :: 0 <= l < i ==> docs[l].docid != docs[j].docid
      decreases j - i
    {
      i := i + 1;
    }
  }

  lemma LastWithDocid(docs: seq<Document>, i: nat) returns (j: nat)
    requires i < |docs|
    ensures i <= j < |docs| && docs[i].docid == docs[j].docid && forall l :: j < l < |docs| ==> docs[l].docid != docs[i].docid
  {
    j := |docs| - 1;
    while docs[j].docid != docs[i].docid
      invariant i <= j < |docs| && forall l :: j < l < |docs| ==> docs[l].docid != docs[i].docid
      decreases j
    {
      j := j - 1;
    }
  }

  /** The docid table is the same for every flush count, and as if inserted directly, exactly when no
      two documents of the file share a DOCID. */
  lemma BufferingIsInvisibleExactlyForUniqueDocids(docs: seq<Document>)
    requires forall i, j :: 0 <= i < j < |docs| ==> docs[i].offset < docs[j].offset
    ensures (forall flushCount: nat :: flushCount >= 1 ==>
               BuiltDocids(docs, flushCount).0 + BuiltDocids(docs, flushCount).1 == DirectDocids(docs))
      <==> UniqueDocids(docs)
  {
    if UniqueDocids(docs) {
      forall flushCount: nat | flushCount >= 1
        ensures BuiltDocids(docs, flushCount).0 + BuiltDocids(docs, flushCount).1 == DirectDocids(docs)
      {
        UniqueDocidsBuildTheSame(docs, flushCount);
      }
    } else {
      var i0, j0 :| 0 <= i0 < j0 < |docs| && docs[i0].docid == docs[j0].docid;
      var i := FirstWithDocid(docs, i0);
      var j := LastWithDocid(docs, j0);
      OneBatch(j, |docs| + 1);
      FirstOfLastBatch(docs, |docs| + 1, i, j);
      DirectKeepsLast(docs, j);
      hide BuiltDocids, DirectDocids, BatchStart;
      assert docs[i].offset < docs[j].offset;
    }
  }

  // ----- the offsets under a property

  /** The offsets of the documents with this property value, in file order. */
  ghost function OffsetsWith(docs: seq<Document>, key: nat): seq<nat> {
    if docs == [] then
      []
    else
      OffsetsWith(docs[..|docs| - 1], key) + (if docs[|docs| - 1].property == key then [docs[|docs| - 1].offset] else [])
  }

  lemma {:induction false} PropertyListsFileOrder(docs: seq<Document>, key: nat)
    ensures OffsetsOf(DirectProperties(docs), key) == OffsetsWith(docs, key)
    ensures key in DirectProperties(docs) <==> OffsetsWith(docs, key) != []
  {
    if docs != [] {
      PropertyListsFileOrder(docs[..|docs| - 1], key);
    }
  }

  /** These are the offsets of exactly the documents with the property value, by their places in the file. */
  lemma {:induction false} OffsetsInOrder(docs: seq<Document>, key: nat) returns (at: seq<nat>)
    ensures StrictlyAscending(at) && forall i :: i in at <==> 0 <= i < |docs| && docs[i].property == key
    ensures |at| == |OffsetsWith(docs, key)|
    ensures forall j :: 0 <= j < |at| ==> at[j] < |docs| && OffsetsWith(docs, key)[j] == docs[at[j]].offset
  {
    at := [];
    if docs != [] {
      var n := |docs| - 1;
      at := OffsetsInOrder(docs[..n], key);
      if docs[n].property == key {
        PlaceAppended(at, n);
        at := at + [n];
      }
    }
  }
}
