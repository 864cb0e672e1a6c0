/** Merging SCD files id by id, in m passes that each keep only the ids of one residue in memory. */
module ScdMerge {
  import opened Arithmetic
  import opened Sequences

  datatype ScdType = NOT_SCD | INSERT_SCD | UPDATE_SCD | RTYPE_SCD | DELETE_SCD

  type Document = map<string, string>

  datatype Value = Value(doc: Document, kind: ScdType)

  const BLANK := Value(map[], NOT_SCD)

  const DOCID := "DOCID"

  /** A file holds documents; its name says what kind of records they are. */
  datatype ScdFile = ScdFile(kind: ScdType, docs: seq<Document>)

  /** A record's id: the digest of its DOCID, and 0 when it has none. */
  function IdOf(md5: string -> nat, v: Value): nat {
    if DOCID in v.doc && v.doc[DOCID] != "" then md5(v.doc[DOCID]) else 0
  }

  function DefaultMerge(v: Value, another: Value): Value {
    match another.kind
    case DELETE_SCD => Value(v.doc + another.doc, another.kind)
    case UPDATE_SCD => Value(v.doc + another.doc, if v.kind != INSERT_SCD then another.kind else v.kind)
    case RTYPE_SCD => Value(v.doc + another.doc, if v.kind != INSERT_SCD then another.kind else v.kind)
    case INSERT_SCD => another
    case NOT_SCD => v
  }

  /** The records of a file list, file after file. */
  ghost function FileValues(f: ScdFile): seq<Value> {
    seq(|f.docs|, i requires 0 <= i < |f.docs| => Value(f.docs[i], f.kind))
  }

  ghost function Records(files: seq<ScdFile>): seq<Value> {
    Concat(seq(|files|, i requires 0 <= i < |files| => FileValues(files[i])))
  }

  /** The DOCID a record is filed under, if it has one. */
  ghost predicate Names(v: Value, docid: string) {
    docid != "" && "DOCID" in v.doc && v.doc["DOCID"] == docid
  }

  /** A digest that tells strings apart and is never 0 makes ids tell DOCIDs apart; records without one share id 0. */
  lemma IdsTellDocidsApart(md5: string -> nat, u: Value, v: Value)
    requires forall a, b :: md5(a) == md5(b) ==> a == b
    requires forall a :: md5(a) != 0
    ensures IdOf(md5, u) == IdOf(md5, v) <==> forall docid :: Names(u, docid) <==> Names(v, docid)
    ensures IdOf(md5, u) == 0 <==> forall docid :: !Names(u, docid)
  {
    assert IdOf(md5, u) != 0 ==> Names(u, u.doc["DOCID"]);
    assert IdOf(md5, v) != 0 ==> Names(v, v.doc["DOCID"]);
  }

  /** The records are the documents of the files, each of its own file's kind. */
  lemma RecordsAreDocuments(files: seq<ScdFile>, v: Value)
    ensures v in Records(files) <==> exists s :: 0 <= s < |files| && v.kind == files[s].kind && v.doc in files[s].docs
  {
    var parts := seq(|files|, i requires 0 <= i < |files| => FileValues(files[i]));
    ConcatMember(parts, v);
    forall s | 0 <= s < |files|
      ensures v in parts[s] <==> v.kind == files[s].kind && v.doc in files[s].docs
    {
      if v.kind == files[s].kind && v.doc in files[s].docs {
        var d :| 0 <= d < |files[s].docs| && files[s].docs[d] == v.doc;
        assert FileValues(files[s])[d] == v;
      }
    }
  }

  // ----- what a merge should write

  /** All records of one id, folded in order into a blank one. */
  ghost function FoldOf(md5: string -> nat, records: seq<Value>, id: nat): Value {
    if records == [] then
      BLANK
    else
      var front, last := FoldOf(md5, records[..|records| - 1], id), records[|records| - 1];
      if IdOf(md5, last) == id then DefaultMerge(front, last) else front
  }

  /** One folded record for each id of the set. */
  ghost function FoldsOf(md5: string -> nat, records: seq<Value>, ids: set<nat>): multiset<Value> {
    if ids == {} then
      multiset{}
    else
      var id :| id in ids;
      multiset{FoldOf(md5, records, id)} + FoldsOf(md5, records, ids - {id})
  }

  ghost function IdsOf(md5: string -> nat, records: seq<Value>): set<nat> {
    set i | 0 <= i < |records| :: IdOf(md5, records[i])
  }

  /** The records whose residue is in range and whose id is not in the set, in order. */
  ghost function Others(md5: string -> nat, records: seq<Value>, ids: set<nat>, m: nat, lo: nat, hi: nat): seq<Value>
    requires m > 0
  {
    if records == [] then
      []
    else
      var last := records[|records| - 1];
      Others(md5, records[..|records| - 1], ids, m, lo, hi)
      + (if lo <= IdOf(md5, last) % m < hi && IdOf(md5, last) !in ids then [last] else [])
  }

  ghost function Residues(ids: set<nat>, m: nat, lo: nat, hi: nat): set<nat>
    requires m > 0
  {
    set id | id in ids && lo <= id % m < hi
  }

  /** The ids to be merged: those of the new records, if there are existing files at all. */
  ghost function MergedIds(md5: string -> nat, newFiles: seq<ScdFile>, existing: seq<ScdFile>): set<nat> {
    if existing == [] then {} else IdsOf(md5, Records(newFiles))
  }

  /** Every merged id once, folded over its existing and then its new records; all other records as
      they are. The number of passes does not appear. */
  ghost function Expected(md5: string -> nat, newFiles: seq<ScdFile>, existing: seq<ScdFile>): multiset<Value> {
    var records, ids := Records(existing) + Records(newFiles), MergedIds(md5, newFiles, existing);
    multiset(Others(md5, records, ids, 1, 0, 1)) + FoldsOf(md5, records, ids)
  }

  // ----- the set-indexed fold does not depend on the order of the ids

  lemma {:induction false} FoldsPick(md5: string -> nat, records: seq<Value>, ids: set<nat>, id: nat)
    requires id in ids
    ensures FoldsOf(md5, records, ids) == multiset{FoldOf(md5, records, id)} + FoldsOf(md5, records, ids - {id})
    decreases ids
  {
    var first :| first in ids
      && FoldsOf(md5, records, ids) == multiset{FoldOf(md5, records, first)} + FoldsOf(md5, records, ids - {first});
    if first != id {
      FoldsPick(md5, records, ids - {first}, id);
      FoldsPick(md5, records, ids - {id}, first);
      assert ids - {first} - {id} == ids - {id} - {first};
    }
  }

  lemma {:induction false} FoldsUnion(md5: string -> nat, records: seq<Value>, a: set<nat>, b: set<nat>)
    requires a !! b
    ensures FoldsOf(md5, records, a + b) == FoldsOf(md5, records, a) + FoldsOf(md5, records, b)
    decreases a
  {
    if a == {} {
      assert a + b == b;
    } else {
      hide FoldsOf;
      var id :| id in a;
      var f, x, y := multiset{FoldOf(md5, records, id)}, FoldsOf(md5, records, a - {id}), FoldsOf(md5, records, b);
      calc {
        FoldsOf(md5, records, a + b);
      == { FoldsPick(md5, records, a + b, id); assert a + b - {id} == (a - {id}) + b; }
        f + FoldsOf(md5, records, (a - {id}) + b);
      == { FoldsUnion(md5, records, a - {id}, b); }
        f + (x + y);
      == { Reassociate(f, x, y); }
        (f + x) + y;
      == { FoldsPick(md5, records, a, id); }
        FoldsOf(md5, records, a) + y;
      }
    }
  }

  lemma Reassociate(a: multiset<Value>, b: multiset<Value>, c: multiset<Value>)
    ensures a + (b + c) == (a + b) + c
  {
  }

  lemma {:induction false} OthersSplit(md5: string -> nat, records: seq<Value>, ids: set<nat>, m: nat, r: nat)
    requires r < m
    ensures multiset(Others(md5, records, ids, m, 0, r + 1))
         == multiset(Others(md5, records, ids, m, 0, r)) + multiset(Others(md5, records, Residues(ids, m, r, r + 1), m, r, r + 1))
  {
    if records != [] {
      OthersSplit(md5, records[..|records| - 1], ids, m, r);
    }
  }

  /** All residues of any modulus make the same selection. */
  lemma {:induction false} OthersAll(md5: string -> nat, records: seq<Value>, ids: set<nat>, m: nat)
    requires m > 0
    ensures Others(md5, records, ids, m, 0, m) == Others(md5, records, ids, 1, 0, 1)
  {
    if records != [] {
      OthersAll(md5, records[..|records| - 1], ids, m);
    }
  }

  lemma {:induction false} NoResidueBelowZero(md5: string -> nat, records: seq<Value>, ids: set<nat>, m: nat)
    requires m > 0
    ensures Others(md5, records, ids, m, 0, 0) == []
  {
    if records != [] {
      NoResidueBelowZero(md5, records[..|records| - 1], ids, m);
    }
  }

  // ----- the merger

  /** After the records so far: the cache folds its ids, everything else of the residue was written. */
  ghost predicate PassState(md5: string -> nat, records: seq<Value>, ids: set<nat>, m: nat, r: nat,
                            cache: map<nat, Value>, before: multiset<Value>, written: seq<Value>)
    requires m > 0
  {
    && cache.Keys == ids
    && (forall id :: id in ids ==> cache[id] == FoldOf(md5, records, id))
    && multiset(written) == before + multiset(Others(md5, records, ids, m, r, r + 1))
  }

  lemma FoldOneMore(md5: string -> nat, records: seq<Value>, v: Value, id: nat)
    ensures FoldOf(md5, records + [v], id)
         == if IdOf(md5, v) == id then DefaultMerge(FoldOf(md5, records, id), v) else FoldOf(md5, records, id)
  {
    assert (records + [v])[..|records|] == records;
  }

  lemma OthersOneMore(md5: string -> nat, records: seq<Value>, v: Value, ids: set<nat>, m: nat, lo: nat, hi: nat)
    requires m > 0
    ensures Others(md5, records + [v], ids, m, lo, hi)
         == Others(md5, records, ids, m, lo, hi) + (if lo <= IdOf(md5, v) % m < hi && IdOf(md5, v) !in ids then [v] else [])
  {
    assert (records + [v])[..|records|] == records;
  }

  lemma PassSkips(md5: string -> nat, records: seq<Value>, v: Value, ids: set<nat>, m: nat, r: nat,
                  cache: map<nat, Value>, before: multiset<Value>, written: seq<Value>)
    requires m > 0 && PassState(md5, records, ids, m, r, cache, before, written)
    requires IdOf(md5, v) % m != r && forall id :: id in ids ==> id % m == r
    ensures PassState(md5, records + [v], ids, m, r, cache, before, written)
  {
    hide FoldOf, Others;
    OthersOneMore(md5, records, v, ids, m, r, r + 1);
    forall id | id in ids
      ensures cache[id] == FoldOf(md5, records + [v], id)
    {
      FoldOneMore(md5, records, v, id);
    }
  }

  lemma PassMerges(md5: string -> nat, records: seq<Value>, v: Value, ids: set<nat>, m: nat, r: nat,
                   cache: map<nat, Value>, before: multiset<Value>, written: seq<Value>)
    requires m > 0 && PassState(md5, records, ids, m, r, cache, before, written)
    requires IdOf(md5, v) in cache
    ensures PassState(md5, records + [v], ids, m, r, cache[IdOf(md5, v) := DefaultMerge(cache[IdOf(md5, v)], v)], before, written)
  {
    hide FoldOf, Others;
    OthersOneMore(md5, records, v, ids, m, r, r + 1);
    var cache' := cache[IdOf(md5, v) := DefaultMerge(cache[IdOf(md5, v)], v)];
    forall id | id in ids
      ensures cache'[id] == FoldOf(md5, records + [v], id)
    {
      FoldOneMore(md5, records, v, id);
    }
  }

  lemma PassWrites(md5: string -> nat, records: seq<Value>, v: Value, ids: set<nat>, m: nat, r: nat,
                   cache: map<nat, Value>, before: multiset<Value>, written: seq<Value>)
    requires m > 0 && PassState(md5, records, ids, m, r, cache, before, written)
    requires IdOf(md5, v) % m == r && IdOf(md5, v) !in cache
    ensures PassState(md5, records + [v], ids, m, r, cache, before, written + [v])
  {
    hide FoldOf, Others;
    OthersOneMore(md5, records, v, ids, m, r, r + 1);
    forall id | id in ids
      ensures cache[id] == FoldOf(md5, records + [v], id)
    {
      FoldOneMore(md5, records, v, id);
    }
  }

  /** Writing one fold takes it from those still to be written. */
  lemma FoldWritten(md5: string -> nat, records: seq<Value>, ids: set<nat>, id: nat, written: seq<Value>)
    requires id in ids
    ensures multiset(written + [FoldOf(md5, records, id)]) + FoldsOf(md5, records, ids - {id})
         == multiset(written) + FoldsOf(md5, records, ids)
  {
    hide FoldsOf, FoldOf;
    FoldsPick(md5, records, ids, id);
  }

  lemma NoFolds(md5: string -> nat, records: seq<Value>)
    ensures FoldsOf(md5, records, {}) == multiset{}
  {
  }

  class PairwiseScdMerger {
    const md5: string -> nat
    var m: nat
    var cache: map<nat, Value>
    var written: seq<Value>

    /** m passes; with 0 the number is worked out from the documents to come. */
    constructor (md5: string -> nat, m: nat)
      ensures this.md5 == md5 && this.m == m && cache == map[] && written == []
    {
      this.md5 := md5;
      this.m, cache, written := m, map[], [];
    }

    method Preprocess(v: Value)
      modifies this`cache
      ensures cache == old(cache)[IdOf(md5, v) := BLANK]
    {
      cache := cache[IdOf(md5, v) := BLANK];
    }

    /** Of an existing record (the replaced original is not written again) or of a new one. */
    method Process(v: Value)
      modifies this`cache, this`written
      ensures IdOf(md5, v) in old(cache) ==>
        cache == old(cache)[IdOf(md5, v) := DefaultMerge(old(cache)[IdOf(md5, v)], v)] && written == old(written)
      ensures IdOf(md5, v) !in old(cache) ==> cache == old(cache) && written == old(written) + [v]
    {
      var id := IdOf(md5, v);
      if id in cache {
        cache := cache[id := DefaultMerge(cache[id], v)];
      } else {
        written := written + [v];
      }
    }

    /** Writes the cache out, in whatever order it iterates, and empties it. */
    method MEnd(ghost records: seq<Value>)
      requires forall id :: id in cache ==> cache[id] == FoldOf(md5, records, id)
      modifies this`cache, this`written
      ensures cache == map[]
      ensures multiset(written) == multiset(old(written)) + FoldsOf(md5, records, old(cache).Keys)
    {
      hide FoldsOf, FoldOf;
      var ids := cache.Keys;
      while ids != {}
        invariant ids <= cache.Keys && cache == old(cache)
        invariant multiset(written) + FoldsOf(md5, records, ids) == multiset(old(written)) + FoldsOf(md5, records, old(cache).Keys)
        decreases |ids|
      {
        var id :| id in ids;
        FoldWritten(md5, records, ids, id, written);
        written := written + [cache[id]];
        ids := ids - {id};
      }
      NoFolds(md5, records);
      cache := map[];
    }

    method PreprocessFiles(files: seq<ScdFile>, r: nat)
      requires m > 0 && cache == map[]
      modifies this`cache
      ensures cache.Keys == Residues(IdsOf(md5, Records(files)), m, r, r + 1)
      ensures forall id :: id in cache ==> cache[id] == BLANK
    {
      for s := 0 to |files|
        invariant cache.Keys == Residues(IdsOf(md5, Records(files[..s])), m, r, r + 1)
        invariant forall id :: id in cache ==> cache[id] == BLANK
      {
        RecordsSnoc(files, s);
        assert Records(files[..s]) + FileValues(files[s])[..0] == Records(files[..s]);
        for d := 0 to |files[s].docs|
          invariant cache.Keys == Residues(IdsOf(md5, Records(files[..s]) + FileValues(files[s])[..d]), m, r, r + 1)
          invariant forall id :: id in cache ==> cache[id] == BLANK
        {
          var v := Value(files[s].docs[d], files[s].kind);
          OneMoreId(md5, Records(files[..s]) + FileValues(files[s])[..d], v, m, r);
          assert Records(files[..s]) + FileValues(files[s])[..d + 1] == Records(files[..s]) + FileValues(files[s])[..d] + [v];
          if IdOf(md5, v) % m != r {
            continue;
          }
          Preprocess(v);
        }
        assert FileValues(files[s])[..|files[s].docs|] == FileValues(files[s]);
      }
      assert files[..|files|] == files;
    }

    method ProcessFiles(files: seq<ScdFile>, r: nat, ghost earlier: seq<Value>, ghost ids: set<nat>, ghost before: multiset<Value>)
      requires m > 0 && PassState(md5, earlier, ids, m, r, cache, before, written)
      requires forall id :: id in ids ==> id % m == r
      modifies this`cache, this`written
      ensures PassState(md5, earlier + Records(files), ids, m, r, cache, before, written)
    {
      hide PassState, Records, FileValues, ReadSoFar;
      NothingRead(files, earlier);
      for s := 0 to |files|
        invariant PassState(md5, earlier + Records(files[..s]), ids, m, r, cache, before, written)
      {
        FileRead(files, s, earlier);
        for d := 0 to |files[s].docs|
          invariant PassState(md5, ReadSoFar(files, s, d, earlier), ids, m, r, cache, before, written)
        {
          ghost var done := ReadSoFar(files, s, d, earlier);
          var v := Value(files[s].docs[d], files[s].kind);
          OneMoreRead(files, s, d, earlier);
          if IdOf(md5, v) % m != r {
            PassSkips(md5, done, v, ids, m, r, cache, before, written);
            continue;
          }
          if IdOf(md5, v) in cache {
            PassMerges(md5, done, v, ids, m, r, cache, before, written);
          } else {
            PassWrites(md5, done, v, ids, m, r, cache, before, written);
          }
          Process(v);
        }
      }
      assert files[..|files|] == files;
    }

    /** One pass: the records and ids of one residue. */
    method RunPass(newFiles: seq<ScdFile>, existing: seq<ScdFile>, r: nat)
      requires m > 0 && cache == map[]
      modifies this`cache, this`written
      ensures cache == map[]
      ensures
        var records := Records(existing) + Records(newFiles);
        var here := Residues(MergedIds(md5, newFiles, existing), m, r, r + 1);
        multiset(written) == multiset(old(written)) + multiset(Others(md5, records, here, m, r, r + 1)) + FoldsOf(md5, records, here)
    {
      hide Others, FoldsOf, PassState, Records, IdsOf;
      ghost var here := Residues(MergedIds(md5, newFiles, existing), m, r, r + 1);
      if existing != [] {
        PreprocessFiles(newFiles, r);
      }
      BlankPass(md5, here, m, r, cache, written);
      ProcessFiles(existing, r, [], here, multiset(old(written)));
      assert [] + Records(existing) == Records(existing);
      ProcessFiles(newFiles, r, Records(existing), here, multiset(old(written)));
      PassDone(md5, Records(existing) + Records(newFiles), here, m, r, cache, multiset(old(written)), written);
      MEnd(Records(existing) + Records(newFiles));
    }

    /** With no new file nothing is written. Otherwise what is written, as a multiset, is Expected -
        whatever the number of passes is, and whether it was set or is worked out here. */
    method Run(newFiles: seq<ScdFile>, existing: seq<ScdFile>, docCount: nat)
      modifies this
      ensures newFiles == [] ==> written == old(written)
      ensures newFiles != [] ==>
        cache == map[] && multiset(written) == multiset(old(written)) + Expected(md5, newFiles, existing)
    {
      hide Others, FoldsOf, Records, MergedIds, WrittenBelow, Residues;
      if newFiles == [] {
        return;
      }
      if m == 0 {
        m := docCount / 1200000 + 1;
      }
      cache := map[];
      ghost var records, ids := Records(existing) + Records(newFiles), MergedIds(md5, newFiles, existing);
      PassesStart(md5, records, ids, m);
      var passes := m;
      for r := 0 to passes
        invariant m == passes > 0 && cache == map[]
        invariant multiset(written) == multiset(old(written)) + WrittenBelow(md5, records, ids, m, r)
      {
        RunPass(newFiles, existing, r);
        OnePassMore(md5, records, ids, m, r);
      }
      AllPassesDone(md5, records, ids, m);
    }
  }

  /** The records read when the s-th file is being read, up to its d-th document. */
  ghost function ReadSoFar(files: seq<ScdFile>, s: nat, d: nat, earlier: seq<Value>): seq<Value>
    requires s < |files| && d <= |files[s].docs|
  {
    earlier + Records(files[..s]) + FileValues(files[s])[..d]
  }

  lemma NothingRead(files: seq<ScdFile>, earlier: seq<Value>)
    ensures earlier + Records(files[..0]) == earlier
  {
  }

  lemma FileRead(files: seq<ScdFile>, s: nat, earlier: seq<Value>)
    requires s < |files|
    ensures ReadSoFar(files, s, 0, earlier) == earlier + Records(files[..s])
    ensures ReadSoFar(files, s, |files[s].docs|, earlier) == earlier + Records(files[..s + 1])
  {
    RecordsSnoc(files, s);
    hide Records;
    assert FileValues(files[s])[..|files[s].docs|] == FileValues(files[s]);
    assert earlier + Records(files[..s]) + FileValues(files[s]) == earlier + (Records(files[..s]) + FileValues(files[s]));
  }

  lemma OneMoreRead(files: seq<ScdFile>, s: nat, d: nat, earlier: seq<Value>)
    requires s < |files| && d < |files[s].docs|
    ensures ReadSoFar(files, s, d + 1, earlier) == ReadSoFar(files, s, d, earlier) + [Value(files[s].docs[d], files[s].kind)]
  {
    hide Records;
    assert FileValues(files[s])[..d + 1] == FileValues(files[s])[..d] + [FileValues(files[s])[d]];
  }

  lemma RecordsSnoc(files: seq<ScdFile>, s: nat)
    requires s < |files|
    ensures Records(files[..s + 1]) == Records(files[..s]) + FileValues(files[s])
  {
    var upTo := seq(s + 1, i requires 0 <= i < s + 1 => FileValues(files[..s + 1][i]));
    assert upTo[..s] == seq(s, i requires 0 <= i < s => FileValues(files[..s][i]));
  }

  lemma OneMoreId(md5: string -> nat, records: seq<Value>, v: Value, m: nat, r: nat)
    requires m > 0
    ensures Residues(IdsOf(md5, records + [v]), m, r, r + 1)
         == Residues(IdsOf(md5, records), m, r, r + 1) + (if IdOf(md5, v) % m == r then {IdOf(md5, v)} else {})
  {
    assert IdsOf(md5, records + [v]) == IdsOf(md5, records) + {IdOf(md5, v)} by {
      forall id | id in IdsOf(md5, records) + {IdOf(md5, v)}
        ensures id in IdsOf(md5, records + [v])
      {
        if id == IdOf(md5, v) {
          assert (records + [v])[|records|] == v;
        } else {
          var i :| 0 <= i < |records| && IdOf(md5, records[i]) == id;
          assert (records + [v])[i] == records[i];
        }
      }
    }
  }

  /** What the passes below r write together. */
  ghost function WrittenBelow(md5: string -> nat, records: seq<Value>, ids: set<nat>, m: nat, r: nat): multiset<Value>
    requires m > 0
  {
    multiset(Others(md5, records, ids, m, 0, r)) + FoldsOf(md5, records, Residues(ids, m, 0, r))
  }

  lemma PassesStart(md5: string -> nat, records: seq<Value>, ids: set<nat>, m: nat)
    requires m > 0
    ensures WrittenBelow(md5, records, ids, m, 0) == multiset{}
  {
    NoResidueBelowZero(md5, records, ids, m);
    assert Residues(ids, m, 0, 0) == {};
  }

  lemma BlankPass(md5: string -> nat, ids: set<nat>, m: nat, r: nat, cache: map<nat, Value>, written: seq<Value>)
    requires m > 0 && cache.Keys == ids && forall id :: id in cache ==> cache[id] == BLANK
    ensures PassState(md5, [], ids, m, r, cache, multiset(written), written)
  {
  }

  lemma PassDone(md5: string -> nat, records: seq<Value>, ids: set<nat>, m: nat, r: nat,
                 cache: map<nat, Value>, before: multiset<Value>, written: seq<Value>)
    requires m > 0 && PassState(md5, records, ids, m, r, cache, before, written)
    ensures cache.Keys == ids && forall id :: id in cache ==> cache[id] == FoldOf(md5, records, id)
    ensures multiset(written) == before + multiset(Others(md5, records, ids, m, r, r + 1))
  {
  }

  lemma OnePassMore(md5: string -> nat, records: seq<Value>, ids: set<nat>, m: nat, r: nat)
    requires r < m
    ensures var here := Residues(ids, m, r, r + 1);
      WrittenBelow(md5, records, ids, m, r + 1)
      == WrittenBelow(md5, records, ids, m, r) + multiset(Others(md5, records, here, m, r, r + 1)) + FoldsOf(md5, records, here)
  {
    OthersSplit(md5, records, ids, m, r);
    assert Residues(ids, m, 0, r + 1) == Residues(ids, m, 0, r) + Residues(ids, m, r, r + 1);
    FoldsUnion(md5, records, Residues(ids, m, 0, r), Residues(ids, m, r, r + 1));
  }

  lemma AllPassesDone(md5: string -> nat, records: seq<Value>, ids: set<nat>, m: nat)
    requires m > 0
    ensures WrittenBelow(md5, records, ids, m, m) == multiset(Others(md5, records, ids, 1, 0, 1)) + FoldsOf(md5, records, ids)
  {
    OthersAll(md5, records, ids, m);
    assert Residues(ids, m, 0, m) == ids;
  }

  // ----- what Expected says

  /** The ids of the written records are those they were folded for. */
  lemma {:induction false} FoldKeepsId(md5: string -> nat, records: seq<Value>, id: nat)
    requires forall i :: 0 <= i < |records| ==> records[i].kind != NOT_SCD
    ensures id in IdsOf(md5, records) ==> IdOf(md5, FoldOf(md5, records, id)) == id
    ensures id !in IdsOf(md5, records) ==> FoldOf(md5, records, id) == BLANK
  {
    if records != [] {
      var front, last := records[..|records| - 1], records[|records| - 1];
      FoldKeepsId(md5, front, id);
      assert records == front + [last];
      OneMoreId(md5, front, last, 1, 0);
      assert Residues(IdsOf(md5, records), 1, 0, 1) == IdsOf(md5, records);
      assert Residues(IdsOf(md5, front), 1, 0, 1) == IdsOf(md5, front);
    }
  }

  lemma {:induction false} FoldsMembers(md5: string -> nat, records: seq<Value>, ids: set<nat>, v: Value)
    ensures v in FoldsOf(md5, records, ids) ==> exists id :: id in ids && v == FoldOf(md5, records, id)
    decreases ids
  {
    if ids != {} {
      var id :| id in ids;
      FoldsPick(md5, records, ids, id);
      FoldsMembers(md5, records, ids - {id}, v);
    }
  }

  lemma {:induction false} OthersMembers(md5: string -> nat, records: seq<Value>, ids: set<nat>, v: Value)
    requires v in Others(md5, records, ids, 1, 0, 1)
    ensures IdOf(md5, v) !in ids && v in records
  {
    if records != [] && v in Others(md5, records[..|records| - 1], ids, 1, 0, 1) {
      OthersMembers(md5, records[..|records| - 1], ids, v);
    }
  }

  /** Every new id is written once, as its fold; and nothing else is written under that id. */
  lemma NewIdIsWrittenOnce(md5: string -> nat, newFiles: seq<ScdFile>, existing: seq<ScdFile>, id: nat)
    requires existing != [] && id in IdsOf(md5, Records(newFiles))
    requires forall i :: 0 <= i < |Records(existing) + Records(newFiles)| ==> (Records(existing) + Records(newFiles))[i].kind != NOT_SCD
    ensures var records := Records(existing) + Records(newFiles);
      && Expected(md5, newFiles, existing)[FoldOf(md5, records, id)] == 1
      && forall v :: v in Expected(md5, newFiles, existing) && IdOf(md5, v) == id ==> v == FoldOf(md5, records, id)
  {
    var records, ids := Records(existing) + Records(newFiles), IdsOf(md5, Records(newFiles));
    var f := FoldOf(md5, records, id);
    forall i | i in ids
      ensures IdOf(md5, FoldOf(md5, records, i)) == i
    {
      var j :| 0 <= j < |Records(newFiles)| && IdOf(md5, Records(newFiles)[j]) == i;
      assert records[|Records(existing)| + j] == Records(newFiles)[j];
      FoldKeepsId(md5, records, i);
    }
    FoldsPick(md5, records, ids, id);
    FoldsMembers(md5, records, ids - {id}, f);
    assert f !in FoldsOf(md5, records, ids - {id});
    if f in Others(md5, records, ids, 1, 0, 1) {
      OthersMembers(md5, records, ids, f);
    }
    forall v | v in Expected(md5, newFiles, existing) && IdOf(md5, v) == id
      ensures v == f
    {
      FoldsMembers(md5, records, ids, v);
      if v in Others(md5, records, ids, 1, 0, 1) {
        OthersMembers(md5, records, ids, v);
      }
    }
  }

  lemma {:induction false} OthersCount(md5: string -> nat, records: seq<Value>, ids: set<nat>, v: Value)
    requires IdOf(md5, v) !in ids
    ensures multiset(Others(md5, records, ids, 1, 0, 1))[v] == multiset(records)[v]
  {
    if records != [] {
      var front, last := records[..|records| - 1], records[|records| - 1];
      OthersCount(md5, front, ids, v);
      assert records == front + [last];
      assert multiset(Others(md5, records, ids, 1, 0, 1)) == multiset(Others(md5, front, ids, 1, 0, 1)) +
        (if IdOf(md5, last) !in ids then multiset{last} else multiset{});
    }
  }

  /** A record whose id no new record has is written exactly as often as it was read. */
  lemma OldIdsPassThrough(md5: string -> nat, newFiles: seq<ScdFile>, existing: seq<ScdFile>, v: Value)
    requires IdOf(md5, v) !in IdsOf(md5, Records(newFiles))
    requires forall i :: 0 <= i < |Records(existing) + Records(newFiles)| ==> (Records(existing) + Records(newFiles))[i].kind != NOT_SCD
    ensures Expected(md5, newFiles, existing)[v] == multiset(Records(existing) + Records(newFiles))[v]
  {
    var records, ids := Records(existing) + Records(newFiles), MergedIds(md5, newFiles, existing);
    assert ids <= IdsOf(md5, Records(newFiles));
    forall id | id in IdsOf(md5, Records(newFiles))
      ensures id in IdsOf(md5, records)
    {
      NewIdsAmongAll(md5, Records(existing), Records(newFiles), id);
    }
    OthersCount(md5, records, ids, v);
    NoFold(md5, records, ids, v);
    hide Others, FoldsOf, IdsOf, Records, MergedIds;
  }

  lemma NewIdsAmongAll(md5: string -> nat, earlier: seq<Value>, later: seq<Value>, id: nat)
    requires id in IdsOf(md5, later)
    ensures id in IdsOf(md5, earlier + later)
  {
    var j :| 0 <= j < |later| && IdOf(md5, later[j]) == id;
    assert (earlier + later)[|earlier| + j] == later[j];
  }

  /** A record of another id is no fold of these ids. */
  lemma NoFold(md5: string -> nat, records: seq<Value>, ids: set<nat>, v: Value)
    requires forall i :: 0 <= i < |records| ==> records[i].kind != NOT_SCD
    requires ids <= IdsOf(md5, records) && IdOf(md5, v) !in ids
    ensures v !in FoldsOf(md5, records, ids)
  {
    hide FoldsOf, FoldOf, IdsOf, IdOf;
    if v in FoldsOf(md5, records, ids) {
      FoldsMembers(md5, records, ids, v);
      var id :| id in ids && v == FoldOf(md5, records, id);
      FoldKeepsId(md5, records, id);
    }
  }

  /** Without existing files every record passes through. */
  lemma {:induction false} OthersKeepAll(md5: string -> nat, records: seq<Value>)
    ensures Others(md5, records, {}, 1, 0, 1) == records
  {
    if records != [] {
      OthersKeepAll(md5, records[..|records| - 1]);
      assert records == records[..|records| - 1] + [records[|records| - 1]];
    }
  }

  lemma WithoutExistingNothingIsMerged(md5: string -> nat, newFiles: seq<ScdFile>)
    ensures Expected(md5, newFiles, []) == multiset(Records(newFiles))
  {
    var records := Records([]) + Records(newFiles);
    assert records == Records(newFiles);
    OthersKeepAll(md5, records);
  }

  /** Folding on from a given record. */
  ghost function FoldFrom(md5: string -> nat, start: Value, records: seq<Value>, id: nat): Value {
    if records == [] then
      start
    else
      var front, last := FoldFrom(md5, start, records[..|records| - 1], id), records[|records| - 1];
      if IdOf(md5, last) == id then DefaultMerge(front, last) else front
  }

  /** An insert record starts its id afresh: nothing before it shows in the fold. */
  lemma {:induction false} InsertForgetsThePast(md5: string -> nat, before: seq<Value>, v: Value, after: seq<Value>, id: nat)
    requires v.kind == INSERT_SCD && IdOf(md5, v) == id
    ensures FoldOf(md5, before + [v] + after, id) == FoldFrom(md5, v, after, id)
  {
    var records := before + [v] + after;
    if after == [] {
      assert records[..|records| - 1] == before;
    } else {
      var shorter := after[..|after| - 1];
      InsertForgetsThePast(md5, before, v, shorter, id);
      assert records[..|records| - 1] == before + [v] + shorter;
    }
  }

  // ----- what a fold holds, property by property

  /** The i-th record belongs to the id and says something: it is of a known kind. */
  ghost predicate Counts(md5: string -> nat, records: seq<Value>, id: nat, i: int) {
    0 <= i < |records| && IdOf(md5, records[i]) == id && records[i].kind != NOT_SCD
  }

  /** It counts, and no insert record of the id comes after it. */
  ghost predicate Lasts(md5: string -> nat, records: seq<Value>, id: nat, i: int) {
    && Counts(md5, records, id, i)
    && forall j :: i < j && Counts(md5, records, id, j) ==> records[j].kind != INSERT_SCD
  }

  /** The property has the value of the last lasting record that carries it. */
  ghost predicate LastToSet(md5: string -> nat, records: seq<Value>, id: nat, i: int, property: string) {
    && Lasts(md5, records, id, i) && property in records[i].doc
    && forall j :: i < j && Counts(md5, records, id, j) ==> property !in records[j].doc
  }

  predicate SaysSomething(md5: string -> nat, v: Value, id: nat) {
    IdOf(md5, v) == id && v.kind != NOT_SCD
  }

  lemma CountsOneMore(md5: string -> nat, records: seq<Value>, id: nat, last: Value, i: int)
    ensures Counts(md5, records + [last], id, i) <==>
      Counts(md5, records, id, i) || (i == |records| && SaysSomething(md5, last, id))
    ensures Counts(md5, records, id, i) ==> (records + [last])[i] == records[i]
  {
  }

  /** One record more: an insert record lasts alone, another one with those before it. */
  lemma LastsOneMore(md5: string -> nat, records: seq<Value>, id: nat, last: Value, i: int)
    ensures Lasts(md5, records + [last], id, i) <==>
      if !SaysSomething(md5, last, id) then Lasts(md5, records, id, i)
      else i == |records| || (last.kind != INSERT_SCD && Lasts(md5, records, id, i))
  {
    var more, n := records + [last], |records|;
    assert more[n] == last;
    forall j
      ensures Counts(md5, more, id, j) <==> Counts(md5, records, id, j) || (j == n && SaysSomething(md5, last, id))
      ensures Counts(md5, records, id, j) ==> more[j] == records[j]
    {
      CountsOneMore(md5, records, id, last, j);
    }
    hide SaysSomething;
    if SaysSomething(md5, last, id) {
      assert Counts(md5, more, id, n);
    }
  }

  lemma LastToSetOneMore(md5: string -> nat, records: seq<Value>, id: nat, last: Value, i: int, property: string)
    ensures LastToSet(md5, records + [last], id, i, property) <==>
      if !SaysSomething(md5, last, id) then LastToSet(md5, records, id, i, property)
      else if property in last.doc then i == |records|
      else last.kind != INSERT_SCD && LastToSet(md5, records, id, i, property)
  {
    var more, n := records + [last], |records|;
    assert more[n] == last;
    forall j
      ensures Counts(md5, more, id, j) <==> Counts(md5, records, id, j) || (j == n && SaysSomething(md5, last, id))
      ensures Counts(md5, records, id, j) ==> more[j] == records[j]
    {
      CountsOneMore(md5, records, id, last, j);
    }
    LastsOneMore(md5, records, id, last, i);
    hide SaysSomething, Counts;
    if SaysSomething(md5, last, id) {
      assert Counts(md5, more, id, n);
      LastCounts(md5, more, id, i);
    } else {
      LastCounts(md5, records, id, i);
    }
    LastCounts(md5, records, id, i);
  }

  lemma LastCounts(md5: string -> nat, records: seq<Value>, id: nat, i: int)
    ensures Lasts(md5, records, id, i) ==> Counts(md5, records, id, i) && 0 <= i < |records|
  {
  }

  lemma FoldOneStep(md5: string -> nat, front: seq<Value>, last: Value, id: nat)
    ensures var before, after := FoldOf(md5, front, id), FoldOf(md5, front + [last], id);
      && (!SaysSomething(md5, last, id) ==> after == before)
      && (SaysSomething(md5, last, id) ==> after.doc == if last.kind == INSERT_SCD then last.doc else before.doc + last.doc)
      && (SaysSomething(md5, last, id) ==>
           after.kind == if last.kind == INSERT_SCD || (before.kind == INSERT_SCD && last.kind != DELETE_SCD) then INSERT_SCD else last.kind)
  {
    assert (front + [last])[..|front|] == front;
  }

  /** The fold has exactly the properties of the id's records from its last insert record on - from the first
      when there is none - each with the value the last of them gives it. */
  lemma {:induction false} FoldHasLastValues(md5: string -> nat, records: seq<Value>, id: nat, property: string)
    ensures var doc := FoldOf(md5, records, id).doc;
      && (property in doc <==> exists i :: LastToSet(md5, records, id, i, property))
      && forall i :: LastToSet(md5, records, id, i, property) ==> property in doc && doc[property] == records[i].doc[property]
  {
    if records == [] {
      assert forall i :: !Counts(md5, records, id, i);
    } else {
      var n, front, last := |records| - 1, records[..|records| - 1], records[|records| - 1];
      assert records == front + [last];
      hide FoldOf, SaysSomething, LastToSet;
      FoldHasLastValues(md5, front, id, property);
      FoldOneStep(md5, front, last, id);
      forall i
        ensures LastToSet(md5, records, id, i, property) <==>
          if !SaysSomething(md5, last, id) then LastToSet(md5, front, id, i, property)
          else if property in last.doc then i == n
          else last.kind != INSERT_SCD && LastToSet(md5, front, id, i, property)
      {
        LastToSetOneMore(md5, front, id, last, i, property);
      }
      forall i
        ensures LastToSet(md5, front, id, i, property) ==> 0 <= i < n && records[i] == front[i] && property in front[i].doc
      {
        SetterHasProperty(md5, front, id, i, property);
      }
      if SaysSomething(md5, last, id) && property in last.doc {
        assert LastToSet(md5, records, id, n, property);
      }
    }
  }

  lemma SetterHasProperty(md5: string -> nat, records: seq<Value>, id: nat, i: int, property: string)
    ensures LastToSet(md5, records, id, i, property) ==> 0 <= i < |records| && property in records[i].doc
  {
  }

  /** Some record lasts with the property exactly when one is the last to set it. */
  lemma {:induction false} SomeoneIsLast(md5: string -> nat, records: seq<Value>, id: nat, property: string)
    ensures (exists i :: LastToSet(md5, records, id, i, property)) <==>
            exists i :: Lasts(md5, records, id, i) && property in records[i].doc
  {
    if i :| Lasts(md5, records, id, i) && property in records[i].doc {
      var j := LaterSetter(md5, records, id, i, property);
    }
  }

  lemma {:induction false} LaterSetter(md5: string -> nat, records: seq<Value>, id: nat, i: int, property: string) returns (j: int)
    requires Lasts(md5, records, id, i) && property in records[i].doc
    ensures LastToSet(md5, records, id, j, property)
    decreases |records| - i
  {
    j := i;
    if k :| i < k && Counts(md5, records, id, k) && property in records[k].doc {
      j := LaterSetter(md5, records, id, k, property);
    }
  }

  /** An insert record counts, and no delete record after it. */
  ghost predicate Inserted(md5: string -> nat, records: seq<Value>, id: nat) {
    exists i :: Counts(md5, records, id, i) && records[i].kind == INSERT_SCD
      && forall j :: i < j && Counts(md5, records, id, j) ==> records[j].kind != DELETE_SCD
  }

  ghost predicate IsLastRecord(md5: string -> nat, records: seq<Value>, id: nat, i: int) {
    Counts(md5, records, id, i) && forall j :: i < j ==> !Counts(md5, records, id, j)
  }

  lemma InsertedOneMore(md5: string -> nat, records: seq<Value>, id: nat, last: Value)
    ensures Inserted(md5, records + [last], id) <==>
      if !SaysSomething(md5, last, id) then Inserted(md5, records, id)
      else last.kind == INSERT_SCD || (last.kind != DELETE_SCD && Inserted(md5, records, id))
  {
    var more, n := records + [last], |records|;
    assert more[n] == last;
    forall j
      ensures Counts(md5, more, id, j) <==> Counts(md5, records, id, j) || (j == n && SaysSomething(md5, last, id))
      ensures Counts(md5, records, id, j) ==> more[j] == records[j] && 0 <= j < n
    {
      CountsOneMore(md5, records, id, last, j);
    }
    hide SaysSomething, Counts;
    if SaysSomething(md5, last, id) {
      assert Counts(md5, more, id, n);
    }
    if Inserted(md5, records, id) && (SaysSomething(md5, last, id) ==> last.kind != DELETE_SCD) {
      var i :| Counts(md5, records, id, i) && records[i].kind == INSERT_SCD
        && forall j :: i < j && Counts(md5, records, id, j) ==> records[j].kind != DELETE_SCD;
      assert Counts(md5, more, id, i) && more[i].kind == INSERT_SCD;
    }
  }

  lemma LastRecordIsLast(md5: string -> nat, records: seq<Value>, id: nat, last: Value, i: int)
    ensures IsLastRecord(md5, records + [last], id, i) <==>
      if SaysSomething(md5, last, id) then i == |records| else IsLastRecord(md5, records, id, i)
  {
    var more, n := records + [last], |records|;
    assert more[n] == last;
    forall j
      ensures Counts(md5, more, id, j) <==> Counts(md5, records, id, j) || (j == n && SaysSomething(md5, last, id))
      ensures Counts(md5, records, id, j) ==> 0 <= j < n
    {
      CountsOneMore(md5, records, id, last, j);
    }
    hide SaysSomething, Counts;
    if SaysSomething(md5, last, id) {
      assert Counts(md5, more, id, n);
    }
  }

  /** The fold is an insert exactly when an insert record came and no delete record after it; else it is of the
      kind of the last record. Without any record it is of none. */
  ghost predicate KindIsRight(md5: string -> nat, records: seq<Value>, id: nat, kind: ScdType) {
    && (kind == INSERT_SCD <==> Inserted(md5, records, id))
    && (forall i :: IsLastRecord(md5, records, id, i) && !Inserted(md5, records, id) ==> kind == records[i].kind)
    && ((forall i :: !Counts(md5, records, id, i)) ==> kind == NOT_SCD)
  }

  lemma KindStep(md5: string -> nat, records: seq<Value>, id: nat, last: Value, before: ScdType, after: ScdType)
    requires KindIsRight(md5, records, id, before)
    requires !SaysSomething(md5, last, id) ==> after == before
    requires SaysSomething(md5, last, id) ==>
      after == if last.kind == INSERT_SCD || (before == INSERT_SCD && last.kind != DELETE_SCD) then INSERT_SCD else last.kind
    ensures KindIsRight(md5, records + [last], id, after)
  {
    var more, n := records + [last], |records|;
    assert more[n] == last;
    InsertedOneMore(md5, records, id, last);
    forall i
      ensures IsLastRecord(md5, more, id, i) <==>
        if SaysSomething(md5, last, id) then i == n else IsLastRecord(md5, records, id, i)
      ensures IsLastRecord(md5, records, id, i) ==> more[i] == records[i]
    {
      LastRecordIsLast(md5, records, id, last, i);
    }
    forall i
      ensures Counts(md5, more, id, i) <==> Counts(md5, records, id, i) || (i == n && SaysSomething(md5, last, id))
    {
      CountsOneMore(md5, records, id, last, i);
    }
    hide Inserted, Counts, SaysSomething;
    if SaysSomething(md5, last, id) {
      assert Counts(md5, more, id, n);
    }
  }

  lemma {:induction false} FoldKind(md5: string -> nat, records: seq<Value>, id: nat)
    ensures KindIsRight(md5, records, id, FoldOf(md5, records, id).kind)
  {
    if records == [] {
      assert forall i :: !Counts(md5, records, id, i);
    } else {
      hide FoldOf, SaysSomething, KindIsRight;
      var front, last := records[..|records| - 1], records[|records| - 1];
      assert records == front + [last];
      FoldKind(md5, front, id);
      FoldOneStep(md5, front, last, id);
      KindStep(md5, front, id, last, FoldOf(md5, front, id).kind, FoldOf(md5, records, id).kind);
    }
  }
}
