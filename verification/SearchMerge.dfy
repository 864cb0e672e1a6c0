/** Merging the workers' ranked lists into the first documents of their sorted union. */
module SearchMerge {
  import opened Arithmetic
  import opened Orders
  import opened Sequences
  import opened MergeComparator

  /** What the merge reads of one worker's result. */
  datatype WorkerResult = WorkerResult(
    id: nat, docs: seq<nat>, columns: seq<Column>,
    rankScores: seq<real>, customScores: seq<real>, geoDistances: seq<real>)

  /** Score lists follow the documents; a worker may have none of a kind. */
  ghost predicate Shaped(w: WorkerResult) {
    && |w.rankScores| == |w.docs|
    && (w.customScores == [] || |w.customScores| == |w.docs|)
    && (w.geoDistances == [] || |w.geoDistances| == |w.docs|)
    && forall c :: 0 <= c < |w.columns| ==> |w.columns[c].values| >= |w.docs|
  }

  ghost predicate AllShaped(ws: seq<WorkerResult>) {
    forall w :: 0 <= w < |ws| ==> Shaped(ws[w])
  }

  /** A document as (index of its worker, index in that worker's list). */
  datatype Position = At(worker: nat, index: nat)

  predicate IsPosition(ws: seq<WorkerResult>, p: Position) {
    p.worker < |ws| && p.index < |ws[p.worker].docs|
  }

  function EntryAt(ws: seq<WorkerResult>, p: Position): Entry
    requires IsPosition(ws, p)
  {
    Entry(ws[p.worker].columns, p.index, WDocId(ws[p.worker].id, ws[p.worker].docs[p.index]))
  }

  ghost predicate Ahead(ws: seq<WorkerResult>, newer: (WDocId, WDocId) -> bool, p: Position, q: Position)
    requires AllShaped(ws)
  {
    IsPosition(ws, p) && IsPosition(ws, q) && RanksBefore(EntryAt(ws, p), EntryAt(ws, q), newer)
  }

  /** The ranking is a strict total order on the workers' documents. */
  ghost predicate Ranked(ws: seq<WorkerResult>, newer: (WDocId, WDocId) -> bool)
    requires AllShaped(ws)
  {
    && (forall p, q :: Ahead(ws, newer, p, q) ==> !Ahead(ws, newer, q, p))
    && (forall p, q :: IsPosition(ws, p) && IsPosition(ws, q) && p != q ==> Ahead(ws, newer, p, q) || Ahead(ws, newer, q, p))
    && (forall p, q, r :: Ahead(ws, newer, p, q) && Ahead(ws, newer, q, r) ==> Ahead(ws, newer, p, r))
  }

  ghost predicate ListsSorted(ws: seq<WorkerResult>, newer: (WDocId, WDocId) -> bool)
    requires AllShaped(ws)
  {
    forall w, i, j :: 0 <= w < |ws| && 0 <= i < j < |ws[w].docs| ==> Ahead(ws, newer, At(w, i), At(w, j))
  }

  /** Workers asked for the same sort properties, with distinct ids and distinct documents and no two
      different floats so close that they tie, are ranked. */
  lemma ComparableWorkersAreRanked(ws: seq<WorkerResult>, newer: (WDocId, WDocId) -> bool)
    requires AllShaped(ws) && StrictTotal(newer)
    requires forall p, q :: IsPosition(ws, p) && IsPosition(ws, q) ==>
      SameSchema(EntryAt(ws, p), EntryAt(ws, q)) && Separated(EntryAt(ws, p), EntryAt(ws, q))
    requires forall v, w :: 0 <= v < w < |ws| ==> ws[v].id != ws[w].id
    requires forall w :: 0 <= w < |ws| ==> Distinct(ws[w].docs)
    ensures Ranked(ws, newer)
  {
    forall p, q, r
      ensures Ahead(ws, newer, p, q) ==> !Ahead(ws, newer, q, p)
      ensures IsPosition(ws, p) && IsPosition(ws, q) && p != q ==> Ahead(ws, newer, p, q) || Ahead(ws, newer, q, p)
      ensures Ahead(ws, newer, p, q) && Ahead(ws, newer, q, r) ==> Ahead(ws, newer, p, r)
    {
      if IsPosition(ws, p) && IsPosition(ws, q) {
        RankingIsAnOrder(EntryAt(ws, p), EntryAt(ws, q), EntryAt(ws, if IsPosition(ws, r) then r else p), newer);
      }
    }
  }

  // ----- counting how much has been taken

  ghost function Sum(s: seq<nat>): nat {
    if s == [] then 0 else Sum(s[..|s| - 1]) + s[|s| - 1]
  }

  ghost function Sizes(ws: seq<WorkerResult>): seq<nat> {
    seq(|ws|, w requires 0 <= w < |ws| => |ws[w].docs|)
  }

  function TotalDocs(ws: seq<WorkerResult>): (n: nat)
    ensures n == Sum(Sizes(ws))
  {
    if ws == [] then
      0
    else
      assert Sizes(ws)[..|ws| - 1] == Sizes(ws[..|ws| - 1]);
      TotalDocs(ws[..|ws| - 1]) + |ws[|ws| - 1].docs|
  }

  lemma {:induction false} SumPart(s: seq<nat>, w: nat)
    requires w < |s|
    ensures s[w] <= Sum(s)
  {
    if w < |s| - 1 {
      SumPart(s[..|s| - 1], w);
    }
  }

  lemma {:induction false} SumIncrement(s: seq<nat>, w: nat)
    requires w < |s|
    ensures Sum(s[w := s[w] + 1]) == Sum(s) + 1
  {
    var t := s[w := s[w] + 1];
    if w < |s| - 1 {
      SumIncrement(s[..|s| - 1], w);
      assert t[..|s| - 1] == s[..|s| - 1][w := s[w] + 1];
    } else {
      assert t[..|s| - 1] == s[..|s| - 1];
    }
  }

  lemma {:induction false} SumBelow(s: seq<nat>, bound: seq<nat>)
    requires |s| == |bound| && forall w :: 0 <= w < |s| ==> s[w] <= bound[w]
    ensures Sum(s) <= Sum(bound)
    ensures Sum(s) < Sum(bound) ==> exists w :: 0 <= w < |s| && s[w] < bound[w]
  {
    if s != [] {
      SumBelow(s[..|s| - 1], bound[..|s| - 1]);
    }
  }

  lemma {:induction false} SumZero(s: seq<nat>)
    requires forall w :: 0 <= w < |s| ==> s[w] == 0
    ensures Sum(s) == 0
  {
    if s != [] {
      SumZero(s[..|s| - 1]);
    }
  }

  // ----- the merge

  function RoundDown(n: nat, k: nat): nat {
    if k == 0 then n else n - n % k
  }

  /** How many documents the merged window gets. */
  function TopKCount(ws: seq<WorkerResult>, start: nat, topKNum: nat): nat {
    var topKStart := RoundDown(start, topKNum);
    Min(topKNum, if topKStart < TotalDocs(ws) then TotalDocs(ws) - topKStart else 0)
  }

  datatype Merged = Merged(
    docs: seq<nat>, workerIds: seq<nat>,
    rankScores: seq<real>, customScores: seq<real>, geoDistances: seq<real>,
    offsets: seq<Position>)

  /** Before merging, every list has its final size. */
  function Blank(k: nat, hasCustom: bool, hasGeo: bool): Merged {
    Merged(Repeat(0, k), Repeat(0, k), Repeat(0.0, k),
           if hasCustom then Repeat(0.0, k) else [], if hasGeo then Repeat(0.0, k) else [], Repeat(At(0, 0), k))
  }

  ghost predicate HasCustom(ws: seq<WorkerResult>) {
    exists w :: 0 <= w < |ws| && ws[w].customScores != []
  }

  ghost predicate HasGeo(ws: seq<WorkerResult>) {
    exists w :: 0 <= w < |ws| && ws[w].geoDistances != []
  }

  /** The first n entries of every list belong to the document at the same offset. */
  ghost predicate Aligned(ws: seq<WorkerResult>, m: Merged, n: nat, k: nat)
    requires AllShaped(ws)
  {
    && n <= k == |m.docs| == |m.workerIds| == |m.rankScores| == |m.offsets|
    && |m.customScores| == (if HasCustom(ws) then k else 0)
    && |m.geoDistances| == (if HasGeo(ws) then k else 0)
    && forall c :: 0 <= c < n ==>
         var p := m.offsets[c];
         && IsPosition(ws, p)
         && m.docs[c] == ws[p.worker].docs[p.index] && m.workerIds[c] == ws[p.worker].id
         && m.rankScores[c] == ws[p.worker].rankScores[p.index]
         && (HasCustom(ws) ==> m.customScores[c] == if ws[p.worker].customScores == [] then 0.0 else ws[p.worker].customScores[p.index])
         && (HasGeo(ws) ==> m.geoDistances[c] == if ws[p.worker].geoDistances == [] then 0.0 else ws[p.worker].geoDistances[p.index])
  }

  /** From each worker a prefix of its list is taken, each document once. */
  ghost predicate TakesPrefixes(ws: seq<WorkerResult>, taken: seq<Position>, iter: seq<nat>) {
    && |iter| == |ws|
    && (forall w :: 0 <= w < |ws| ==> iter[w] <= |ws[w].docs|)
    && (forall p :: p in taken <==> p.worker < |ws| && p.index < iter[p.worker])
    && Distinct(taken)
    && Sum(iter) == |taken|
    && forall c :: 0 <= c < |taken| ==> taken[c].index <= c
  }

  /** The taken documents stand in ranking order, ahead of every document not taken. */
  ghost predicate TakesTheFirst(ws: seq<WorkerResult>, newer: (WDocId, WDocId) -> bool, taken: seq<Position>, iter: seq<nat>)
    requires AllShaped(ws) && |iter| == |ws|
  {
    && (forall a, b :: 0 <= a < b < |taken| ==> Ahead(ws, newer, taken[a], taken[b]))
    && (forall a, p :: 0 <= a < |taken| && IsPosition(ws, p) && p.index >= iter[p.worker] ==> Ahead(ws, newer, taken[a], p))
  }

  method FindFirst(ws: seq<WorkerResult>, newer: (WDocId, WDocId) -> bool, iter: array<nat>) returns (maxi: Option<nat>)
    requires AllShaped(ws) && iter.Length == |ws|
    ensures maxi == None ==> forall w :: 0 <= w < |ws| ==> iter[w] >= |ws[w].docs|
    ensures maxi.Some? ==> maxi.value < |ws| && iter[maxi.value] < |ws[maxi.value].docs|
    ensures maxi.Some? && Ranked(ws, newer) ==>
      forall w :: 0 <= w < |ws| && w != maxi.value && iter[w] < |ws[w].docs| ==>
        Ahead(ws, newer, At(maxi.value, iter[maxi.value]), At(w, iter[w]))
  {
    maxi := None;
    for i := 0 to |ws|
      invariant maxi == None ==> forall w :: 0 <= w < i ==> iter[w] >= |ws[w].docs|
      invariant maxi.Some? ==> maxi.value < i && iter[maxi.value] < |ws[maxi.value].docs|
      invariant maxi.Some? && Ranked(ws, newer) ==>
        forall w :: 0 <= w < i && w != maxi.value && iter[w] < |ws[w].docs| ==>
          Ahead(ws, newer, At(maxi.value, iter[maxi.value]), At(w, iter[w]))
    {
      if iter[i] >= |ws[i].docs| {
        continue;
      }
      if maxi == None {
        maxi := Some(i);
        continue;
      }
      var greater := GreaterThan(EntryAt(ws, At(i, iter[i])), EntryAt(ws, At(maxi.value, iter[maxi.value])), newer);
      assert greater <==> Ahead(ws, newer, At(i, iter[i]), At(maxi.value, iter[maxi.value]));
      if greater {
        maxi := Some(i);
      }
    }
  }

  lemma TakeOneMore(ws: seq<WorkerResult>, newer: (WDocId, WDocId) -> bool, taken: seq<Position>, iter: seq<nat>, w: nat)
    requires AllShaped(ws) && TakesPrefixes(ws, taken, iter) && w < |ws| && iter[w] < |ws[w].docs|
    ensures TakesPrefixes(ws, taken + [At(w, iter[w])], iter[w := iter[w] + 1])
  {
    SumIncrement(iter, w);
    SumPart(iter, w);
    var iter' := iter[w := iter[w] + 1];
    forall p: Position
      ensures p in taken + [At(w, iter[w])] <==> p.worker < |ws| && p.index < iter'[p.worker]
    {
      assert p in taken <==> p.worker < |ws| && p.index < iter[p.worker];
    }
  }

  lemma FirstOfHeadsIsFirst(ws: seq<WorkerResult>, newer: (WDocId, WDocId) -> bool, taken: seq<Position>, iter: seq<nat>, w: nat)
    requires AllShaped(ws) && TakesPrefixes(ws, taken, iter) && w < |ws| && iter[w] < |ws[w].docs|
    requires Ranked(ws, newer) && ListsSorted(ws, newer) && TakesTheFirst(ws, newer, taken, iter)
    requires forall v :: 0 <= v < |ws| && v != w && iter[v] < |ws[v].docs| ==> Ahead(ws, newer, At(w, iter[w]), At(v, iter[v]))
    ensures TakesTheFirst(ws, newer, taken + [At(w, iter[w])], iter[w := iter[w] + 1])
  {
    var pick, iter' := At(w, iter[w]), iter[w := iter[w] + 1];
    forall p | IsPosition(ws, p) && p.index >= iter'[p.worker]
      ensures Ahead(ws, newer, pick, p)
    {
      if p.worker == w {
        assert Ahead(ws, newer, At(w, iter[w]), At(w, p.index));
      } else {
        assert Ahead(ws, newer, pick, At(p.worker, iter[p.worker]));
        if p.index > iter[p.worker] {
          assert Ahead(ws, newer, At(p.worker, iter[p.worker]), At(p.worker, p.index));
        }
      }
    }
  }

  /** Copies one worker's document, its scores and its offset into place c of the merged result. */
  function Put(ws: seq<WorkerResult>, m: Merged, c: nat, p: Position): Merged
    requires IsPosition(ws, p) && p.index < |ws[p.worker].rankScores|
    requires ws[p.worker].customScores == [] || (p.index < |ws[p.worker].customScores| && c < |m.customScores|)
    requires ws[p.worker].geoDistances == [] || (p.index < |ws[p.worker].geoDistances| && c < |m.geoDistances|)
    requires c < |m.docs| && c < |m.workerIds| && c < |m.rankScores| && c < |m.offsets|
  {
    var w := ws[p.worker];
    Merged(m.docs[c := w.docs[p.index]], m.workerIds[c := w.id], m.rankScores[c := w.rankScores[p.index]],
           if w.customScores != [] then m.customScores[c := w.customScores[p.index]] else m.customScores,
           if w.geoDistances != [] then m.geoDistances[c := w.geoDistances[p.index]] else m.geoDistances,
           m.offsets[c := p])
  }

  lemma PutAligns(ws: seq<WorkerResult>, m: Merged, c: nat, k: nat, p: Position)
    requires AllShaped(ws) && Aligned(ws, m, c, k) && c < k && IsPosition(ws, p)
    requires Untouched(m, c)
    ensures Shaped(ws[p.worker])
    ensures ws[p.worker].customScores != [] ==> |m.customScores| == k
    ensures ws[p.worker].geoDistances != [] ==> |m.geoDistances| == k
    ensures Aligned(ws, Put(ws, m, c, p), c + 1, k) && Untouched(Put(ws, m, c, p), c + 1)
  {
  }

  /** From place n on the optional lists still hold their initial zeros. */
  ghost predicate Untouched(m: Merged, n: nat) {
    && (forall c :: n <= c < |m.customScores| ==> m.customScores[c] == 0.0)
    && (forall c :: n <= c < |m.geoDistances| ==> m.geoDistances[c] == 0.0)
  }

  lemma BlankIsAligned(ws: seq<WorkerResult>, newer: (WDocId, WDocId) -> bool, k: nat, iter: seq<nat>)
    requires AllShaped(ws) && |iter| == |ws| && forall w :: 0 <= w < |ws| ==> iter[w] == 0
    ensures Aligned(ws, Blank(k, HasCustom(ws), HasGeo(ws)), 0, k) && Untouched(Blank(k, HasCustom(ws), HasGeo(ws)), 0)
    ensures TakesPrefixes(ws, [], iter) && TakesTheFirst(ws, newer, [], iter)
  {
    SumZero(iter);
  }

  /** What the first n rounds of the merge have done. */
  ghost predicate Progress(ws: seq<WorkerResult>, newer: (WDocId, WDocId) -> bool, m: Merged, iter: seq<nat>, n: nat, k: nat)
    requires AllShaped(ws)
  {
    && Aligned(ws, m, n, k) && Untouched(m, n)
    && TakesPrefixes(ws, m.offsets[..n], iter)
    && (Ranked(ws, newer) && ListsSorted(ws, newer) ==> TakesTheFirst(ws, newer, m.offsets[..n], iter))
  }

  lemma ProgressStarts(ws: seq<WorkerResult>, newer: (WDocId, WDocId) -> bool, k: nat, iter: seq<nat>)
    requires AllShaped(ws) && |iter| == |ws| && forall w :: 0 <= w < |ws| ==> iter[w] == 0
    ensures Progress(ws, newer, Blank(k, HasCustom(ws), HasGeo(ws)), iter, 0, k)
  {
    BlankIsAligned(ws, newer, k, iter);
    assert Blank(k, HasCustom(ws), HasGeo(ws)).offsets[..0] == [];
  }

  /** Fewer documents taken than the window holds: some worker has one left. */
  lemma NotExhausted(ws: seq<WorkerResult>, newer: (WDocId, WDocId) -> bool, m: Merged, iter: seq<nat>, n: nat,
                     start: nat, topKNum: nat)
    requires AllShaped(ws) && n < TopKCount(ws, start, topKNum)
    requires Progress(ws, newer, m, iter, n, TopKCount(ws, start, topKNum))
    ensures |iter| == |ws| && exists w :: 0 <= w < |ws| && iter[w] < |ws[w].docs|
  {
    SumBelow(iter, Sizes(ws));
  }

  lemma MergeStep(ws: seq<WorkerResult>, newer: (WDocId, WDocId) -> bool, m: Merged, iter: seq<nat>, n: nat, k: nat, w: nat)
    requires AllShaped(ws) && n < k && Progress(ws, newer, m, iter, n, k)
    requires |iter| == |ws| && w < |ws| && iter[w] < |ws[w].docs|
    requires Ranked(ws, newer) ==>
      forall v :: 0 <= v < |ws| && v != w && iter[v] < |ws[v].docs| ==> Ahead(ws, newer, At(w, iter[w]), At(v, iter[v]))
    ensures Shaped(ws[w])
    ensures ws[w].customScores != [] ==> |m.customScores| == k
    ensures ws[w].geoDistances != [] ==> |m.geoDistances| == k
    ensures k == |m.docs| == |m.workerIds| == |m.rankScores| == |m.offsets|
    ensures Progress(ws, newer, Put(ws, m, n, At(w, iter[w])), iter[w := iter[w] + 1], n + 1, k)
  {
    hide Ranked, ListsSorted, TakesTheFirst, TakesPrefixes;
    var taken := m.offsets[..n];
    TakeOneMore(ws, newer, taken, iter, w);
    if Ranked(ws, newer) && ListsSorted(ws, newer) {
      FirstOfHeadsIsFirst(ws, newer, taken, iter, w);
    }
    PutAligns(ws, m, n, k, At(w, iter[w]));
    assert Put(ws, m, n, At(w, iter[w])).offsets[..n + 1] == taken + [At(w, iter[w])];
  }

  method ScoreKinds(ws: seq<WorkerResult>) returns (hasCustom: bool, hasGeo: bool)
    ensures hasCustom == HasCustom(ws) && hasGeo == HasGeo(ws)
  {
    hasCustom, hasGeo := false, false;
    for i := 0 to |ws|
      invariant hasCustom <==> exists w :: 0 <= w < i && ws[w].customScores != []
      invariant hasGeo <==> exists w :: 0 <= w < i && ws[w].geoDistances != []
    {
      hasCustom := hasCustom || ws[i].customScores != [];
      hasGeo := hasGeo || ws[i].geoDistances != [];
    }
  }

  method MergeTopK(ws: seq<WorkerResult>, start: nat, topKNum: nat, newer: (WDocId, WDocId) -> bool)
    returns (m: Merged, ghost iters: seq<nat>)
    requires AllShaped(ws)
    ensures Aligned(ws, m, |m.offsets|, TopKCount(ws, start, topKNum))
    ensures |m.offsets| == TopKCount(ws, start, topKNum)
    ensures |m.docs| <= topKNum
    ensures start < topKNum && |m.docs| < topKNum ==>
      |iters| == |ws| && forall w :: 0 <= w < |ws| ==> iters[w] == |ws[w].docs|
    ensures TakesPrefixes(ws, m.offsets, iters)
    ensures Ranked(ws, newer) && ListsSorted(ws, newer) ==> TakesTheFirst(ws, newer, m.offsets, iters)
  {
    hide Progress, TopKCount, Ranked;
    var k := TopKCount(ws, start, topKNum);
    var hasCustom, hasGeo := ScoreKinds(ws);
    m := Blank(k, hasCustom, hasGeo);
    var iter := new nat[|ws|](_ => 0);
    ProgressStarts(ws, newer, k, iter[..]);
    for cnt := 0 to k
      invariant Progress(ws, newer, m, iter[..], cnt, k)
    {
      ghost var before := iter[..];
      NotExhausted(ws, newer, m, before, cnt, start, topKNum);
      var maxi := FindFirst(ws, newer, iter);
      if maxi == None {
        assert false;
        break;
      }
      var w := maxi.value;
      MergeStep(ws, newer, m, before, cnt, k, w);
      m := Put(ws, m, cnt, At(w, iter[w]));
      iter[w] := iter[w] + 1;
      assert iter[..] == before[w := before[w] + 1];
    }
    iters := iter[..];
    MergeFinished(ws, newer, m, iters, k);
    FirstWindow(ws, start, topKNum, m.offsets, iters);
  }

  /** A first window that is not full has used up all lists. */
  lemma FirstWindow(ws: seq<WorkerResult>, start: nat, topKNum: nat, taken: seq<Position>, iter: seq<nat>)
    requires TakesPrefixes(ws, taken, iter) && |taken| == TopKCount(ws, start, topKNum)
    ensures |taken| <= topKNum
    ensures start < topKNum && |taken| < topKNum ==> forall w :: 0 <= w < |ws| ==> iter[w] == |ws[w].docs|
  {
    hide RoundDown, TakesPrefixes;
    if start < topKNum {
      SameBlock(start, 0, topKNum);
    }
    AllTaken(ws, taken, iter);
  }

  lemma MergeFinished(ws: seq<WorkerResult>, newer: (WDocId, WDocId) -> bool, m: Merged, iter: seq<nat>, k: nat)
    requires AllShaped(ws) && Progress(ws, newer, m, iter, k, k)
    ensures |m.offsets| == k && Aligned(ws, m, k, k) && TakesPrefixes(ws, m.offsets, iter)
    ensures Ranked(ws, newer) && ListsSorted(ws, newer) ==> TakesTheFirst(ws, newer, m.offsets, iter)
  {
    assert m.offsets[..k] == m.offsets;
  }

  // ----- how many documents the window gets

  /** All documents of all workers, each once, in whatever order. */
  ghost predicate AllPositions(ws: seq<WorkerResult>, all: seq<Position>) {
    Distinct(all) && forall p :: p in all <==> IsPosition(ws, p)
  }

  lemma {:induction false} ListPositions(ws: seq<WorkerResult>) returns (all: seq<Position>)
    ensures AllPositions(ws, all) && |all| == TotalDocs(ws)
  {
    if ws == [] {
      all := [];
    } else {
      var n := |ws| - 1;
      var front := ListPositions(ws[..n]);
      var last := seq(|ws[n].docs|, i requires 0 <= i < |ws[n].docs| => At(n, i));
      all := front + last;
      forall p: Position
        ensures p in all <==> IsPosition(ws, p)
      {
        assert p in last <==> p.worker == n && p.index < |ws[n].docs| by {
          if p.worker == n && p.index < |ws[n].docs| {
            assert last[p.index] == p;
          }
        }
        assert p in front <==> IsPosition(ws[..n], p);
      }
      DistinctAppend(front, last);
    }
  }

  lemma CountsPositions(ws: seq<WorkerResult>, all: seq<Position>)
    requires AllPositions(ws, all)
    ensures |all| == TotalDocs(ws)
  {
    var listed := ListPositions(ws);
    DistinctCardinality(all);
    DistinctCardinality(listed);
    assert Elements(all) == Elements(listed);
  }

  /** The window starts at the last multiple of its size up to the wanted start, and gets all documents from
      there on, or as many as it has places. */
  lemma WindowSize(ws: seq<WorkerResult>, start: nat, topKNum: nat, window: nat, all: seq<Position>)
    requires AllPositions(ws, all)
    requires topKNum > 0 && window % topKNum == 0 && window <= start < window + topKNum
    ensures TopKCount(ws, start, topKNum) ==
      if |all| <= window then 0 else if |all| - window <= topKNum then |all| - window else topKNum
  {
    CountsPositions(ws, all);
    SameBlock(start, window, topKNum);
  }

  lemma SameBlock(start: nat, window: nat, k: nat)
    requires k > 0 && window % k == 0 && window <= start < window + k
    ensures RoundDown(start, k) == window
  {
    var q := window / k;
    assert window == q * k;
    ModuloInBlock(start, q, k);
  }

  /** Taking fewer than all, some list is not used up; taking all, every list is. */
  lemma AllTaken(ws: seq<WorkerResult>, taken: seq<Position>, iter: seq<nat>)
    requires TakesPrefixes(ws, taken, iter)
    ensures |taken| == TotalDocs(ws) <==> forall w :: 0 <= w < |ws| ==> iter[w] == |ws[w].docs|
  {
    SumBelow(iter, Sizes(ws));
    if |taken| == TotalDocs(ws) {
      SumsEqual(iter, Sizes(ws));
    } else {
      assert exists w :: 0 <= w < |ws| && iter[w] < Sizes(ws)[w];
    }
  }

  lemma {:induction false} SumsEqual(s: seq<nat>, bound: seq<nat>)
    requires |s| == |bound| && Sum(s) == Sum(bound) && forall w :: 0 <= w < |s| ==> s[w] <= bound[w]
    ensures forall w :: 0 <= w < |s| ==> s[w] == bound[w]
  {
    if s != [] {
      SumBelow(s[..|s| - 1], bound[..|s| - 1]);
      SumsEqual(s[..|s| - 1], bound[..|s| - 1]);
    }
  }

  // ----- the merged window is the beginning of the sorted union

  /** All documents of all workers, each once, in ranking order. */
  ghost predicate SortedUnion(ws: seq<WorkerResult>, newer: (WDocId, WDocId) -> bool, all: seq<Position>)
    requires AllShaped(ws)
  {
    && (forall p :: p in all <==> IsPosition(ws, p))
    && (forall a, b :: 0 <= a < b < |all| ==> Ahead(ws, newer, all[a], all[b]))
  }

  lemma UnionNextIsNotBehind(ws: seq<WorkerResult>, newer: (WDocId, WDocId) -> bool,
                             taken: seq<Position>, iter: seq<nat>, all: seq<Position>, c: nat)
    requires AllShaped(ws) && SortedUnion(ws, newer, all) && TakesPrefixes(ws, taken, iter) && c < |taken|
    requires c <= |all| && forall i :: 0 <= i < c ==> taken[i] == all[i]
    ensures c < |all| && (all[c] == taken[c] || Ahead(ws, newer, all[c], taken[c]))
  {
    assert taken[c] in taken;
    assert IsPosition(ws, taken[c]);
    var j :| 0 <= j < |all| && all[j] == taken[c];
  }

  lemma TakenNextIsNotBehind(ws: seq<WorkerResult>, newer: (WDocId, WDocId) -> bool,
                             taken: seq<Position>, iter: seq<nat>, all: seq<Position>, c: nat)
    requires AllShaped(ws) && SortedUnion(ws, newer, all) && TakesPrefixes(ws, taken, iter)
    requires Ranked(ws, newer) && TakesTheFirst(ws, newer, taken, iter)
    requires c < |taken| && c < |all| && forall i :: 0 <= i < c ==> taken[i] == all[i]
    ensures all[c] == taken[c] || Ahead(ws, newer, taken[c], all[c])
  {
    var q := all[c];
    assert q in all;
    if q in taken {
      var a :| 0 <= a < |taken| && taken[a] == q;
      assert a >= c;
    }
  }

  /** Whatever was taken first, with everything else behind it, is the beginning of the sorted union. */
  lemma {:induction false} TakenIsPrefixOfUnion(ws: seq<WorkerResult>, newer: (WDocId, WDocId) -> bool,
                                                taken: seq<Position>, iter: seq<nat>, all: seq<Position>, n: nat)
    requires AllShaped(ws) && Ranked(ws, newer) && SortedUnion(ws, newer, all)
    requires TakesPrefixes(ws, taken, iter) && TakesTheFirst(ws, newer, taken, iter)
    requires n <= |taken|
    ensures n <= |all| && forall c :: 0 <= c < n ==> taken[c] == all[c]
  {
    hide SortedUnion, TakesPrefixes, TakesTheFirst, Ranked, Ahead, AllShaped;
    if n > 0 {
      TakenIsPrefixOfUnion(ws, newer, taken, iter, all, n - 1);
      UnionNextIsNotBehind(ws, newer, taken, iter, all, n - 1);
      TakenNextIsNotBehind(ws, newer, taken, iter, all, n - 1);
      if all[n - 1] != taken[n - 1] {
        NotBothAhead(ws, newer, all[n - 1], taken[n - 1]);
      }
    }
  }

  lemma NotBothAhead(ws: seq<WorkerResult>, newer: (WDocId, WDocId) -> bool, p: Position, q: Position)
    requires AllShaped(ws) && Ranked(ws, newer)
    ensures !(Ahead(ws, newer, p, q) && Ahead(ws, newer, q, p))
  {
  }

  lemma UnionIsDistinct(ws: seq<WorkerResult>, newer: (WDocId, WDocId) -> bool, all: seq<Position>)
    requires AllShaped(ws) && Ranked(ws, newer) && SortedUnion(ws, newer, all)
    ensures AllPositions(ws, all)
  {
    forall a, b | 0 <= a < b < |all|
      ensures all[a] != all[b]
    {
      NotBothAhead(ws, newer, all[a], all[b]);
    }
  }

  /** With sorted lists and a total ranking, the merged documents are exactly the first of the sorted
      union, however that union is produced: as many as there are from the window's start on, up to its size. */
  lemma MergeIsTopOfUnion(ws: seq<WorkerResult>, newer: (WDocId, WDocId) -> bool, taken: seq<Position>, iter: seq<nat>,
                          all: seq<Position>, start: nat, topKNum: nat, window: nat)
    requires AllShaped(ws) && Ranked(ws, newer) && SortedUnion(ws, newer, all)
    requires TakesPrefixes(ws, taken, iter) && TakesTheFirst(ws, newer, taken, iter)
    requires |taken| == TopKCount(ws, start, topKNum)
    requires topKNum > 0 && window % topKNum == 0 && window <= start < window + topKNum
    ensures |taken| == if |all| <= window then 0 else if |all| - window <= topKNum then |all| - window else topKNum
    ensures taken == all[..|taken|]
  {
    TakenIsPrefixOfUnion(ws, newer, taken, iter, all, |taken|);
    hide Ranked, SortedUnion, TopKCount;
    UnionIsDistinct(ws, newer, all);
    WindowSize(ws, start, topKNum, window, all);
  }
}
