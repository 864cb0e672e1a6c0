/** Splitting a result page by worker, and putting the workers' texts back in page order. */
module PageSplit {
  import opened SearchMerge
  import opened Sequences
  import opened ResultPaging

  datatype PagePart = PagePart(docsInPage: seq<nat>, pageOffsets: seq<nat>, count: nat)

  /** The part of a window that is on the page. */
  function OnPage(window: seq<nat>, start: nat, count: nat, topKNum: nat): seq<nat> {
    if topKNum == 0 || start % topKNum >= |window| then
      []
    else
      window[start % topKNum..Min(|window|, start % topKNum + count)]
  }

  lemma PageOf(window: seq<nat>, start: nat, count: nat, topKNum: nat)
    ensures |OnPage(window, start, count, topKNum)| ==
            if topKNum == 0 then 0 else Max(0, Min(|window| - start % topKNum, count))
    ensures topKNum > 0 ==> forall i :: 0 <= i < |OnPage(window, start, count, topKNum)| ==>
      OnPage(window, start, count, topKNum)[i] == window[start % topKNum + i]
  {
  }

  /** Where w stands in ids, in ascending order. */
  ghost function PlacesOf(ids: seq<nat>, w: nat): (r: seq<nat>)
    ensures forall k :: 0 <= k < |r| ==> r[k] < |ids| && ids[r[k]] == w
  {
    if ids == [] then
      []
    else
      PlacesOf(ids[..|ids| - 1], w) + (if ids[|ids| - 1] == w then [|ids| - 1] else [])
  }

  ghost function Pick(docs: seq<nat>, places: seq<nat>): seq<nat>
    requires forall k :: 0 <= k < |places| ==> places[k] < |docs|
  {
    seq(|places|, k requires 0 <= k < |places| => docs[places[k]])
  }

  /** Each worker on the page gets its documents, in page order, with their places on the page. */
  ghost predicate SplitRight(parts: map<nat, PagePart>, docs: seq<nat>, ids: seq<nat>)
    requires |docs| == |ids|
  {
    && parts.Keys == Elements(ids)
    && forall w :: w in parts ==>
         parts[w] == PagePart(Pick(docs, PlacesOf(ids, w)), PlacesOf(ids, w), |PlacesOf(ids, w)|)
  }

  method SplitByWorker(docs: seq<nat>, workerIds: seq<nat>, start: nat, count: nat, topKNum: nat)
    returns (parts: map<nat, PagePart>)
    requires |docs| == |workerIds|
    ensures SplitRight(parts, OnPage(docs, start, count, topKNum), OnPage(workerIds, start, count, topKNum))
  {
    hide PlacesOf, Pick, OnPage;
    PageOf(docs, start, count, topKNum);
    PageOf(workerIds, start, count, topKNum);
    parts := map[];
    if topKNum == 0 || |docs| == 0 {
      return;
    }
    var startInPage := start % topKNum;
    ghost var pageDocs, pageIds := OnPage(docs, start, count, topKNum), OnPage(workerIds, start, count, topKNum);
    var i := 0;
    var topStart := startInPage;
    while topStart < |docs|
      invariant topStart == startInPage + i && i <= |pageDocs|
      invariant SplitRight(parts, pageDocs[..i], pageIds[..i])
    {
      if topStart >= startInPage + count {
        break;
      }
      var w := workerIds[topStart];
      var part := if w in parts then parts[w] else PagePart([], [], 0);
      SplitOneMore(parts, pageDocs, pageIds, i);
      parts := parts[w := PagePart(part.docsInPage + [docs[topStart]], part.pageOffsets + [i], part.count + 1)];
      i := i + 1;
      topStart := topStart + 1;
    }
    assert pageDocs[..i] == pageDocs && pageIds[..i] == pageIds;
  }

  lemma {:induction false} AbsentHasNoPlace(ids: seq<nat>, w: nat)
    requires w !in ids
    ensures PlacesOf(ids, w) == []
  {
    if ids != [] {
      AbsentHasNoPlace(ids[..|ids| - 1], w);
    }
  }

  lemma SplitOneMore(parts: map<nat, PagePart>, docs: seq<nat>, ids: seq<nat>, i: nat)
    requires |docs| == |ids| && i < |docs| && SplitRight(parts, docs[..i], ids[..i])
    ensures
      var part := if ids[i] in parts then parts[ids[i]] else PagePart([], [], 0);
      SplitRight(parts[ids[i] := PagePart(part.docsInPage + [docs[i]], part.pageOffsets + [i], part.count + 1)],
                 docs[..i + 1], ids[..i + 1])
  {
    var w0 := ids[i];
    if w0 !in parts {
      AbsentHasNoPlace(ids[..i], w0);
    }
    hide PlacesOf, Pick;
    forall w
      ensures PlacesOf(ids[..i + 1], w) == PlacesOf(ids[..i], w) + (if w == w0 then [i] else [])
      ensures Pick(docs[..i + 1], PlacesOf(ids[..i + 1], w)) == Pick(docs[..i], PlacesOf(ids[..i], w)) + (if w == w0 then [docs[i]] else [])
    {
      PlacesOneMore(docs, ids, i, w);
    }
    assert ids[..i + 1] == ids[..i] + [w0];
  }

  lemma PlacesOneMore(docs: seq<nat>, ids: seq<nat>, i: nat, w: nat)
    requires |docs| == |ids| && i < |docs|
    ensures PlacesOf(ids[..i + 1], w) == PlacesOf(ids[..i], w) + (if w == ids[i] then [i] else [])
    ensures Pick(docs[..i + 1], PlacesOf(ids[..i + 1], w))
         == Pick(docs[..i], PlacesOf(ids[..i], w)) + (if w == ids[i] then [docs[i]] else [])
  {
    assert ids[..i + 1][..i] == ids[..i];
  }

  // ----- merging the workers' texts by page offset

  datatype Response = Response(pageOffsets: seq<nat>, texts: PageText)

  /** place[i] = (r, k): the k-th text of response r belongs at page place i; and nothing else does. */
  ghost predicate Covers(responses: seq<Response>, place: seq<(nat, nat)>) {
    && (forall r :: 0 <= r < |responses| ==> StrictlyAscending(responses[r].pageOffsets))
    && (forall i :: 0 <= i < |place| ==>
          && place[i].0 < |responses| && place[i].1 < |responses[place[i].0].pageOffsets|
          && responses[place[i].0].pageOffsets[place[i].1] == i)
    && (forall r, k :: 0 <= r < |responses| && 0 <= k < |responses[r].pageOffsets| ==>
          responses[r].pageOffsets[k] < |place| && place[responses[r].pageOffsets[k]] == (r, k))
  }

  ghost function PlacedText(responses: seq<Response>, place: seq<(nat, nat)>): Part -> (nat, nat) -> string {
    (part: Part) => (dis: nat, i: nat) =>
      if i < |place| && place[i].0 < |responses| then TextAt(RowsOf(responses[place[i].0].texts, part), dis, place[i].1) else ""
  }

  /** Each response's cursor separates the texts placed so far from the others. */
  ghost predicate CursorsAt(responses: seq<Response>, cursors: seq<nat>, i: nat) {
    && |cursors| == |responses|
    && forall r :: 0 <= r < |responses| ==>
         && cursors[r] <= |responses[r].pageOffsets|
         && (forall k :: 0 <= k < cursors[r] ==> responses[r].pageOffsets[k] < i)
         && (forall k :: cursors[r] <= k < |responses[r].pageOffsets| ==> responses[r].pageOffsets[k] >= i)
  }

  method FindWorker(responses: seq<Response>, cursors: array<nat>, i: nat) returns (cur: nat)
    requires cursors.Length == |responses|
    ensures cur <= |responses|
    ensures cur < |responses| ==>
      cursors[cur] < |responses[cur].pageOffsets| && responses[cur].pageOffsets[cursors[cur]] == i
    ensures forall r :: 0 <= r < cur ==>
      !(cursors[r] < |responses[r].pageOffsets| && responses[r].pageOffsets[cursors[r]] == i)
  {
    cur := 0;
    while cur < |responses|
      invariant cur <= |responses|
      invariant forall r :: 0 <= r < cur ==>
        !(cursors[r] < |responses[r].pageOffsets| && responses[r].pageOffsets[cursors[r]] == i)
    {
      if cursors[cur] < |responses[cur].pageOffsets| && responses[cur].pageOffsets[cursors[cur]] == i {
        break;
      }
      cur := cur + 1;
    }
  }

  lemma CursorFindsPlace(responses: seq<Response>, place: seq<(nat, nat)>, cursors: seq<nat>, i: nat)
    requires Covers(responses, place) && CursorsAt(responses, cursors, i) && i < |place|
    ensures cursors[place[i].0] == place[i].1
  {
    var (r, k) := place[i];
    assert responses[r].pageOffsets[k] == i;
    var c := cursors[r];
    assert k >= c;
    assert responses[r].pageOffsets[c] >= i;
  }

  lemma CursorsAdvance(responses: seq<Response>, place: seq<(nat, nat)>, cursors: seq<nat>, i: nat, cur: nat)
    requires Covers(responses, place) && CursorsAt(responses, cursors, i) && i < |place|
    requires cur < |cursors| && place[i] == (cur, cursors[cur])
    ensures CursorsAt(responses, cursors[cur := cursors[cur] + 1], i + 1)
  {
    forall r, k | 0 <= r < |responses| && 0 <= k < |responses[r].pageOffsets|
      ensures responses[r].pageOffsets[k] == i ==> r == cur && k == cursors[cur]
    {
    }
  }

  /** Placing the text at the found cursor fills the next place and moves that cursor past it. */
  lemma SummaryStep(responses: seq<Response>, place: seq<(nat, nat)>, cursors: seq<nat>, i: nat, cur: nat,
                    page: PageText, r: PageText, size: nat)
    requires Covers(responses, place) && CursorsAt(responses, cursors, i) && i < |place| && i < size
    requires responses != [] && PageFilledTo(page, responses[0].texts, size, i, PlacedText(responses, place))
    requires cur < |responses| && cursors[cur] < |responses[cur].pageOffsets| && responses[cur].pageOffsets[cursors[cur]] == i
    requires forall part: Part ::
      Copied(RowsOf(page, part), RowsOf(r, part), i, RowsOf(responses[cur].texts, part), cursors[cur])
    ensures CursorsAt(responses, cursors[cur := cursors[cur] + 1], i + 1)
    ensures PageFilledTo(r, responses[0].texts, size, i + 1, PlacedText(responses, place))
  {
    assert place[i] == (cur, cursors[cur]);
    CursorsAdvance(responses, place, cursors, i, cur);
    CopyFillsPage(page, r, responses[0].texts, i, responses[cur].texts, cursors[cur], size, PlacedText(responses, place));
  }

  /** As long as a place is covered some worker's cursor stands at it; past the last one, none does. */
  lemma SomeWorkerHasPlace(responses: seq<Response>, place: seq<(nat, nat)>, cursors: seq<nat>, i: nat, cur: nat)
    requires Covers(responses, place) && CursorsAt(responses, cursors, i) && i <= |place| && cur <= |responses|
    requires cur < |responses| ==>
      cursors[cur] < |responses[cur].pageOffsets| && responses[cur].pageOffsets[cursors[cur]] == i
    requires forall r :: 0 <= r < cur ==>
      !(cursors[r] < |responses[r].pageOffsets| && responses[r].pageOffsets[cursors[r]] == i)
    ensures cur < |responses| <==> i < |place|
  {
    if i < |place| {
      CursorFindsPlace(responses, place, cursors, i);
    }
  }

  method MergeSummaries(responses: seq<Response>, pageCount: nat, ghost place: seq<(nat, nat)>) returns (page: PageText)
    ensures responses == [] ==> page == PageText([], [], [])
    ensures responses != [] && Covers(responses, place) && |place| <= pageCount ==>
      PageFilledTo(page, responses[0].texts, pageCount, |place|, PlacedText(responses, place))
  {
    hide PageFilledTo, PageRectangular, Covers, CursorsAt, PlacedText, Copied;
    if |responses| == 0 {
      return PageText([], [], []);
    }
    page := BlankPage(responses[0].texts, pageCount);
    BlankIsFilledToNothing(responses[0].texts, pageCount, PlacedText(responses, place));
    var cursors := new nat[|responses|](_ => 0);
    ghost var promised := Covers(responses, place) && |place| <= pageCount;
    SummariesStart(responses, cursors[..]);
    var i := 0;
    while i < pageCount
      invariant i <= pageCount && PageRectangular(page, pageCount)
      invariant promised ==> i <= |place| && CursorsAt(responses, cursors[..], i)
      invariant promised ==> PageFilledTo(page, responses[0].texts, pageCount, i, PlacedText(responses, place))
    {
      var cur := FindWorker(responses, cursors, i);
      if promised {
        SomeWorkerHasPlace(responses, place, cursors[..], i, cur);
      }
      if cur == |responses| {
        break;
      }
      ghost var page0, before := page, cursors[..];
      page := CopyTexts(page, i, responses[cur].texts, cursors[cur], pageCount);
      if promised {
        SummaryStep(responses, place, before, i, cur, page0, page, pageCount);
      }
      cursors[cur] := cursors[cur] + 1;
      assert cursors[..] == before[cur := before[cur] + 1];
      i := i + 1;
    }
  }

  lemma SummariesStart(responses: seq<Response>, cursors: seq<nat>)
    requires |cursors| == |responses| && forall r :: 0 <= r < |responses| ==> cursors[r] == 0
    ensures CursorsAt(responses, cursors, 0)
  {
  }

  /** Each worker answered with the texts of the documents it was given. */
  ghost predicate Answered(responses: seq<Response>, parts: map<nat, PagePart>, order: seq<nat>, part: Part, num: nat,
                           text: (nat, nat, nat) -> string)
    requires |responses| == |order| && forall r :: 0 <= r < |order| ==> order[r] in parts
  {
    forall r :: 0 <= r < |order| ==> RowsShow(RowsOf(responses[r].texts, part), num, text, order[r], parts[order[r]].docsInPage)
  }

  /** Place i of the page is the k-th one of the r-th worker asked. */
  ghost predicate PlaceOf(order: seq<nat>, ids: seq<nat>, i: nat, p: (nat, nat)) {
    && i < |ids| && p.0 < |order| && order[p.0] == ids[i]
    && p.1 < |PlacesOf(ids, ids[i])| && PlacesOf(ids, ids[i])[p.1] == i
  }

  lemma {:induction false} PlacesComplete(ids: seq<nat>, w: nat, i: nat)
    requires i < |ids| && ids[i] == w
    ensures i in PlacesOf(ids, w)
  {
    if i < |ids| - 1 {
      PlacesComplete(ids[..|ids| - 1], w, i);
    }
  }

  lemma {:induction false} PlacesAscend(ids: seq<nat>, w: nat)
    ensures StrictlyAscending(PlacesOf(ids, w))
  {
    if ids != [] {
      PlacesAscend(ids[..|ids| - 1], w);
    }
  }

  lemma {:induction false} ChoosePlaces(order: seq<nat>, ids: seq<nat>, n: nat) returns (place: seq<(nat, nat)>)
    requires n <= |ids| && Elements(ids) <= Elements(order)
    ensures |place| == n && forall i :: 0 <= i < n ==> PlaceOf(order, ids, i, place[i])
  {
    place := [];
    if n > 0 {
      place := ChoosePlaces(order, ids, n - 1);
      var i := n - 1;
      assert ids[i] in Elements(ids);
      var r :| 0 <= r < |order| && order[r] == ids[i];
      PlacesComplete(ids, ids[i], i);
      var k :| 0 <= k < |PlacesOf(ids, ids[i])| && PlacesOf(ids, ids[i])[k] == i;
      assert PlaceOf(order, ids, i, (r, k));
      place := place + [(r, k)];
    }
  }

  /** Each part of the split lists the places of its worker. */
  lemma OffsetsArePlaces(docs: seq<nat>, ids: seq<nat>, parts: map<nat, PagePart>, w: nat)
    requires |docs| == |ids| && SplitRight(parts, docs, ids) && w in parts
    ensures parts[w].pageOffsets == PlacesOf(ids, w) && parts[w].docsInPage == Pick(docs, PlacesOf(ids, w))
  {
  }

  /** The chosen places are those the responses cover, if each response lists the places of its worker. */
  lemma PlacesCover(ids: seq<nat>, order: seq<nat>, responses: seq<Response>, place: seq<(nat, nat)>)
    requires Distinct(order) && |responses| == |order|
    requires forall r :: 0 <= r < |order| ==> responses[r].pageOffsets == PlacesOf(ids, order[r])
    requires |place| == |ids| && forall i :: 0 <= i < |ids| ==> PlaceOf(order, ids, i, place[i])
    ensures Covers(responses, place)
  {
    hide PlacesOf;
    forall r | 0 <= r < |responses|
      ensures StrictlyAscending(responses[r].pageOffsets)
    {
      PlacesAscend(ids, order[r]);
    }
    forall r, k | 0 <= r < |responses| && 0 <= k < |responses[r].pageOffsets|
      ensures responses[r].pageOffsets[k] < |place| && place[responses[r].pageOffsets[k]] == (r, k)
    {
      var i := responses[r].pageOffsets[k];
      PlacesAscend(ids, order[r]);
      assert PlaceOf(order, ids, i, place[i]);
    }
  }

  lemma PlaceShowsText(docs: seq<nat>, ids: seq<nat>, parts: map<nat, PagePart>, order: seq<nat>, responses: seq<Response>,
                       place: seq<(nat, nat)>, part: Part, num: nat, text: (nat, nat, nat) -> string, dis: nat, i: nat)
    requires |docs| == |ids| && SplitRight(parts, docs, ids) && |responses| == |order|
    requires forall r :: 0 <= r < |order| ==> order[r] in parts
    requires Answered(responses, parts, order, part, num, text) && dis < num && i < |docs| == |place|
    requires PlaceOf(order, ids, i, place[i])
    ensures PlacedText(responses, place)(part)(dis, i) == text(ids[i], docs[i], dis)
  {
    hide SplitRight, PlacesOf;
    var (r, k) := place[i];
    OffsetsArePlaces(docs, ids, parts, order[r]);
    assert RowsShow(RowsOf(responses[r].texts, part), num, text, order[r], parts[order[r]].docsInPage);
    assert parts[order[r]].docsInPage[k] == docs[i];
  }

  /** Whatever order the workers answer in, each page place gets the text of its own document. */
  lemma PageIsReassembled(docs: seq<nat>, ids: seq<nat>, parts: map<nat, PagePart>, order: seq<nat>, responses: seq<Response>)
    returns (place: seq<(nat, nat)>)
    requires |docs| == |ids| && SplitRight(parts, docs, ids)
    requires Distinct(order) && Elements(order) == parts.Keys && |responses| == |order|
    requires forall r :: 0 <= r < |order| ==>
      order[r] in parts && responses[r].pageOffsets == parts[order[r]].pageOffsets
    ensures Covers(responses, place) && |place| == |docs|
    ensures forall part: Part, num: nat, text: (nat, nat, nat) -> string, dis, i ::
      Answered(responses, parts, order, part, num, text) && 0 <= dis < num && 0 <= i < |docs| ==>
        PlacedText(responses, place)(part)(dis, i) == text(ids[i], docs[i], dis)
  {
    assert parts.Keys == Elements(ids);
    hide SplitRight, PlacesOf, PlaceOf, Covers, Answered, PlacedText, Distinct, Elements;
    place := ChoosePlaces(order, ids, |ids|);
    forall r | 0 <= r < |order|
      ensures responses[r].pageOffsets == PlacesOf(ids, order[r])
    {
      OffsetsArePlaces(docs, ids, parts, order[r]);
    }
    PlacesCover(ids, order, responses, place);
    forall part: Part, num: nat, text: (nat, nat, nat) -> string, dis: nat, i: nat |
      Answered(responses, parts, order, part, num, text) && dis < num && i < |docs|
      ensures PlacedText(responses, place)(part)(dis, i) == text(ids[i], docs[i], dis)
    {
      PlaceShowsText(docs, ids, parts, order, responses, place, part, num, text, dis, i);
    }
  }

  // ----- from the wanted page to the texts shown

  lemma SamePlaces(responses: seq<Response>, place: seq<(nat, nat)>, other: seq<(nat, nat)>)
    requires Covers(responses, place) && Covers(responses, other) && |place| == |other|
    ensures place == other
  {
    forall i | 0 <= i < |place|
      ensures place[i] == other[i]
    {
      assert responses[place[i].0].pageOffsets[place[i].1] == i;
    }
  }

  /** A page adjusted to a window, split by worker, answered in any order and merged: every one of its
      count places shows the text of the document that stands there in the window. */
  lemma AdjustedPageShowsItsTexts(docs: seq<nat>, ids: seq<nat>, topKNum: nat, start0: nat, count0: nat, start: nat, count: nat,
                                  parts: map<nat, PagePart>, order: seq<nat>, responses: seq<Response>,
                                  place: seq<(nat, nat)>, page: PageText, part: Part, text: (nat, nat, nat) -> string,
                                  dis: nat, i: nat)
    requires |docs| == |ids| <= topKNum
    // what adjusting leaves
    requires 0 < topKNum && start == Min(start0, RoundDown(start0, topKNum) + |docs|)
    requires start + count == Min(start + count0, RoundDown(start0, topKNum) + |docs|)
    // what splitting and answering give
    requires SplitRight(parts, OnPage(docs, start, count, topKNum), OnPage(ids, start, count, topKNum))
    requires Distinct(order) && Elements(order) == parts.Keys && |responses| == |order|
    requires forall r :: 0 <= r < |order| ==> order[r] in parts && responses[r].pageOffsets == parts[order[r]].pageOffsets
    requires responses != [] && Answered(responses, parts, order, part, NumOf(responses[0].texts, part), text)
    // what merging shows
    requires Covers(responses, place) && |place| == |OnPage(docs, start, count, topKNum)|
    requires PageFilledTo(page, responses[0].texts, count, |place|, PlacedText(responses, place))
    requires dis < NumOf(responses[0].texts, part) && i < count
    ensures |place| == count && start % topKNum + i < |docs|
    ensures var rows, k := RowsOf(page, part), start % topKNum + i;
      dis < |rows| && i < |rows[dis]| && rows[dis][i] == text(ids[k], docs[k], dis)
  {
    hide SplitRight, Covers, Answered, PlacedText, OnPage, RoundDown;
    AdjustedPageLiesInWindow(start0, count0, start, count, topKNum, |docs|);
    PageOf(docs, start, count, topKNum);
    PageOf(ids, start, count, topKNum);
    var found := PageIsReassembled(OnPage(docs, start, count, topKNum), OnPage(ids, start, count, topKNum), parts, order, responses);
    SamePlaces(responses, place, found);
    var num := NumOf(responses[0].texts, part);
    assert FilledTo(RowsOf(page, part), num, count, |place|, PlacedText(responses, place)(part));
    assert PlacedText(responses, found)(part)(dis, i) ==
      text(OnPage(ids, start, count, topKNum)[i], OnPage(docs, start, count, topKNum)[i], dis);
  }
}
