/** The texts of a result page: copying prefetched texts while merging, or splitting the page by
    worker, fetching each worker's texts, and putting them back in page order. */
module ResultPaging {
  import opened Arithmetic
  import opened Sequences
  import opened SearchMerge

  /** Texts by display property, then by document. */
  type Rows = seq<seq<string>>

  /** The three arrays of texts of a page; the first two have one row per display property. */
  datatype PageText = PageText(snippets: Rows, fulls: Rows, summaries: Rows)

  datatype Part = Snippets | Fulls | Summaries

  function RowsOf(page: PageText, part: Part): Rows {
    match part
    case Snippets => page.snippets
    case Fulls => page.fulls
    case Summaries => page.summaries
  }

  /** How many rows a merged page has, going by the first result. */
  function NumOf(first: PageText, part: Part): nat {
    if part.Summaries? then |first.summaries| else |first.snippets|
  }

  ghost function PartOf(pages: seq<PageText>, part: Part): (r: seq<Rows>)
    ensures |r| == |pages|
  {
    seq(|pages|, k requires 0 <= k < |pages| => RowsOf(pages[k], part))
  }

  /** What a worker writes for its documents, property by property. */
  ghost predicate RowsShow(rows: Rows, num: nat, text: (nat, nat, nat) -> string, worker: nat, docs: seq<nat>) {
    && |rows| == num
    && forall dis :: 0 <= dis < num ==>
         && |rows[dis]| == |docs|
         && forall i :: 0 <= i < |docs| ==> rows[dis][i] == text(worker, docs[i], dis)
  }

  // ----- copying one document's texts

  /** The guarded read of the copy: nothing where the source has no such text. */
  function TextAt(source: Rows, dis: nat, offset: nat): string {
    if dis < |source| && offset < |source[dis]| then source[dis][offset] else ""
  }

  function BlankRows(num: nat, docs: nat): Rows {
    Repeat(Repeat("", docs), num)
  }

  /** Rows of equal length whose first documents read as wanted and whose rest is still blank. */
  ghost predicate FilledTo(rows: Rows, num: nat, size: nat, n: nat, wanted: (nat, nat) -> string) {
    && |rows| == num && n <= size
    && forall dis :: 0 <= dis < num ==>
         && |rows[dis]| == size
         && (forall i :: 0 <= i < n ==> rows[dis][i] == wanted(dis, i))
         && (forall i :: n <= i < size ==> rows[dis][i] == "")
  }

  ghost predicate Rectangular(rows: Rows, size: nat) {
    forall dis :: 0 <= dis < |rows| ==> |rows[dis]| == size
  }

  /** Each row takes over the source's text at the offset, if the source has one there. */
  ghost predicate Copied(rows: Rows, r: Rows, i: nat, source: Rows, offset: nat) {
    && |r| == |rows|
    && forall dis :: 0 <= dis < |rows| ==>
         && i < |rows[dis]|
         && r[dis] == rows[dis][i := if dis < |source| && offset < |source[dis]| then source[dis][offset] else rows[dis][i]]
  }

  method CopyDocument(rows: Rows, i: nat, source: Rows, offset: nat, ghost size: nat) returns (r: Rows)
    requires Rectangular(rows, size) && i < size
    ensures Rectangular(r, size) && Copied(rows, r, i, source, offset)
  {
    r := rows;
    for dis := 0 to |rows|
      invariant |r| == |rows|
      invariant forall d :: 0 <= d < dis ==>
        r[d] == rows[d][i := if d < |source| && offset < |source[d]| then source[d][offset] else rows[d][i]]
      invariant forall d :: dis <= d < |rows| ==> r[d] == rows[d]
    {
      if |source| > dis && |source[dis]| > offset {
        r := r[dis := r[dis][i := source[dis][offset]]];
      } else {
        assert rows[dis] == rows[dis][i := rows[dis][i]];
      }
    }
  }

  /** Copying the next document fills the next place, because that place was still blank. */
  lemma CopyFillsNext(rows: Rows, r: Rows, i: nat, source: Rows, offset: nat, size: nat, wanted: (nat, nat) -> string)
    requires FilledTo(rows, |rows|, size, i, wanted) && i < size && Copied(rows, r, i, source, offset)
    requires forall dis :: 0 <= dis < |rows| ==> wanted(dis, i) == TextAt(source, dis, offset)
    ensures FilledTo(r, |rows|, size, i + 1, wanted)
  {
  }

  ghost predicate PageRectangular(page: PageText, size: nat) {
    forall part: Part :: Rectangular(RowsOf(page, part), size)
  }

  /** One document's texts go to place i of every row of the page. */
  method CopyTexts(page: PageText, i: nat, source: PageText, offset: nat, ghost size: nat) returns (r: PageText)
    requires PageRectangular(page, size) && i < size
    ensures PageRectangular(r, size)
    ensures forall part: Part :: Copied(RowsOf(page, part), RowsOf(r, part), i, RowsOf(source, part), offset)
  {
    hide Copied, Rectangular;
    assert Rectangular(RowsOf(page, Snippets), size) && Rectangular(RowsOf(page, Fulls), size) && Rectangular(RowsOf(page, Summaries), size);
    var snippets := CopyDocument(page.snippets, i, source.snippets, offset, size);
    var fulls := CopyDocument(page.fulls, i, source.fulls, offset, size);
    var summaries := CopyDocument(page.summaries, i, source.summaries, offset, size);
    r := PageText(snippets, fulls, summaries);
  }

  function BlankPage(first: PageText, docs: nat): PageText {
    PageText(BlankRows(NumOf(first, Snippets), docs), BlankRows(NumOf(first, Fulls), docs), BlankRows(NumOf(first, Summaries), docs))
  }

  /** The first n places of every row of the page are as wanted, the others blank. */
  ghost predicate PageFilledTo(page: PageText, first: PageText, size: nat, n: nat, wanted: Part -> (nat, nat) -> string) {
    forall part: Part :: FilledTo(RowsOf(page, part), NumOf(first, part), size, n, wanted(part))
  }

  lemma BlankIsFilledToNothing(first: PageText, docs: nat, wanted: Part -> (nat, nat) -> string)
    ensures PageFilledTo(BlankPage(first, docs), first, docs, 0, wanted) && PageRectangular(BlankPage(first, docs), docs)
  {
  }

  /** Copying the next document's texts fills the next place of the page. */
  lemma CopyFillsPage(page: PageText, r: PageText, first: PageText, i: nat, source: PageText, offset: nat, size: nat,
                      wanted: Part -> (nat, nat) -> string)
    requires PageFilledTo(page, first, size, i, wanted) && i < size
    requires forall part: Part :: Copied(RowsOf(page, part), RowsOf(r, part), i, RowsOf(source, part), offset)
    requires forall part: Part, dis: nat :: wanted(part)(dis, i) == TextAt(RowsOf(source, part), dis, offset)
    ensures PageFilledTo(r, first, size, i + 1, wanted)
  {
    forall part: Part
      ensures FilledTo(RowsOf(r, part), NumOf(first, part), size, i + 1, wanted(part))
    {
      assert FilledTo(RowsOf(page, part), NumOf(first, part), size, i, wanted(part));
      CopyFillsNext(RowsOf(page, part), RowsOf(r, part), i, RowsOf(source, part), offset, size, wanted(part));
    }
  }

  // ----- page text while merging

  function PageCount(start: nat, count: nat, topK: nat): nat {
    if start < topK then Min(count, topK - start) else 0
  }

  /** The page has a place for each wanted document that there is, and rows for as many properties as the first
      result shows: documents and snippets have one number of rows, summaries another. */
  lemma PageHasWantedPlaces(first: PageText, start: nat, count: nat, topK: nat, i: nat)
    ensures i < PageCount(start, count, topK) <==> i < count && start + i < topK
    ensures NumOf(first, Snippets) == NumOf(first, Fulls) == |first.snippets| && NumOf(first, Summaries) == |first.summaries|
  {
  }

  /** A worker prefetches its first start + count documents. */
  method Prefetch(docs: seq<nat>, start: nat, count: nat) returns (r: seq<nat>)
    ensures r == if count > 0 then docs[..Min(start + count, |docs|)] else []
  {
    r := [];
    if count > 0 {
      for i := 0 to |docs|
        invariant r == docs[..i] && i <= start + count
      {
        if i < start + count {
          r := r + [docs[i]];
        } else {
          break;
        }
      }
    }
  }

  ghost function CopiedText(pages: seq<PageText>, offsets: seq<Position>, start: nat): Part -> (nat, nat) -> string {
    (part: Part) => (dis: nat, i: nat) =>
      if start + i < |offsets| && offsets[start + i].worker < |pages| then
        TextAt(RowsOf(pages[offsets[start + i].worker], part), dis, offsets[start + i].index)
      else ""
  }

  method CopyPage(pages: seq<PageText>, offsets: seq<Position>, start: nat, count: nat) returns (page: PageText)
    requires pages != [] && forall c :: 0 <= c < |offsets| ==> offsets[c].worker < |pages|
    ensures PageFilledTo(page, pages[0], PageCount(start, count, |offsets|), PageCount(start, count, |offsets|),
                         CopiedText(pages, offsets, start))
  {
    hide PageFilledTo, PageRectangular;
    var pageCount := PageCount(start, count, |offsets|);
    page := BlankPage(pages[0], pageCount);
    BlankIsFilledToNothing(pages[0], pageCount, CopiedText(pages, offsets, start));
    var pageEnd := Min(|offsets|, start + pageCount);
    var topkIndex := start;
    while topkIndex < pageEnd
      invariant start <= topkIndex && (pageCount > 0 ==> topkIndex <= pageEnd == start + pageCount)
      invariant pageCount == 0 ==> topkIndex == start && pageEnd <= start
      invariant PageRectangular(page, pageCount)
      invariant PageFilledTo(page, pages[0], pageCount, topkIndex - start, CopiedText(pages, offsets, start))
    {
      var source, offset := pages[offsets[topkIndex].worker], offsets[topkIndex].index;
      ghost var before := page;
      page := CopyTexts(page, topkIndex - start, source, offset, pageCount);
      CopyFillsPage(before, page, pages[0], topkIndex - start, source, offset, pageCount, CopiedText(pages, offsets, start));
      topkIndex := topkIndex + 1;
    }
  }

  /** Every worker prefetched, and showed the texts of what it prefetched. */
  ghost predicate RowsPrefetched(ws: seq<WorkerResult>, pages: seq<Rows>, num: nat, text: (nat, nat, nat) -> string,
                                 start: nat, count: nat)
  {
    && |pages| == |ws|
    && forall w :: 0 <= w < |ws| ==>
         RowsShow(pages[w], num, text, ws[w].id, if count > 0 then ws[w].docs[..Min(start + count, |ws[w].docs|)] else [])
  }

  lemma FilledShows(page: PageText, first: PageText, size: nat, n: nat, wanted: Part -> (nat, nat) -> string,
                    part: Part, dis: nat, i: nat)
    requires PageFilledTo(page, first, size, n, wanted) && dis < NumOf(first, part) && i < n
    ensures var rows := RowsOf(page, part);
      dis < |rows| && i < |rows[dis]| && rows[dis][i] == wanted(part)(dis, i)
  {
    assert FilledTo(RowsOf(page, part), NumOf(first, part), size, n, wanted(part));
  }

  /** A document among a worker's first start + count was prefetched, and its text is its own. */
  lemma PrefetchedText(ws: seq<WorkerResult>, p: Position, pages: seq<Rows>, num: nat, text: (nat, nat, nat) -> string,
                       start: nat, count: nat, dis: nat)
    requires IsPosition(ws, p) && RowsPrefetched(ws, pages, num, text, start, count)
    requires count > 0 && p.index < start + count && dis < num
    ensures TextAt(pages[p.worker], dis, p.index) == text(ws[p.worker].id, ws[p.worker].docs[p.index], dis)
  {
    assert RowsShow(pages[p.worker], num, text, ws[p.worker].id, ws[p.worker].docs[..Min(start + count, |ws[p.worker].docs|)]);
  }

  /** The merged page: because each worker's list is taken from the front, a document's offset in its
      worker is at most its place in the merged list, so the prefetched texts always include it and
      no guard of the copy ever skips one. */
  lemma MergedPageShowsItsDocuments(ws: seq<WorkerResult>, m: Merged, iters: seq<nat>, k: nat, pages: seq<PageText>, page: PageText,
                                    part: Part, text: (nat, nat, nat) -> string, start: nat, count: nat, dis: nat, i: nat)
    requires AllShaped(ws) && Aligned(ws, m, |m.offsets|, k) && TakesPrefixes(ws, m.offsets, iters)
    requires ws != [] && |pages| == |ws| && RowsPrefetched(ws, PartOf(pages, part), NumOf(pages[0], part), text, start, count)
    requires PageFilledTo(page, pages[0], PageCount(start, count, |m.offsets|), PageCount(start, count, |m.offsets|),
                          CopiedText(pages, m.offsets, start))
    requires dis < NumOf(pages[0], part) && i < PageCount(start, count, |m.offsets|)
    ensures m.offsets[start + i].index <= start + i
    ensures var rows := RowsOf(page, part);
      dis < |rows| && i < |rows[dis]| && rows[dis][i] == text(m.workerIds[start + i], m.docs[start + i], dis)
  {
    hide PageFilledTo, RowsPrefetched, RowsShow, FilledTo, AllShaped, Sum, Distinct;
    var p := m.offsets[start + i];
    FilledShows(page, pages[0], PageCount(start, count, |m.offsets|), PageCount(start, count, |m.offsets|),
                CopiedText(pages, m.offsets, start), part, dis, i);
    PrefetchedText(ws, p, PartOf(pages, part), NumOf(pages[0], part), text, start, count, dis);
  }

  // ----- the page's bounds

  /** The part of a search result that says which page of it is wanted. */
  class PageBounds {
    var start: nat
    var count: nat

    constructor (pageStart: nat, pageCount: nat)
      ensures start == pageStart && count == pageCount
    {
      start, count := pageStart, pageCount;
    }

    /** Cuts the page down to the documents the window really has. */
    method AdjustStartCount(topKStart: nat, topK: nat)
      modifies this
      ensures start == Min(old(start), topKStart + topK)
      ensures start + count == Min(start + old(count), topKStart + topK)
      ensures old(start) + old(count) <= topKStart + topK ==> start == old(start) && count == old(count)
    {
      var topKEnd := topKStart + topK;
      if start > topKEnd {
        start := topKEnd;
      }
      if start + count > topKEnd {
        count := topKEnd - start;
      }
    }
  }

  /** Within the window that starts at a multiple of K, the adjusted page lies inside the window's
      documents: start mod K is its first document, and all count documents are there. */
  lemma AdjustedPageLiesInWindow(start0: nat, count0: nat, start: nat, count: nat, topKNum: nat, topK: nat)
    requires 0 < topKNum && topK <= topKNum
    requires var topKStart := RoundDown(start0, topKNum);
      && start == Min(start0, topKStart + topK)
      && start + count == Min(start + count0, topKStart + topK)
    ensures start % topKNum + count <= topK
  {
    var topKStart := RoundDown(start0, topKNum);
    var q := start0 / topKNum;
    assert start0 == q * topKNum + start0 % topKNum;
    assert topKStart == q * topKNum;
    assert topKStart <= start < topKStart + topKNum;
    ModuloInBlock(start, q, topKNum);
  }
}
