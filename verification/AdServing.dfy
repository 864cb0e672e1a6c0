/** From one selection to the next: the clicked ads a selection found no history for are pending, and once the
    pending users were served the same selection finds one for each of them. */
module AdServing {
  import opened AdSegments
  import opened AdSelect
  import opened HistoryTables
  import opened PendingHistory
  import opened SegmentExpansion
  import opened Sequences
  import opened UserFeatures
  import AdHistory

  /** What a selection knows of the ads' history is what the table says for the user's keys. */
  ghost predicate KnowsTable(know: Knowledge, h: HistoryTable, keys: seq<string>, adSegIds: seq<seq<nat>>, docs: seq<nat>) {
    forall docid :: docid in docs ==>
      && (know.history(docid).Some? <==> Found(h, keys, IdsOfAd(adSegIds, docid)))
      && (know.history(docid).Some? ==> IsBest(h, keys, IdsOfAd(adSegIds, docid), know.history(docid).value))
  }

  /** Pending are exactly the clicked ads without a history, when there are enough ads to filter them. */
  lemma {:induction false} PendingExactly(docs: seq<nat>, know: Knowledge, filter: bool, randomSelect: bool, docid: nat)
    ensures docid in Classified(docs, know, filter, randomSelect).pending <==>
            filter && docid in docs && docid in know.clicked && know.history(docid) == None
  {
    if docs != [] {
      var front := docs[..|docs| - 1];
      PendingExactly(front, know, filter, randomSelect, docid);
      assert docs == front + [docs[|docs| - 1]];
    }
  }

  /** The table after a selection's pending ads were served, behind the users that were pending before. */
  ghost function ServedTable(h: HistoryTable, list: seq<Pending>, userInfo: seq<Feature>, docids: seq<nat>,
                             adSegIds: seq<seq<nat>>, names: map<nat, string>, ads: KeyList, predict: Predictor): HistoryTable
    requires Named(adSegIds, names)
  {
    AllWritten(h, Concat(PendingWrites(PendingAfter(list, userInfo, docids), adSegIds, names, ads, predict)))
  }

  lemma FoundStays(h: HistoryTable, list: seq<Pending>, userInfo: seq<Feature>, docids: seq<nat>, adSegIds: seq<seq<nat>>,
                   names: map<nat, string>, ads: KeyList, predict: Predictor, keys: seq<string>, columns: seq<nat>)
    requires Named(adSegIds, names) && Found(h, keys, columns)
    ensures Found(ServedTable(h, list, userInfo, docids, adSegIds, names, ads, predict), keys, columns)
  {
    hide Hit;
    if columns != [] {
      var i, j :| 0 <= i < |keys| && 0 <= j < |columns| && Hit(h, keys[i], columns[j]);
      HitsStay(h, Concat(PendingWrites(PendingAfter(list, userInfo, docids), adSegIds, names, ads, predict)), keys[i], columns[j]);
    }
  }

  lemma PendingAdIsFound(h: HistoryTable, list: seq<Pending>, userInfo: seq<Feature>, docids: seq<nat>, adSegIds: seq<seq<nat>>,
                         names: map<nat, string>, ads: KeyList, predict: Predictor, docid: nat)
    requires Named(adSegIds, names) && docid in docids
    ensures Found(ServedTable(h, list, userInfo, docids, adSegIds, names, ads, predict),
                  Expanded([""], Grouped(userInfo)), IdsOfAd(adSegIds, docid))
  {
    hide Hit, Expanded, Grouped, PendingWrites, AllWritten;
    if IdsOfAd(adSegIds, docid) != [] {
      ExpandedNotEmpty(Grouped(userInfo));
      var j :| 0 <= j < |docids| && docids[j] == docid;
      var pending := PendingAfter(list, userInfo, docids);
      assert pending[|list|] == Pending(userInfo, docids);
      PendingIsFound(h, pending, adSegIds, names, ads, predict, |list|, j, 0, 0);
    }
  }

  /** After the ads a selection left pending were served, a lookup finds each of them, and the same selection
      among the same clicked ads leaves none pending. */
  lemma ServedSelectionPendsNothing(h: HistoryTable, list: seq<Pending>, userInfo: seq<Feature>, adSegIds: seq<seq<nat>>,
                                    names: map<nat, string>, ads: KeyList, predict: Predictor, docs: seq<nat>,
                                    know: Knowledge, know': Knowledge, filter: bool, randomSelect: bool, randomSelect': bool)
    requires Named(adSegIds, names) && know'.clicked == know.clicked
    requires KnowsTable(know, h, Expanded([""], Grouped(userInfo)), adSegIds, docs)
    requires KnowsTable(know', ServedTable(h, list, userInfo, Classified(docs, know, filter, randomSelect).pending,
                                           adSegIds, names, ads, predict),
                        Expanded([""], Grouped(userInfo)), adSegIds, docs)
    ensures forall docid :: docid in Classified(docs, know, filter, randomSelect).pending ==>
      Found(ServedTable(h, list, userInfo, Classified(docs, know, filter, randomSelect).pending, adSegIds, names, ads, predict),
            Expanded([""], Grouped(userInfo)), IdsOfAd(adSegIds, docid))
    ensures Classified(docs, know', filter, randomSelect').pending == []
  {
    hide Classified, Expanded, Grouped, ServedTable, Found, IsBest;
    var pending := Classified(docs, know, filter, randomSelect).pending;
    var keys := Expanded([""], Grouped(userInfo));
    forall docid | docid in pending
      ensures Found(ServedTable(h, list, userInfo, pending, adSegIds, names, ads, predict), keys, IdsOfAd(adSegIds, docid))
    {
      PendingAdIsFound(h, list, userInfo, pending, adSegIds, names, ads, predict, docid);
    }
    var pending' := Classified(docs, know', filter, randomSelect').pending;
    if pending' != [] {
      var docid := pending'[0];
      PendingExactly(docs, know', filter, randomSelect', docid);
      PendingExactly(docs, know, filter, randomSelect, docid);
      if docid !in pending {
        FoundStays(h, list, userInfo, pending, adSegIds, names, ads, predict, keys, IdsOfAd(adSegIds, docid));
      }
      assert false;
    }
  }

  /** A selection's pending ads are remembered, and served with those that were pending before: every lookup
      that failed now succeeds. */
  method ServeSelection(table: AdHistory.AdHistory, userInfo: seq<Feature>, docids: seq<nat>, predict: Predictor,
                        ghost adVisited: seq<seq<nat>>)
    requires table.Valid() && Complete(table.adSegments, adVisited)
    modifies table`history, table`pending
    ensures table.pending == []
    ensures table.history == ServedTable(old(table.history), old(table.pending), userInfo, docids, table.adSegIds, table.segStrs,
                                         KeyTable(table.adSegments, adVisited), predict)
    ensures forall docid :: docid in docids ==>
      Found(table.history, Expanded([""], Grouped(userInfo)), IdsOfAd(table.adSegIds, docid))
  {
    hide Combination, Rank, Total, KeyTable, Found, Expanded, Grouped, PendingWrites, AllWritten, Ordered, NonEmpty, Assigned, NamesIds;
    table.AddPending(userInfo, docids);
    table.UpdatePending(predict, adVisited);
    forall docid | docid in docids
      ensures Found(table.history, Expanded([""], Grouped(userInfo)), IdsOfAd(table.adSegIds, docid))
    {
      PendingAdIsFound(old(table.history), old(table.pending), userInfo, docids, table.adSegIds, table.segStrs,
                       KeyTable(table.adSegments, adVisited), predict, docid);
    }
  }
}
