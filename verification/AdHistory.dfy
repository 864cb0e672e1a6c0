/** The click-through history of segments: filled from the enumerated keys of users and ads, or by need,
    and looked up through the keys one user and one ad expand to. */
module AdHistory {
  import opened AdSegments
  import opened HistoryTables
  import opened PendingHistory
  import opened SegmentExpansion
  import opened SegmentUpdate
  import opened Sequences
  import opened UserFeatures

  const MAX_HISTORY_CTR_NUM: nat := 1024 * 1024 * 16

  method PushAll(updates0: seq<Segment>, reported: seq<Feature>) returns (updates: seq<Segment>)
    requires Ordered(updates0)
    ensures Ordered(updates)
    ensures forall name :: Lookup(updates, name) == Lookup(updates0, name) + ValuesOf(reported, name)
  {
    hide Ordered, Lookup;
    updates := updates0;
    for i := 0 to |reported|
      invariant Ordered(updates)
      invariant forall name :: Lookup(updates, name) == Lookup(updates0, name) + ValuesOf(reported[..i], name)
    {
      PushedIsOrdered(updates, reported[i].0, reported[i].1);
      forall name
        ensures Lookup(Pushed(updates, reported[i].0, reported[i].1), name) ==
          Lookup(updates0, name) + ValuesOf(reported[..i + 1], name)
      {
        PushedLooksUp(updates, reported[i].0, reported[i].1, name);
        assert reported[..i + 1][..i] == reported[..i];
      }
      updates := Pushed(updates, reported[i].0, reported[i].1);
    }
    assert reported[..|reported|] == reported;
  }

  class AdHistory {
    var userSegments: seq<Segment>
    var adSegments: seq<Segment>
    var userUpdates: seq<Segment>
    var adUpdates: seq<Segment>
    var segIds: map<string, nat>
    var segStrs: map<nat, string>
    var adSegIds: seq<seq<nat>>
    var pending: seq<Pending>
    var history: HistoryTable

    /** Ids identify names, and the ids of an ad are stored with their names. */
    ghost predicate IdsMatch()
      reads this`segIds, this`segStrs, this`adSegIds
    {
      Assigned(segIds) && NamesIds(segIds, segStrs) && Named(adSegIds, segStrs)
    }

    /** Segments are maps by name, and each has a value. */
    ghost predicate SegmentsHaveValues()
      reads this`userSegments, this`adSegments, this`userUpdates, this`adUpdates
    {
      && Ordered(userSegments) && NonEmpty(userSegments) && Ordered(userUpdates)
      && Ordered(adSegments) && NonEmpty(adSegments) && Ordered(adUpdates)
    }

    ghost predicate Valid()
      reads this
    {
      IdsMatch() && SegmentsHaveValues()
    }

    constructor (users: seq<Segment>, ads: seq<Segment>)
      requires Ordered(users) && NonEmpty(users) && Ordered(ads) && NonEmpty(ads)
      ensures Valid() && userSegments == users && adSegments == ads && userUpdates == [] && adUpdates == []
      ensures segIds == map[] && segStrs == map[] && adSegIds == [] && pending == [] && history == map[]
    {
      userSegments, adSegments, userUpdates, adUpdates := users, ads, [], [];
      segIds, segStrs, adSegIds, pending, history := map[], map[], [], [], map[];
    }

    /** Values reported for the segments wait, by name and in the order they came, for the next computation. */
    method UpdateSegments(reported: seq<Feature>, ofUsers: bool)
      requires Valid()
      modifies this`userUpdates, this`adUpdates
      ensures Valid()
      ensures forall name ::
        Lookup(userUpdates, name) == Lookup(old(userUpdates), name) + if ofUsers then ValuesOf(reported, name) else []
      ensures forall name ::
        Lookup(adUpdates, name) == Lookup(old(adUpdates), name) + if ofUsers then [] else ValuesOf(reported, name)
    {
      var updates := if ofUsers then userUpdates else adUpdates;
      updates := PushAll(updates, reported);
      if ofUsers {
        userUpdates := updates;
      } else {
        adUpdates := updates;
      }
    }

    /** The id of a name; a new name gets an unused one. */
    method GetDocIdByDocName(name: string) returns (id: nat)
      requires IdsMatch()
      modifies this`segIds
      ensures IdsMatch() && Extends(old(segIds), segIds)
      ensures segIds.Keys == old(segIds).Keys + {name} && id == segIds[name]
    {
      if name !in segIds {
        AssignKeepsIds(segIds, name);
        segIds := segIds[name := |segIds| + 1];
      }
      id := segIds[name];
    }

    /** The ids of the nonempty keys, each stored with its name. */
    method AssignIds(keys: seq<string>) returns (ids: seq<nat>)
      requires IdsMatch()
      modifies this`segIds, this`segStrs
      ensures IdsMatch() && Extends(old(segIds), segIds)
      ensures IdsOfKeys(segIds, keys, ids) && segStrs.Keys == old(segStrs).Keys + Elements(ids)
    {
      hide Extends, IdsOfKeys, Named, Assigned;
      ids := [];
      ExtendsItself(segIds);
      NoIds(segIds);
      for j := 0 to |keys|
        invariant IdsMatch() && Extends(old(segIds), segIds) && keys[..0] == []
        invariant IdsOfKeys(segIds, keys[..j], ids) && segStrs.Keys == old(segStrs).Keys + Elements(ids)
      {
        ghost var segIds0 := segIds;
        if keys[j] == "" {
          ExtendsItself(segIds);
          IdsMore(segIds0, segIds, keys, j, ids, ids);
          continue;
        }
        var id := GetDocIdByDocName(keys[j]);
        ExtendsFurther(old(segIds), segIds0, segIds);
        IdsMore(segIds0, segIds, keys, j, ids, ids + [id]);
        NamedMore(adSegIds, segStrs, id, keys[j]);
        ids := ids + [id];
        segStrs := segStrs[id := keys[j]];
      }
      assert keys[..|keys|] == keys;
    }

    /** Gives the ad the ids of the nonempty keys its features expand to. */
    method UpdateAdSegmentStr(docid: nat, features: seq<Segment>)
      requires Valid()
      modifies this`segIds, this`segStrs, this`adSegIds
      ensures Valid() && Extends(old(segIds), segIds)
      ensures |adSegIds| == Max(|old(adSegIds)|, docid + 1)
      ensures IdsOfKeys(segIds, Expanded([""], features), adSegIds[docid])
      ensures forall d :: 0 <= d < |adSegIds| && d != docid ==>
        adSegIds[d] == if d < |old(adSegIds)| then old(adSegIds)[d] else []
      ensures segStrs.Keys == old(segStrs).Keys + Elements(adSegIds[docid])
    {
      hide Assigned, Extends, IdsOfKeys, Expanded, NamesIds;
      var keys := ExpandSegmentStr([""], features);
      var ids := AssignIds(keys);
      if docid >= |adSegIds| {
        adSegIds := adSegIds + seq(docid + 1 - |adSegIds|, _ => []);
      }
      assert forall k :: 0 <= k < |ids| ==> ids[k] in Elements(ids);
      adSegIds := adSegIds[docid := ids];
    }

    /** The names of the ad's ids. */
    method GetAdSegmentStrList(docid: nat) returns (names: seq<string>)
      requires IdsMatch()
      ensures names == NamesOf(IdsOfAd(adSegIds, docid), segStrs)
    {
      names := [];
      if docid >= |adSegIds| {
        return;
      }
      for k := 0 to |adSegIds[docid]|
        invariant names == NamesOf(adSegIds[docid], segStrs)[..k]
      {
        names := names + [segStrs[adSegIds[docid][k]]];
      }
    }

    /** Writes the prediction of every pair of an enumerated user key and an enumerated ad key. */
    method FillHistory(users: KeyList, ads: KeyList, predict: Predictor)
      requires IdsMatch()
      modifies this`segIds, this`history
      ensures IdsMatch() && Extends(old(segIds), segIds)
      ensures Recorded(old(history), history, segIds, users, ads, predict, AllPairs(users.Keys, ads.Keys))
    {
      hide Recorded, Extends, Assigned;
      NothingRecorded(history, segIds, users, ads, predict);
      ExtendsItself(segIds);
      ghost var done: set<(string, string)> := {};
      var todo := users.Keys;
      while todo != {}
        invariant todo <= users.Keys && IdsMatch() && Extends(old(segIds), segIds)
        invariant done == AllPairs(users.Keys - todo, ads.Keys)
        invariant Recorded(old(history), history, segIds, users, ads, predict, done)
      {
        var user :| user in todo;
        var adTodo := ads.Keys;
        AllPairs0(users.Keys - todo, user, ads.Keys);
        while adTodo != {}
          invariant adTodo <= ads.Keys && IdsMatch() && Extends(old(segIds), segIds)
          invariant done == AllPairs(users.Keys - todo, ads.Keys) + AllPairs({user}, ads.Keys - adTodo)
          invariant Recorded(old(history), history, segIds, users, ads, predict, done)
        {
          var ad :| ad in adTodo;
          ghost var segIds0 := segIds;
          var segId := 0;
          if ad != "" {
            segId := GetDocIdByDocName(ad);
          } else {
            ExtendsItself(segIds);
          }
          ExtendsFurther(old(segIds), segIds0, segIds);
          RecordedExtends(old(history), history, segIds0, segIds, users, ads, predict, done);
          RecordOne(old(history), history, segIds, users, ads, predict, done, user, ad);
          history := Written(history, user, segId, predict(users[user], ads[ad]));
          done := done + {(user, ad)};
          AdDone(users.Keys - todo, user, ads.Keys, adTodo, ad);
          adTodo := adTodo - {ad};
        }
        UserDone(users.Keys, todo, user, ads.Keys);
        todo := todo - {user};
      }
      assert users.Keys - todo == users.Keys;
    }

    /** Writes the predictions of one user key for the ad keys of one ad. */
    method WriteKey(user: string, userInfo: seq<Feature>, docid: nat, adKeys: seq<string>, ads: KeyList, predict: Predictor)
      requires IdsMatch() && adKeys == NamesOf(IdsOfAd(adSegIds, docid), segStrs)
      modifies this`history
      ensures history == AllWritten(old(history), KeyWrites(user, userInfo, IdsOfAd(adSegIds, docid), segStrs, ads, predict))
    {
      ghost var writes := KeyWrites(user, userInfo, IdsOfAd(adSegIds, docid), segStrs, ads, predict);
      hide Assigned, AllWritten, Written;
      NoWrites(history, writes);
      for k := 0 to |adKeys|
        invariant history == AllWritten(old(history), writes[..k])
      {
        OneMoreWrite(old(history), writes, k);
        var id := segIds[adKeys[k]];
        history := Written(history, user, id, predict(userInfo, FeaturesOf(ads, adKeys[k])));
      }
      assert writes[..|writes|] == writes;
    }

    /** Writes the predictions of one user for one ad. */
    method WriteAd(users: seq<string>, userInfo: seq<Feature>, docid: nat, ads: KeyList, predict: Predictor)
      requires IdsMatch()
      modifies this`history
      ensures history == AllWritten(old(history), Concat(DocWrites(users, userInfo, docid, adSegIds, segStrs, ads, predict)))
    {
      hide AllWritten, Concat, KeyWrites, Assigned, NamesIds;
      ghost var writes := DocWrites(users, userInfo, docid, adSegIds, segStrs, ads, predict);
      NothingWritten(history, writes);
      var adKeys := GetAdSegmentStrList(docid);
      for l := 0 to |users|
        invariant history == AllWritten(old(history), Concat(writes[..l]))
      {
        WrittenMore(old(history), writes, l);
        WriteKey(users[l], userInfo, docid, adKeys, ads, predict);
      }
      assert writes[..|writes|] == writes;
    }

    /** Writes the predictions of one user. */
    method WriteUser(p: Pending, ads: KeyList, predict: Predictor)
      requires IdsMatch()
      modifies this`history
      ensures history == AllWritten(old(history), Concat(UserWrites(p, adSegIds, segStrs, ads, predict)))
    {
      hide AllWritten, Concat, Expanded, Grouped, DocWrites, Assigned, NamesIds;
      ghost var writes := UserWrites(p, adSegIds, segStrs, ads, predict);
      NothingWritten(history, writes);
      var users := GetUserSegmentStr(p.userInfo);
      for j := 0 to |p.docids|
        invariant history == AllWritten(old(history), Concat(writes[..j]))
      {
        WrittenMore(old(history), writes, j);
        WriteAd(users, p.userInfo, p.docids[j], ads, predict);
      }
      assert writes[..|writes|] == writes;
    }

    /** Keeps in mind a user and the clicked ads without a rate for that user, if there are any. */
    method AddPending(userInfo: seq<Feature>, docids: seq<nat>)
      modifies this`pending
      ensures pending == PendingAfter(old(pending), userInfo, docids)
    {
      if docids != [] {
        pending := pending + [Pending(userInfo, docids)];
      }
    }

    /** The table after the pending users were served. */
    ghost function Served(h: HistoryTable, list: seq<Pending>, ads: KeyList, predict: Predictor): HistoryTable
      requires IdsMatch()
      reads this`segIds, this`segStrs, this`adSegIds
    {
      AllWritten(h, Concat(PendingWrites(list, adSegIds, segStrs, ads, predict)))
    }

    /** Serves the pending users in the order their lookups failed, and forgets them. */
    method UpdatePending(predict: Predictor, ghost adVisited: seq<seq<nat>>)
      requires Valid() && Complete(adSegments, adVisited)
      modifies this`history, this`pending
      ensures pending == []
      ensures history == Served(old(history), old(pending), KeyTable(adSegments, adVisited), predict)
    {
      hide AllWritten, Concat, UserWrites, KeyTable, Combination, Rank, Total, Assigned, NamesIds;
      var list := pending;
      pending := [];
      ghost var writes := PendingWrites(list, adSegIds, segStrs, KeyTable(adSegments, adVisited), predict);
      NothingWritten(history, writes);
      if list == [] {
        return;
      }
      var ads, visited := GetAllPossibleSegStr(adSegments);
      OneEnumeration(adSegments, adVisited, visited);
      for i := 0 to |list|
        invariant pending == [] && history == AllWritten(old(history), Concat(writes[..i]))
      {
        WrittenMore(old(history), writes, i);
        WriteUser(list[i], ads, predict);
      }
      assert writes[..|writes|] == writes;
    }

    method TakeAllUpdates()
      requires SegmentsHaveValues()
      modifies this`userSegments, this`adSegments, this`userUpdates, this`adUpdates
      ensures SegmentsHaveValues() && userUpdates == adUpdates == []
      ensures userSegments == MergedAll(old(userSegments), old(userUpdates))
      ensures adSegments == MergedAll(old(adSegments), old(adUpdates))
    {
      hide MergedAll, Ordered, NonEmpty;
      userSegments := TakeUpdates(userSegments, userUpdates);
      adSegments := TakeUpdates(adSegments, adUpdates);
      userUpdates, adUpdates := [], [];
      NothingIsOrdered();
    }

    /** Enumerates the keys of both sides and writes all predictions; past the limit, only those that pending
        users ask for. */
    method FillOrServe(predict: Predictor)
      returns (full: bool, ghost userVisited: seq<seq<nat>>, ghost adVisited: seq<seq<nat>>)
      requires Valid()
      modifies this`segIds, this`history, this`pending
      ensures IdsMatch() && Extends(old(segIds), segIds)
      ensures Complete(userSegments, userVisited) && Complete(adSegments, adVisited)
      ensures full <==> |KeyTable(userSegments, userVisited)| * |KeyTable(adSegments, adVisited)| <= MAX_HISTORY_CTR_NUM / 2
      ensures full ==> var users, ads := KeyTable(userSegments, userVisited), KeyTable(adSegments, adVisited);
        Recorded(old(history), history, segIds, users, ads, predict, AllPairs(users.Keys, ads.Keys))
      ensures full ==> pending == old(pending)
      ensures !full ==> segIds == old(segIds) && pending == []
      ensures !full ==> history == Served(old(history), old(pending), KeyTable(adSegments, adVisited), predict)
    {
      hide Recorded, Extends, KeyTable, Combination, Rank, Total, Ordered, NonEmpty, IdsMatch, Served;
      ExtendsItself(segIds);
      var users, ads;
      users, userVisited := GetAllPossibleSegStr(userSegments);
      ads, adVisited := GetAllPossibleSegStr(adSegments);
      full := |users| * |ads| <= MAX_HISTORY_CTR_NUM / 2;
      if full {
        FillHistory(users, ads, predict);
      } else {
        UpdatePending(predict, adVisited);
      }
    }

    /** Takes the reported values over first. */
    method ComputeHistoryCtr(predict: Predictor)
      returns (full: bool, ghost userVisited: seq<seq<nat>>, ghost adVisited: seq<seq<nat>>)
      requires Valid()
      modifies this`userSegments, this`adSegments, this`userUpdates, this`adUpdates, this`segIds, this`history, this`pending
      ensures Valid() && Extends(old(segIds), segIds) && userUpdates == adUpdates == []
      ensures userSegments == MergedAll(old(userSegments), old(userUpdates))
      ensures adSegments == MergedAll(old(adSegments), old(adUpdates))
      ensures Complete(userSegments, userVisited) && Complete(adSegments, adVisited)
      ensures full <==> |KeyTable(userSegments, userVisited)| * |KeyTable(adSegments, adVisited)| <= 8388608
      ensures full ==> var users, ads := KeyTable(userSegments, userVisited), KeyTable(adSegments, adVisited);
        Recorded(old(history), history, segIds, users, ads, predict, AllPairs(users.Keys, ads.Keys))
      ensures full ==> pending == old(pending)
      ensures !full ==> segIds == old(segIds) && pending == []
      ensures !full ==> history == Served(old(history), old(pending), KeyTable(adSegments, adVisited), predict)
    {
      hide Recorded, Extends, KeyTable, Combination, Rank, Total, MergedAll, SegmentsHaveValues, IdsMatch, Served;
      TakeAllUpdates();
      full, userVisited, adVisited := FillOrServe(predict);
    }

    /** Looks up every pair of a user key and an ad's segment id. An ad without segment ids is found with
        rate 0; otherwise it is found exactly when some row reaches some id. */
    method GetHistoryCtr(userKeys: seq<string>, columns: seq<nat>) returns (found: bool, maxCtr: real)
      ensures found <==> Found(history, userKeys, columns)
      ensures IsBest(history, userKeys, columns, maxCtr)
    {
      maxCtr, found := 0.0, false;
      if columns == [] {
        return true, 0.0;
      }
      for i := 0 to |userKeys|
        invariant found <==> exists k, j :: 0 <= k < i && 0 <= j < |columns| && Hit(history, userKeys[k], columns[j])
        invariant IsBest(history, userKeys[..i], columns, maxCtr)
      {
        assert userKeys[..i + 1] == userKeys[..i] + [userKeys[i]];
        if userKeys[i] !in history {
          assert forall j :: 0 <= j < |columns| ==> !Hit(history, userKeys[i], columns[j]);
          BestStays(history, userKeys, i, columns, maxCtr);
          continue;
        }
        var row := history[userKeys[i]];
        ghost var found0, max0 := found, maxCtr;
        for j := 0 to |columns|
          invariant found <==> found0 || exists q :: 0 <= q < j && Hit(history, userKeys[i], columns[q])
          invariant BestSoFar(row, columns, j, max0, maxCtr)
        {
          if columns[j] >= |row| {
            continue;
          }
          if row[columns[j]] > maxCtr {
            maxCtr := row[columns[j]];
          }
          found := true;
          assert Hit(history, userKeys[i], columns[j]);
        }
        BestMore(history, userKeys, i, columns, max0, maxCtr);
      }
      assert userKeys[..|userKeys|] == userKeys;
    }
  }

  // ----- what is looked up was filled

  lemma {:induction false} KeyHasId(segIds: map<string, nat>, keys: seq<string>, ids: seq<nat>, key: string)
    returns (j: nat)
    requires IdsOfKeys(segIds, keys, ids) && key in keys && key != ""
    ensures j < |ids| && key in segIds && ids[j] == segIds[key]
    decreases |keys|
  {
    var front, last := keys[..|keys| - 1], keys[|keys| - 1];
    if last == key {
      j := |ids| - 1;
    } else if last == "" {
      j := KeyHasId(segIds, front, ids, key);
    } else {
      j := KeyHasId(segIds, front, ids[..|ids| - 1], key);
    }
  }

  lemma PairIsStored(h0: HistoryTable, h: HistoryTable, segIds: map<string, nat>, users: KeyList, ads: KeyList,
                     predict: Predictor, user: string, ad: string)
    requires Recorded(h0, h, segIds, users, ads, predict, AllPairs(users.Keys, ads.Keys))
    requires user in users && ad in ads && ad != ""
    ensures ad in segIds && Cell(h, user, segIds[ad], predict(users[user], ads[ad]))
  {
    assert (user, ad) in AllPairs(users.Keys, ads.Keys);
  }

  /** Every pair of a key of the user and a nonempty key of the ad is enumerated and has its prediction. */
  ghost predicate Stored(h: HistoryTable, segIds: map<string, nat>, users: KeyList, ads: KeyList, predict: Predictor,
                         userKeys: seq<string>, adKeys: seq<string>)
  {
    forall user, ad :: user in userKeys && ad in adKeys && ad != "" ==>
      && user in users && ad in ads && ad in segIds
      && Cell(h, user, segIds[ad], predict(users[user], ads[ad]))
  }

  /** The rate is the greatest prediction over those pairs, or 0 when none is positive. */
  ghost predicate BestPrediction(users: KeyList, ads: KeyList, predict: Predictor, userKeys: seq<string>,
                                 adKeys: seq<string>, best: real)
  {
    && (forall user, ad :: user in userKeys && ad in adKeys && ad != "" ==>
         user in users && ad in ads && predict(users[user], ads[ad]) <= best)
    && best >= 0.0
    && (best > 0.0 ==> exists user, ad ::
         && user in userKeys && ad in adKeys && ad != "" && user in users && ad in ads
         && predict(users[user], ads[ad]) == best)
  }

  lemma StoredIsFound(h: HistoryTable, segIds: map<string, nat>, users: KeyList, ads: KeyList, predict: Predictor,
                      userKeys: seq<string>, adKeys: seq<string>, columns: seq<nat>)
    requires Stored(h, segIds, users, ads, predict, userKeys, adKeys)
    requires IdsOfKeys(segIds, adKeys, columns) && columns != [] && userKeys != []
    ensures Hit(h, userKeys[0], columns[0])
  {
    var ad := IdNamesKey(segIds, adKeys, columns, 0);
    assert userKeys[0] in userKeys;
    assert Cell(h, userKeys[0], segIds[ad], predict(users[userKeys[0]], ads[ad]));
  }

  lemma StoredIsBest(h: HistoryTable, segIds: map<string, nat>, users: KeyList, ads: KeyList, predict: Predictor,
                     userKeys: seq<string>, adKeys: seq<string>, columns: seq<nat>, best: real)
    requires Stored(h, segIds, users, ads, predict, userKeys, adKeys)
    requires IdsOfKeys(segIds, adKeys, columns) && IsBest(h, userKeys, columns, best)
    ensures BestPrediction(users, ads, predict, userKeys, adKeys, best)
  {
    hide IdsOfKeys;
    forall user, ad | user in userKeys && ad in adKeys && ad != ""
      ensures user in users && ad in ads && predict(users[user], ads[ad]) <= best
    {
      var j := KeyHasId(segIds, adKeys, columns, ad);
      var i :| 0 <= i < |userKeys| && userKeys[i] == user;
      assert Hit(h, userKeys[i], columns[j]);
    }
    if best > 0.0 {
      var i, j: nat :| 0 <= i < |userKeys| && 0 <= j < |columns| && Hit(h, userKeys[i], columns[j]) && h[userKeys[i]][columns[j]] == best;
      var ad := IdNamesKey(segIds, adKeys, columns, j);
      assert userKeys[i] in userKeys;
      assert Cell(h, userKeys[i], segIds[ad], predict(users[userKeys[i]], ads[ad]));
    }
  }

  lemma EnumeratedIsStored(h0: HistoryTable, h: HistoryTable, segIds: map<string, nat>, users: KeyList, ads: KeyList,
                           predict: Predictor, userKeys: seq<string>, adKeys: seq<string>)
    requires Recorded(h0, h, segIds, users, ads, predict, AllPairs(users.Keys, ads.Keys))
    requires (forall user :: user in userKeys ==> user in users) && (forall ad :: ad in adKeys ==> ad in ads)
    ensures Stored(h, segIds, users, ads, predict, userKeys, adKeys)
  {
    hide Recorded, AllPairs, Cell;
    forall user, ad | user in userKeys && ad in adKeys && ad != ""
      ensures user in users && ad in ads && ad in segIds && Cell(h, user, segIds[ad], predict(users[user], ads[ad]))
    {
      PairIsStored(h0, h, segIds, users, ads, predict, user, ad);
    }
  }

  /** The odometer ran over segments that are ordered by name and know Unknown. */
  ghost predicate Enumerated(segments: seq<Segment>, visited: seq<seq<nat>>) {
    Ordered(segments) && KnowUnknown(segments) && InOrder(segments, visited) && |visited| == Total(segments)
  }

  lemma AllEnumerated(features: seq<Segment>, segments: seq<Segment>, visited: seq<seq<nat>>)
    requires Enumerated(segments, visited) && Ordered(features) && Fits(features, segments)
    ensures forall key :: key in Expanded([""], features) ==> key in KeyTable(segments, visited)
  {
    forall key | key in Expanded([""], features)
      ensures key in KeyTable(segments, visited)
    {
      ExpandedIsEnumerated(features, segments, visited, key);
    }
  }

  /** After the table was filled, looking up a user and an ad whose values are values of the segments
      succeeds if the ad has a segment id, and finds the best prediction over their pairs of keys. */
  lemma LookupFindsTheBestPrediction(
      h0: HistoryTable, h: HistoryTable, segIds: map<string, nat>, predict: Predictor,
      userSegments: seq<Segment>, userVisited: seq<seq<nat>>, adSegments: seq<Segment>, adVisited: seq<seq<nat>>,
      userFeatures: seq<Segment>, adFeatures: seq<Segment>, columns: seq<nat>, best: real)
    requires Enumerated(userSegments, userVisited) && Enumerated(adSegments, adVisited)
    requires var users, ads := KeyTable(userSegments, userVisited), KeyTable(adSegments, adVisited);
      Recorded(h0, h, segIds, users, ads, predict, AllPairs(users.Keys, ads.Keys))
    requires Ordered(userFeatures) && Fits(userFeatures, userSegments)
    requires Ordered(adFeatures) && Fits(adFeatures, adSegments)
    requires IdsOfKeys(segIds, Expanded([""], adFeatures), columns) && columns != []
    requires IsBest(h, Expanded([""], userFeatures), columns, best)
    ensures Expanded([""], userFeatures) != [] && Hit(h, Expanded([""], userFeatures)[0], columns[0])
    ensures BestPrediction(KeyTable(userSegments, userVisited), KeyTable(adSegments, adVisited), predict,
                           Expanded([""], userFeatures), Expanded([""], adFeatures), best)
  {
    var users, ads := KeyTable(userSegments, userVisited), KeyTable(adSegments, adVisited);
    hide KeyTable, Recorded, Expanded, IdsOfKeys, Fits, Ordered, Enumerated, Stored, IsBest, BestPrediction, AllPairs;
    var userKeys, adKeys := Expanded([""], userFeatures), Expanded([""], adFeatures);
    AllEnumerated(userFeatures, userSegments, userVisited);
    AllEnumerated(adFeatures, adSegments, adVisited);
    EnumeratedIsStored(h0, h, segIds, users, ads, predict, userKeys, adKeys);
    ExpandedNotEmpty(userFeatures);
    StoredIsFound(h, segIds, users, ads, predict, userKeys, adKeys, columns);
    StoredIsBest(h, segIds, users, ads, predict, userKeys, adKeys, columns, best);
  }
}
