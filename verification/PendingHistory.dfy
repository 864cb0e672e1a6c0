/** Predictions by need: the writes that the pending users and ads ask for, in order. */
module PendingHistory {
  import opened AdSegments
  import opened HistoryTables
  import opened SegmentExpansion
  import opened Sequences
  import opened UserFeatures
  import Strings

  datatype Write = Write(user: string, column: nat, value: real)

  /** A user whose lookups failed, and the ads they failed for. */
  datatype Pending = Pending(userInfo: seq<Feature>, docids: seq<nat>)

  ghost function AllWritten(h: HistoryTable, ws: seq<Write>): HistoryTable {
    if ws == [] then h
    else
      var last := ws[|ws| - 1];
      Written(AllWritten(h, ws[..|ws| - 1]), last.user, last.column, last.value)
  }

  lemma WriteLast(h: HistoryTable, ws: seq<Write>, w: Write)
    ensures AllWritten(h, ws + [w]) == Written(AllWritten(h, ws), w.user, w.column, w.value)
  {
    assert (ws + [w])[..|ws|] == ws;
  }

  lemma WriteNothing(h: HistoryTable)
    ensures AllWritten(h, []) == h
  {
  }

  lemma {:induction false} WrittenInTurn(h: HistoryTable, a: seq<Write>, b: seq<Write>)
    ensures AllWritten(AllWritten(h, a), b) == AllWritten(h, a + b)
    decreases |b|
  {
    hide AllWritten, Written;
    if b == [] {
      WriteNothing(AllWritten(h, a));
      assert a + b == a;
    } else {
      var front, last := b[..|b| - 1], b[|b| - 1];
      WrittenInTurn(h, a, front);
      WriteLast(h, a + front, last);
      WriteLast(AllWritten(h, a), front, last);
      LastOfBoth(a, b);
    }
  }

  lemma NoWrites(h: HistoryTable, ws: seq<Write>)
    ensures AllWritten(h, ws[..0]) == h
  {
  }

  lemma OneMoreWrite(h: HistoryTable, ws: seq<Write>, k: nat)
    requires k < |ws|
    ensures AllWritten(h, ws[..k + 1]) == Written(AllWritten(h, ws[..k]), ws[k].user, ws[k].column, ws[k].value)
  {
    assert ws[..k + 1] == ws[..k] + [ws[k]];
    WriteLast(h, ws[..k], ws[k]);
  }

  lemma NothingWritten(h: HistoryTable, parts: seq<seq<Write>>)
    ensures AllWritten(h, Concat(parts[..0])) == h
  {
    assert parts[..0] == [];
  }

  lemma WrittenMore(h: HistoryTable, parts: seq<seq<Write>>, k: nat)
    requires k < |parts|
    ensures AllWritten(h, Concat(parts[..k + 1])) == AllWritten(AllWritten(h, Concat(parts[..k])), parts[k])
  {
    ConcatTake(parts, k);
    WrittenInTurn(h, Concat(parts[..k]), parts[k]);
  }

  /** What is written to a cell stands there, unless another value is written to it later. */
  lemma {:induction false} LastWriteStands(h: HistoryTable, ws: seq<Write>, r: nat)
    requires r < |ws|
    requires forall q :: r < q < |ws| && ws[q].user == ws[r].user && ws[q].column == ws[r].column ==> ws[q].value == ws[r].value
    ensures Cell(AllWritten(h, ws), ws[r].user, ws[r].column, ws[r].value)
  {
    var front, last := ws[..|ws| - 1], ws[|ws| - 1];
    var h1 := AllWritten(h, front);
    WrittenRows(h1, last.user, last.column, last.value);
    WrittenKeys(h1, last.user, last.column, last.value);
    if r < |front| {
      LastWriteStands(h, front, r);
    }
  }

  /** Every write's cell is there afterwards. */
  lemma {:induction false} WritesAreHit(h: HistoryTable, ws: seq<Write>, r: nat)
    requires r < |ws|
    ensures Hit(AllWritten(h, ws), ws[r].user, ws[r].column)
  {
    var front, last := ws[..|ws| - 1], ws[|ws| - 1];
    var h1 := AllWritten(h, front);
    WrittenRows(h1, last.user, last.column, last.value);
    WrittenKeys(h1, last.user, last.column, last.value);
    if r < |front| {
      WritesAreHit(h, front, r);
    }
  }

  /** A cell that nothing was written to stands as before. */
  lemma {:induction false} OthersStand(h: HistoryTable, ws: seq<Write>, user: string, column: nat)
    requires Hit(h, user, column) && forall r :: 0 <= r < |ws| ==> ws[r].user != user || ws[r].column != column
    ensures Hit(AllWritten(h, ws), user, column) && AllWritten(h, ws)[user][column] == h[user][column]
  {
    if ws != [] {
      var front, last := ws[..|ws| - 1], ws[|ws| - 1];
      OthersStand(h, front, user, column);
      WrittenRows(AllWritten(h, front), last.user, last.column, last.value);
      WrittenKeys(AllWritten(h, front), last.user, last.column, last.value);
    }
  }

  /** A lookup that succeeded still succeeds. */
  lemma {:induction false} HitsStay(h: HistoryTable, ws: seq<Write>, user: string, column: nat)
    requires Hit(h, user, column)
    ensures Hit(AllWritten(h, ws), user, column)
  {
    if ws != [] {
      var front, last := ws[..|ws| - 1], ws[|ws| - 1];
      HitsStay(h, front, user, column);
      WrittenRows(AllWritten(h, front), last.user, last.column, last.value);
      WrittenKeys(AllWritten(h, front), last.user, last.column, last.value);
    }
  }

  // ----- the writes that are asked for

  /** The pending users after one more selection left some ads without a rate. */
  function PendingAfter(pending: seq<Pending>, userInfo: seq<Feature>, docids: seq<nat>): seq<Pending> {
    pending + if docids == [] then [] else [Pending(userInfo, docids)]
  }

  /** The features an ad key was enumerated with; none when it was not. */
  function FeaturesOf(ads: KeyList, ad: string): seq<Feature> {
    if ad in ads then ads[ad] else []
  }

  lemma PredictedWithStored(ads: KeyList, ad: string)
    ensures ad in ads ==> FeaturesOf(ads, ad) == ads[ad]
    ensures ad !in ads ==> FeaturesOf(ads, ad) == []
  {
  }

  /** One user key meets the ad keys of one ad. */
  ghost function KeyWrites(user: string, userInfo: seq<Feature>, ids: seq<nat>, names: map<nat, string>, ads: KeyList,
                           predict: Predictor): seq<Write>
    requires forall k :: 0 <= k < |ids| ==> ids[k] in names
  {
    seq(|ids|, k requires 0 <= k < |ids| => Write(user, ids[k], predict(userInfo, FeaturesOf(ads, names[ids[k]]))))
  }

  ghost predicate Named(adSegIds: seq<seq<nat>>, names: map<nat, string>) {
    forall d, k :: 0 <= d < |adSegIds| && 0 <= k < |adSegIds[d]| ==> adSegIds[d][k] in names
  }

  /** The stored names are nonempty, and theirs are the ids they are stored under. */
  ghost predicate NamesIds(segIds: map<string, nat>, names: map<nat, string>) {
    forall id :: id in names ==> names[id] != "" && names[id] in segIds && segIds[names[id]] == id
  }

  function NamesOf(ids: seq<nat>, names: map<nat, string>): seq<string>
    requires forall k :: 0 <= k < |ids| ==> ids[k] in names
  {
    seq(|ids|, k requires 0 <= k < |ids| => names[ids[k]])
  }

  lemma NamedMore(adSegIds: seq<seq<nat>>, names: map<nat, string>, id: nat, name: string)
    requires Named(adSegIds, names)
    ensures Named(adSegIds, names[id := name])
  {
  }

  function IdsOfAd(adSegIds: seq<seq<nat>>, docid: nat): seq<nat> {
    if docid < |adSegIds| then adSegIds[docid] else []
  }

  ghost function DocWrites(users: seq<string>, userInfo: seq<Feature>, docid: nat, adSegIds: seq<seq<nat>>,
                           names: map<nat, string>, ads: KeyList, predict: Predictor): seq<seq<Write>>
    requires Named(adSegIds, names)
  {
    seq(|users|, l requires 0 <= l < |users| => KeyWrites(users[l], userInfo, IdsOfAd(adSegIds, docid), names, ads, predict))
  }

  ghost function UserWrites(p: Pending, adSegIds: seq<seq<nat>>, names: map<nat, string>, ads: KeyList,
                            predict: Predictor): seq<seq<Write>>
    requires Named(adSegIds, names)
  {
    seq(|p.docids|, j requires 0 <= j < |p.docids| =>
      Concat(DocWrites(Expanded([""], Grouped(p.userInfo)), p.userInfo, p.docids[j], adSegIds, names, ads, predict)))
  }

  /** User by user, ad by ad, user key by user key, ad key by ad key. */
  ghost function PendingWrites(pending: seq<Pending>, adSegIds: seq<seq<nat>>, names: map<nat, string>, ads: KeyList,
                               predict: Predictor): seq<seq<Write>>
    requires Named(adSegIds, names)
  {
    seq(|pending|, i requires 0 <= i < |pending| => Concat(UserWrites(pending[i], adSegIds, names, ads, predict)))
  }

  /** Every key of a pending user and every id of an ad it is pending for is written. */
  lemma PendingIsWritten(pending: seq<Pending>, adSegIds: seq<seq<nat>>, names: map<nat, string>, ads: KeyList,
                         predict: Predictor, i: nat, j: nat, l: nat, k: nat)
    requires Named(adSegIds, names) && i < |pending| && j < |pending[i].docids| && pending[i].docids[j] < |adSegIds|
    requires l < |Expanded([""], Grouped(pending[i].userInfo))| && k < |adSegIds[pending[i].docids[j]]|
    ensures var id := adSegIds[pending[i].docids[j]][k];
      Write(Expanded([""], Grouped(pending[i].userInfo))[l], id, predict(pending[i].userInfo, FeaturesOf(ads, names[id])))
        in Concat(PendingWrites(pending, adSegIds, names, ads, predict))
  {
    hide Concat, Expanded, Grouped;
    var p := pending[i];
    var users, ids := Expanded([""], Grouped(p.userInfo)), adSegIds[p.docids[j]];
    var w := Write(users[l], ids[k], predict(p.userInfo, FeaturesOf(ads, names[ids[k]])));
    var keyWrites := KeyWrites(users[l], p.userInfo, ids, names, ads, predict);
    assert keyWrites[k] == w;
    var docWrites := DocWrites(users, p.userInfo, p.docids[j], adSegIds, names, ads, predict);
    var userWrites := UserWrites(p, adSegIds, names, ads, predict);
    var writes := PendingWrites(pending, adSegIds, names, ads, predict);
    assert docWrites[l] == keyWrites && userWrites[j] == Concat(docWrites) && writes[i] == Concat(userWrites);
    ConcatMember(docWrites, w);
    ConcatMember(userWrites, w);
    ConcatMember(writes, w);
  }

  /** After the pending writes, a lookup of any of these pairs succeeds. */
  lemma PendingIsFound(h: HistoryTable, pending: seq<Pending>, adSegIds: seq<seq<nat>>, names: map<nat, string>, ads: KeyList,
                       predict: Predictor, i: nat, j: nat, l: nat, k: nat)
    requires Named(adSegIds, names) && i < |pending| && j < |pending[i].docids| && pending[i].docids[j] < |adSegIds|
    requires l < |Expanded([""], Grouped(pending[i].userInfo))| && k < |adSegIds[pending[i].docids[j]]|
    ensures Hit(AllWritten(h, Concat(PendingWrites(pending, adSegIds, names, ads, predict))),
                Expanded([""], Grouped(pending[i].userInfo))[l], adSegIds[pending[i].docids[j]][k])
  {
    hide Concat, Expanded, Grouped, PendingWrites, AllWritten;
    PendingIsWritten(pending, adSegIds, names, ads, predict, i, j, l, k);
    var ws := Concat(PendingWrites(pending, adSegIds, names, ads, predict));
    var id := adSegIds[pending[i].docids[j]][k];
    var w := Write(Expanded([""], Grouped(pending[i].userInfo))[l], id, predict(pending[i].userInfo, FeaturesOf(ads, names[id])));
    var r :| 0 <= r < |ws| && ws[r] == w;
    WritesAreHit(h, ws, r);
  }

  // ----- what the user served last finds

  /** Every write of a user's turn holds the prediction for that user and the written column. */
  ghost predicate Predicts(ws: seq<Write>, userInfo: seq<Feature>, names: map<nat, string>, ads: KeyList, predict: Predictor) {
    forall r :: 0 <= r < |ws| ==>
      ws[r].column in names && ws[r].value == predict(userInfo, FeaturesOf(ads, names[ws[r].column]))
  }

  lemma ConcatPredicts(parts: seq<seq<Write>>, userInfo: seq<Feature>, names: map<nat, string>, ads: KeyList, predict: Predictor)
    requires forall k :: 0 <= k < |parts| ==> Predicts(parts[k], userInfo, names, ads, predict)
    ensures Predicts(Concat(parts), userInfo, names, ads, predict)
  {
    forall r | 0 <= r < |Concat(parts)|
      ensures var w := Concat(parts)[r]; w.column in names && w.value == predict(userInfo, FeaturesOf(ads, names[w.column]))
    {
      var w := Concat(parts)[r];
      ConcatMember(parts, w);
      var k :| 0 <= k < |parts| && w in parts[k];
    }
  }

  lemma UserPredicts(p: Pending, adSegIds: seq<seq<nat>>, names: map<nat, string>, ads: KeyList, predict: Predictor)
    requires Named(adSegIds, names)
    ensures Predicts(Concat(UserWrites(p, adSegIds, names, ads, predict)), p.userInfo, names, ads, predict)
  {
    hide Concat, Expanded, Grouped;
    var users := Expanded([""], Grouped(p.userInfo));
    forall j | 0 <= j < |p.docids|
      ensures Predicts(UserWrites(p, adSegIds, names, ads, predict)[j], p.userInfo, names, ads, predict)
    {
      ConcatPredicts(DocWrites(users, p.userInfo, p.docids[j], adSegIds, names, ads, predict), p.userInfo, names, ads, predict);
    }
    ConcatPredicts(UserWrites(p, adSegIds, names, ads, predict), p.userInfo, names, ads, predict);
  }

  /** The user served last has its own predictions in every cell of its keys and its ads' ids. */
  lemma LastUserStands(h: HistoryTable, pending: seq<Pending>, adSegIds: seq<seq<nat>>, names: map<nat, string>, ads: KeyList,
                       predict: Predictor, j: nat, l: nat, k: nat)
    requires Named(adSegIds, names) && pending != []
    requires var p := pending[|pending| - 1];
      && j < |p.docids| && p.docids[j] < |adSegIds|
      && l < |Expanded([""], Grouped(p.userInfo))| && k < |adSegIds[p.docids[j]]|
    ensures var p := pending[|pending| - 1];
      var id := adSegIds[p.docids[j]][k];
      Cell(AllWritten(h, Concat(PendingWrites(pending, adSegIds, names, ads, predict))),
           Expanded([""], Grouped(p.userInfo))[l], id, predict(p.userInfo, FeaturesOf(ads, names[id])))
  {
    hide Expanded, Grouped, UserWrites, AllWritten, Cell;
    var n, p := |pending| - 1, pending[|pending| - 1];
    var all := PendingWrites(pending, adSegIds, names, ads, predict);
    var mine := Concat(UserWrites(p, adSegIds, names, ads, predict));
    assert all == all[..n] + [mine] && [p][0] == p;
    assert PendingWrites([p], adSegIds, names, ads, predict) == [mine] && Concat([mine]) == [] + mine;
    WrittenInTurn(h, Concat(all[..n]), mine);
    PendingIsWritten([p], adSegIds, names, ads, predict, 0, j, l, k);
    var id := adSegIds[p.docids[j]][k];
    var w := Write(Expanded([""], Grouped(p.userInfo))[l], id, predict(p.userInfo, FeaturesOf(ads, names[id])));
    var r :| 0 <= r < |mine| && mine[r] == w;
    UserPredicts(p, adSegIds, names, ads, predict);
    LastWriteStands(AllWritten(h, Concat(all[..n])), mine, r);
  }

  /** So looking up this user and one of its ads finds the best of these predictions over the ad's keys, or
      0 when none is positive. */
  lemma LastUserFindsTheBest(h: HistoryTable, pending: seq<Pending>, adSegIds: seq<seq<nat>>, names: map<nat, string>,
                             ads: KeyList, predict: Predictor, j: nat, best: real)
    requires Named(adSegIds, names) && pending != []
    requires var p := pending[|pending| - 1];
      && j < |p.docids| && p.docids[j] < |adSegIds| && Expanded([""], Grouped(p.userInfo)) != []
      && IsBest(AllWritten(h, Concat(PendingWrites(pending, adSegIds, names, ads, predict))),
                Expanded([""], Grouped(p.userInfo)), adSegIds[p.docids[j]], best)
    ensures best >= 0.0
    ensures var p := pending[|pending| - 1];
      var ids := adSegIds[p.docids[j]];
      && (forall k :: 0 <= k < |ids| ==> predict(p.userInfo, FeaturesOf(ads, names[ids[k]])) <= best)
      && (best > 0.0 ==> exists k :: 0 <= k < |ids| && predict(p.userInfo, FeaturesOf(ads, names[ids[k]])) == best)
  {
    hide Expanded, Grouped, PendingWrites, Concat, AllWritten;
    var p := pending[|pending| - 1];
    var ids, users := adSegIds[p.docids[j]], Expanded([""], Grouped(p.userInfo));
    var h1 := AllWritten(h, Concat(PendingWrites(pending, adSegIds, names, ads, predict)));
    forall l, k | 0 <= l < |users| && 0 <= k < |ids|
      ensures Cell(h1, users[l], ids[k], predict(p.userInfo, FeaturesOf(ads, names[ids[k]])))
    {
      LastUserStands(h, pending, adSegIds, names, ads, predict, j, l, k);
    }
    assert forall k :: 0 <= k < |ids| ==> Hit(h1, users[0], ids[k]);
  }

  // ----- whose predictions stand

  /** Writes to the same cell write the same value. */
  ghost predicate Agree(ws: seq<Write>) {
    forall q, r :: 0 <= q < |ws| && 0 <= r < |ws| && ws[q].user == ws[r].user && ws[q].column == ws[r].column ==>
      ws[q].value == ws[r].value
  }

  ghost predicate AllStand(h: HistoryTable, ws: seq<Write>) {
    forall r :: 0 <= r < |ws| ==> Cell(h, ws[r].user, ws[r].column, ws[r].value)
  }

  /** Every written prediction stands in the end exactly when no two of them disagree about a cell. */
  lemma AllStandExactlyWhenTheyAgree(h: HistoryTable, ws: seq<Write>)
    ensures AllStand(AllWritten(h, ws), ws) <==> Agree(ws)
  {
    if Agree(ws) {
      forall r | 0 <= r < |ws|
        ensures Cell(AllWritten(h, ws), ws[r].user, ws[r].column, ws[r].value)
      {
        LastWriteStands(h, ws, r);
      }
    }
  }

  /** A pending user has the key, and one of its ads the id. */
  ghost predicate AsksFor(p: Pending, adSegIds: seq<seq<nat>>, key: string, id: nat) {
    && key in Expanded([""], Grouped(p.userInfo))
    && exists j :: 0 <= j < |p.docids| && id in IdsOfAd(adSegIds, p.docids[j])
  }

  function Prediction(p: Pending, names: map<nat, string>, ads: KeyList, predict: Predictor, id: nat): real
    requires id in names
  {
    predict(p.userInfo, FeaturesOf(ads, names[id]))
  }

  /** The cells that a pending user asked for hold that user's own predictions. */
  ghost predicate HasItsOwn(h: HistoryTable, p: Pending, adSegIds: seq<seq<nat>>, names: map<nat, string>, ads: KeyList,
                            predict: Predictor)
  {
    forall key, id :: AsksFor(p, adSegIds, key, id) ==>
      id in names && Cell(h, key, id, Prediction(p, names, ads, predict, id))
  }

  /** Users that ask for the same cell are predicted alike there. */
  ghost predicate PredictedAlike(pending: seq<Pending>, adSegIds: seq<seq<nat>>, names: map<nat, string>, ads: KeyList,
                                 predict: Predictor)
  {
    forall a, b, key, id ::
      0 <= a < |pending| && 0 <= b < |pending| && AsksFor(pending[a], adSegIds, key, id) && AsksFor(pending[b], adSegIds, key, id) ==>
        id in names && Prediction(pending[a], names, ads, predict, id) == Prediction(pending[b], names, ads, predict, id)
  }

  lemma AskedIsNamed(p: Pending, adSegIds: seq<seq<nat>>, names: map<nat, string>, key: string, id: nat)
    requires Named(adSegIds, names) && AsksFor(p, adSegIds, key, id)
    ensures id in names
  {
    hide Expanded, Grouped;
    var j :| 0 <= j < |p.docids| && id in IdsOfAd(adSegIds, p.docids[j]);
  }

  /** What is asked for is written. */
  lemma AskedIsWritten(pending: seq<Pending>, adSegIds: seq<seq<nat>>, names: map<nat, string>, ads: KeyList,
                       predict: Predictor, i: nat, key: string, id: nat)
    requires Named(adSegIds, names) && i < |pending| && AsksFor(pending[i], adSegIds, key, id)
    ensures id in names
    ensures Write(key, id, Prediction(pending[i], names, ads, predict, id)) in Concat(PendingWrites(pending, adSegIds, names, ads, predict))
  {
    hide Expanded, Grouped, PendingWrites, Concat;
    AskedIsNamed(pending[i], adSegIds, names, key, id);
    var keys := Expanded([""], Grouped(pending[i].userInfo));
    var l :| 0 <= l < |keys| && keys[l] == key;
    var j :| 0 <= j < |pending[i].docids| && id in IdsOfAd(adSegIds, pending[i].docids[j]);
    var ids := adSegIds[pending[i].docids[j]];
    var k :| 0 <= k < |ids| && ids[k] == id;
    PendingIsWritten(pending, adSegIds, names, ads, predict, i, j, l, k);
  }

  lemma OneOf<T>(parts: seq<seq<T>>, x: T) returns (k: nat)
    requires x in Concat(parts)
    ensures k < |parts| && x in parts[k]
  {
    ConcatMember(parts, x);
    k :| 0 <= k < |parts| && x in parts[k];
  }

  /** What is written was asked for by a user, with that user's prediction. */
  lemma WrittenIsAsked(pending: seq<Pending>, adSegIds: seq<seq<nat>>, names: map<nat, string>, ads: KeyList,
                       predict: Predictor, w: Write) returns (i: nat)
    requires Named(adSegIds, names) && w in Concat(PendingWrites(pending, adSegIds, names, ads, predict))
    ensures i < |pending| && AsksFor(pending[i], adSegIds, w.user, w.column)
    ensures w.column in names && w.value == Prediction(pending[i], names, ads, predict, w.column)
  {
    hide Expanded, Grouped, Concat;
    i := OneOf(PendingWrites(pending, adSegIds, names, ads, predict), w);
    var p := pending[i];
    var users := Expanded([""], Grouped(p.userInfo));
    assert w in Concat(UserWrites(p, adSegIds, names, ads, predict));
    var j := OneOf(UserWrites(p, adSegIds, names, ads, predict), w);
    assert w in Concat(DocWrites(users, p.userInfo, p.docids[j], adSegIds, names, ads, predict));
    var l := OneOf(DocWrites(users, p.userInfo, p.docids[j], adSegIds, names, ads, predict), w);
    var ids := IdsOfAd(adSegIds, p.docids[j]);
    var k :| 0 <= k < |ids| && KeyWrites(users[l], p.userInfo, ids, names, ads, predict)[k] == w;
    assert w.column == ids[k] && w.user == users[l];
  }

  /** After the pending users were served every one of them has its own predictions: exactly when users that
      share a key and an ad id are predicted alike there. */
  lemma EveryUserHasItsOwnExactly(h: HistoryTable, pending: seq<Pending>, adSegIds: seq<seq<nat>>, names: map<nat, string>,
                                  ads: KeyList, predict: Predictor)
    requires Named(adSegIds, names)
    ensures var h' := AllWritten(h, Concat(PendingWrites(pending, adSegIds, names, ads, predict)));
      (forall i :: 0 <= i < |pending| ==> HasItsOwn(h', pending[i], adSegIds, names, ads, predict))
        <==> PredictedAlike(pending, adSegIds, names, ads, predict)
  {
    hide AsksFor, PendingWrites, Concat, AllWritten, Prediction, Named;
    var ws := Concat(PendingWrites(pending, adSegIds, names, ads, predict));
    var h' := AllWritten(h, ws);
    if PredictedAlike(pending, adSegIds, names, ads, predict) {
      forall q, r | 0 <= q < |ws| && 0 <= r < |ws| && ws[q].user == ws[r].user && ws[q].column == ws[r].column
        ensures ws[q].value == ws[r].value
      {
        var a := WrittenIsAsked(pending, adSegIds, names, ads, predict, ws[q]);
        var b := WrittenIsAsked(pending, adSegIds, names, ads, predict, ws[r]);
      }
      AllStandExactlyWhenTheyAgree(h, ws);
      forall i, key, id | 0 <= i < |pending| && AsksFor(pending[i], adSegIds, key, id)
        ensures id in names && Cell(h', key, id, Prediction(pending[i], names, ads, predict, id))
      {
        AskedIsWritten(pending, adSegIds, names, ads, predict, i, key, id);
        var w := Write(key, id, Prediction(pending[i], names, ads, predict, id));
        var r :| 0 <= r < |ws| && ws[r] == w;
      }
    }
    if forall i :: 0 <= i < |pending| ==> HasItsOwn(h', pending[i], adSegIds, names, ads, predict) {
      forall a, b, key, id | 0 <= a < |pending| && 0 <= b < |pending|
        && AsksFor(pending[a], adSegIds, key, id) && AsksFor(pending[b], adSegIds, key, id)
        ensures id in names && Prediction(pending[a], names, ads, predict, id) == Prediction(pending[b], names, ads, predict, id)
      {
        assert HasItsOwn(h', pending[a], adSegIds, names, ads, predict) && HasItsOwn(h', pending[b], adSegIds, names, ads, predict);
      }
    }
  }

  /** Two users of one age, the second with two interests as well: both fall under the key of the age alone,
      and a predictor that counts features leaves the first user the second one's prediction there. */
  lemma SharedKeyIsOverwritten(h: HistoryTable)
    ensures var first, second := Pending([("age", "x")], [0]), Pending([("age", "x"), ("age", "y")], [0]);
      var adSegIds, names, ads, predict := [[1]], map[1 := "a-"], map[], (user, ad) => |user| as real;
      && Named(adSegIds, names)
      && !HasItsOwn(AllWritten(h, Concat(PendingWrites([first, second], adSegIds, names, ads, predict))),
                    first, adSegIds, names, ads, predict)
  {
    SharedKey();
    hide Expanded, Grouped, AllWritten, PendingWrites, Concat;
    var first, second := Pending([("age", "x")], [0]), Pending([("age", "x"), ("age", "y")], [0]);
    var adSegIds: seq<seq<nat>>, names: map<nat, string>, ads: KeyList := [[1]], map[1 := "a-"], map[];
    var predict: Predictor := (user, ad) => |user| as real;
    assert adSegIds[0] == [1] && 1 in adSegIds[0] && first.docids[0] == 0 && second.docids[0] == 0;
    assert 1 in IdsOfAd(adSegIds, first.docids[0]) && 1 in IdsOfAd(adSegIds, second.docids[0]);
    assert AsksFor(first, adSegIds, "x-", 1) && AsksFor(second, adSegIds, "x-", 1);
    assert [first, second][1] == second;
    var keys := Expanded([""], Grouped(second.userInfo));
    var l :| 0 <= l < |keys| && keys[l] == "x-";
    LastUserStands(h, [first, second], adSegIds, names, ads, predict, 0, l, 0);
  }

  lemma SharedKey()
    ensures "x-" in Expanded([""], Grouped([("age", "x")])) && "x-" in Expanded([""], Grouped([("age", "x"), ("age", "y")]))
  {
    var one, two := [("age", "x")], [("age", "x"), ("age", "y")];
    Strings.LessIrreflexive("age");
    assert one[..0] == [] && two[..1] == one;
    assert Grouped(one) == [Segment("age", ["x"])];
    assert two[1] == ("age", "y") && Grouped(two) == Pushed(Grouped(one), "age", "y");
    assert Grouped(two) == [Segment("age", ["x"] + ["y"])] && ["x"] + ["y"] == ["x", "y"];
    KeyOfFirstValue("age", ["x"]);
    KeyOfFirstValue("age", ["x", "y"]);
  }

  lemma KeyOfFirstValue(name: string, values: seq<string>)
    requires values != [] && values[0] == "x"
    ensures "x-" in Expanded([""], [Segment(name, values)])
  {
    assert [Segment(name, values)][..0] == [];
    assert [""][0] + (values[0] + LINKER) == "x-";
    ExpandedByIsAllPairs([""], values, "x-");
  }
}
