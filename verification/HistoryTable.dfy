/** The history click-through table: rows by user key, columns by the id of the ad key, and what writing
    predictions into it does. */
module HistoryTables {
  import opened AdSegments
  import opened Sequences

  /** Predicts the click-through rate of user features meeting ad features. */
  type Predictor = (seq<Feature>, seq<Feature>) -> real

  type KeyList = map<string, seq<Feature>>

  type HistoryTable = map<string, seq<real>>

  // ----- segment ids

  /** Ids identify names, and 0 is never given out. */
  ghost predicate Assigned(segIds: map<string, nat>) {
    && (forall name :: name in segIds ==> 1 <= segIds[name] <= |segIds|)
    && (forall a, b :: a in segIds && b in segIds && segIds[a] == segIds[b] ==> a == b)
  }

  lemma AssignKeepsIds(segIds: map<string, nat>, name: string)
    requires Assigned(segIds) && name !in segIds
    ensures Assigned(segIds[name := |segIds| + 1])
  {
    assert segIds[name := |segIds| + 1].Keys == segIds.Keys + {name};
  }

  /** The column of an ad key; the empty key takes column 0. */
  function SegOf(segIds: map<string, nat>, key: string): nat
    requires key == "" || key in segIds
  {
    if key == "" then 0 else segIds[key]
  }

  ghost predicate Extends(segIds0: map<string, nat>, segIds: map<string, nat>) {
    forall name :: name in segIds0 ==> name in segIds && segIds[name] == segIds0[name]
  }

  // ----- the table

  ghost function RowOf(h: HistoryTable, key: string): seq<real> {
    if key in h then h[key] else []
  }

  function Resized(row: seq<real>, size: nat): (r: seq<real>)
    requires size >= |row|
    ensures |r| == size
  {
    row + seq(size - |row|, _ => 0.0)
  }

  ghost predicate Cell(h: HistoryTable, user: string, column: nat, value: real) {
    user in h && column < |h[user]| && h[user][column] == value
  }

  /** Every written pair of a user key and an ad key has its own prediction. */
  ghost predicate PairsWritten(h: HistoryTable, segIds: map<string, nat>, users: KeyList, ads: KeyList,
                               predict: Predictor, done: set<(string, string)>)
  {
    forall p :: p in done ==>
      && p.0 in users && p.1 in ads && (p.1 == "" || p.1 in segIds)
      && Cell(h, p.0, SegOf(segIds, p.1), predict(users[p.0], ads[p.1]))
  }

  ghost predicate ColumnWritten(segIds: map<string, nat>, done: set<(string, string)>, user: string, column: nat) {
    exists p :: p in done && p.0 == user && (p.1 == "" || p.1 in segIds) && SegOf(segIds, p.1) == column
  }

  ghost function UsersOf(done: set<(string, string)>): set<string> {
    set p | p in done :: p.0
  }

  ghost predicate RowFits(h0: HistoryTable, h: HistoryTable, segIds: map<string, nat>, done: set<(string, string)>, user: string) {
    && user in h && |h[user]| >= |RowOf(h0, user)|
    && (|h[user]| == |RowOf(h0, user)| || ColumnWritten(segIds, done, user, |h[user]| - 1))
  }

  /** Rows appear only for written pairs, and are just long enough for them. */
  ghost predicate RowsFit(h0: HistoryTable, h: HistoryTable, segIds: map<string, nat>, done: set<(string, string)>) {
    h.Keys == h0.Keys + UsersOf(done) && forall user :: user in h ==> RowFits(h0, h, segIds, done, user)
  }

  /** A column of no written pair is as it was, or 0. */
  ghost predicate RestAsBefore(h0: HistoryTable, h: HistoryTable, segIds: map<string, nat>, done: set<(string, string)>) {
    forall user, i: nat :: user in h && i < |h[user]| && !ColumnWritten(segIds, done, user, i) ==>
      h[user][i] == if i < |RowOf(h0, user)| then RowOf(h0, user)[i] else 0.0
  }

  /** The table after the predictions of these pairs were written. */
  ghost predicate Recorded(h0: HistoryTable, h: HistoryTable, segIds: map<string, nat>, users: KeyList, ads: KeyList,
                           predict: Predictor, done: set<(string, string)>)
  {
    && PairsWritten(h, segIds, users, ads, predict, done)
    && RowsFit(h0, h, segIds, done)
    && RestAsBefore(h0, h, segIds, done)
  }

  lemma NothingRecorded(h: HistoryTable, segIds: map<string, nat>, users: KeyList, ads: KeyList, predict: Predictor)
    ensures Recorded(h, h, segIds, users, ads, predict, {})
  {
  }

  lemma RecordedExtends(h0: HistoryTable, h: HistoryTable, segIds0: map<string, nat>, segIds: map<string, nat>,
                        users: KeyList, ads: KeyList, predict: Predictor, done: set<(string, string)>)
    requires Recorded(h0, h, segIds0, users, ads, predict, done) && Extends(segIds0, segIds)
    ensures Recorded(h0, h, segIds, users, ads, predict, done)
  {
    assert forall p :: p in done ==> SegOf(segIds, p.1) == SegOf(segIds0, p.1);
    forall user, column: nat
      ensures ColumnWritten(segIds0, done, user, column) <==> ColumnWritten(segIds, done, user, column)
    {
    }
  }

  /** Writes one prediction, lengthening the row with zeros where it is too short. */
  function Written(h: HistoryTable, user: string, column: nat, value: real): HistoryTable {
    var row := if user in h then h[user] else [];
    h[user := (if column >= |row| then Resized(row, column + 1) else row)[column := value]]
  }

  lemma ColumnsMore(segIds: map<string, nat>, done: set<(string, string)>, user: string, ad: string)
    requires ad == "" || ad in segIds
    ensures forall u, i: nat :: ColumnWritten(segIds, done + {(user, ad)}, u, i) <==>
      ColumnWritten(segIds, done, u, i) || (u == user && i == SegOf(segIds, ad))
  {
    forall u, i: nat
      ensures ColumnWritten(segIds, done + {(user, ad)}, u, i) <==>
        ColumnWritten(segIds, done, u, i) || (u == user && i == SegOf(segIds, ad))
    {
      if u == user && i == SegOf(segIds, ad) {
        assert (user, ad) in done + {(user, ad)};
      }
    }
  }

  /** Another pair's prediction does not overwrite a written one: ids tell ad keys apart. */
  lemma PairsMore(h: HistoryTable, segIds: map<string, nat>, users: KeyList, ads: KeyList, predict: Predictor,
                  done: set<(string, string)>, user: string, ad: string)
    requires Assigned(segIds) && PairsWritten(h, segIds, users, ads, predict, done)
    requires user in users && ad in ads && (ad == "" || ad in segIds) && (user, ad) !in done
    ensures PairsWritten(Written(h, user, SegOf(segIds, ad), predict(users[user], ads[ad])), segIds, users, ads, predict,
                         done + {(user, ad)})
  {
    var h' := Written(h, user, SegOf(segIds, ad), predict(users[user], ads[ad]));
    forall p | p in done + {(user, ad)}
      ensures && p.0 in users && p.1 in ads && (p.1 == "" || p.1 in segIds)
              && Cell(h', p.0, SegOf(segIds, p.1), predict(users[p.0], ads[p.1]))
    {
      if p in done {
        assert p.0 in users && p.1 in ads;
        if p.0 == user {
          assert p.1 != ad;
          assert SegOf(segIds, p.1) != SegOf(segIds, ad);
        }
      }
    }
  }

  lemma UsersMore(done: set<(string, string)>, user: string, ad: string)
    ensures UsersOf(done + {(user, ad)}) == UsersOf(done) + {user}
  {
    var more := done + {(user, ad)};
    assert (user, ad) in more;
    forall u
      ensures u in UsersOf(more) <==> u in UsersOf(done) + {user}
    {
      if u in UsersOf(done) {
        var p :| p in done && p.0 == u;
        assert p in more;
      }
    }
  }

  lemma WrittenKeys(h: HistoryTable, user: string, column: nat, value: real)
    ensures Written(h, user, column, value).Keys == h.Keys + {user}
  {
  }

  lemma WrittenRows(h: HistoryTable, user: string, column: nat, value: real)
    ensures user in Written(h, user, column, value)
    ensures forall u :: u in h && u != user ==> Written(h, user, column, value)[u] == h[u]
    ensures var row := Written(h, user, column, value)[user];
      && |row| == Max(|RowOf(h, user)|, column + 1) && row[column] == value
      && forall i :: 0 <= i < |row| && i != column ==> row[i] == if i < |RowOf(h, user)| then RowOf(h, user)[i] else 0.0
  {
  }

  lemma RowFitsMore(h0: HistoryTable, h: HistoryTable, segIds: map<string, nat>, done: set<(string, string)>,
                    more: set<(string, string)>, user: string, ad: string, value: real, u: string)
    requires ad == "" || ad in segIds
    requires u in Written(h, user, SegOf(segIds, ad), value)
    requires u in h0 ==> u in h
    requires u in h ==> RowFits(h0, h, segIds, done, u)
    requires forall i: nat :: ColumnWritten(segIds, more, u, i) <==>
      ColumnWritten(segIds, done, u, i) || (u == user && i == SegOf(segIds, ad))
    ensures RowFits(h0, Written(h, user, SegOf(segIds, ad), value), segIds, more, u)
  {
    WrittenRows(h, user, SegOf(segIds, ad), value);
    hide ColumnWritten, Written;
  }

  lemma RowsMore(h0: HistoryTable, h: HistoryTable, segIds: map<string, nat>, done: set<(string, string)>,
                 user: string, ad: string, value: real)
    requires ad == "" || ad in segIds
    requires RowsFit(h0, h, segIds, done)
    ensures RowsFit(h0, Written(h, user, SegOf(segIds, ad), value), segIds, done + {(user, ad)})
  {
    ColumnsMore(segIds, done, user, ad);
    UsersMore(done, user, ad);
    WrittenKeys(h, user, SegOf(segIds, ad), value);
    hide ColumnWritten, UsersOf, Written, RowFits, SegOf;
    var h' := Written(h, user, SegOf(segIds, ad), value);
    forall u | u in h'
      ensures RowFits(h0, h', segIds, done + {(user, ad)}, u)
    {
      RowFitsMore(h0, h, segIds, done, done + {(user, ad)}, user, ad, value, u);
    }
  }

  lemma RestMore(h0: HistoryTable, h: HistoryTable, segIds: map<string, nat>, done: set<(string, string)>,
                 user: string, ad: string, value: real)
    requires ad == "" || ad in segIds
    requires h0.Keys <= h.Keys && RestAsBefore(h0, h, segIds, done)
    requires forall u :: u in h0 ==> |h[u]| >= |h0[u]|
    ensures RestAsBefore(h0, Written(h, user, SegOf(segIds, ad), value), segIds, done + {(user, ad)})
  {
    ColumnsMore(segIds, done, user, ad);
    WrittenRows(h, user, SegOf(segIds, ad), value);
    hide ColumnWritten, Written;
  }

  /** The highest stored prediction over the pairs, or 0 when none is positive. */
  ghost predicate IsBest(h: HistoryTable, users: seq<string>, columns: seq<nat>, best: real) {
    && best >= 0.0
    && (forall i, j :: 0 <= i < |users| && 0 <= j < |columns| && Hit(h, users[i], columns[j]) ==>
         h[users[i]][columns[j]] <= best)
    && (best == 0.0 || exists i, j ::
         0 <= i < |users| && 0 <= j < |columns| && Hit(h, users[i], columns[j]) && h[users[i]][columns[j]] == best)
  }

  ghost predicate Hit(h: HistoryTable, user: string, column: nat) {
    user in h && column < |h[user]|
  }

  /** A lookup succeeds: there is nothing to look up, or some row reaches some column. */
  ghost predicate Found(h: HistoryTable, users: seq<string>, columns: seq<nat>) {
    columns == [] || exists i, j :: 0 <= i < |users| && 0 <= j < |columns| && Hit(h, users[i], columns[j])
  }

  // ----- ids of keys

  lemma ExtendsItself(segIds: map<string, nat>)
    ensures Extends(segIds, segIds)
  {
  }

  lemma ExtendsFurther(a: map<string, nat>, b: map<string, nat>, c: map<string, nat>)
    requires Extends(a, b) && Extends(b, c)
    ensures Extends(a, c)
  {
  }

  /** The ids are those of the nonempty keys, in order. */
  ghost predicate IdsOfKeys(segIds: map<string, nat>, keys: seq<string>, ids: seq<nat>)
    decreases |keys|
  {
    if keys == [] then ids == []
    else
      var front, last := keys[..|keys| - 1], keys[|keys| - 1];
      if last == "" then IdsOfKeys(segIds, front, ids)
      else ids != [] && IdsOfKeys(segIds, front, ids[..|ids| - 1]) && last in segIds && ids[|ids| - 1] == segIds[last]
  }

  lemma {:induction false} IdsExtend(segIds0: map<string, nat>, segIds: map<string, nat>, keys: seq<string>, ids: seq<nat>)
    requires IdsOfKeys(segIds0, keys, ids) && Extends(segIds0, segIds)
    ensures IdsOfKeys(segIds, keys, ids)
    decreases |keys|
  {
    if keys != [] {
      if keys[|keys| - 1] == "" {
        IdsExtend(segIds0, segIds, keys[..|keys| - 1], ids);
      } else {
        IdsExtend(segIds0, segIds, keys[..|keys| - 1], ids[..|ids| - 1]);
      }
    }
  }

  lemma NoIds(segIds: map<string, nat>)
    ensures IdsOfKeys(segIds, [], [])
  {
  }

  lemma IdsMore(segIds0: map<string, nat>, segIds: map<string, nat>, keys: seq<string>, j: nat, ids: seq<nat>, more: seq<nat>)
    requires j < |keys| && IdsOfKeys(segIds0, keys[..j], ids) && Extends(segIds0, segIds)
    requires if keys[j] == "" then more == ids else keys[j] in segIds && more == ids + [segIds[keys[j]]]
    ensures IdsOfKeys(segIds, keys[..j + 1], more)
  {
    assert keys[..j + 1][..j] == keys[..j];
    IdsExtend(segIds0, segIds, keys[..j], ids);
    if keys[j] != "" {
      assert more[..|more| - 1] == ids;
    }
  }

  /** Each id is the id of a nonempty key. */
  lemma {:induction false} IdNamesKey(segIds: map<string, nat>, keys: seq<string>, ids: seq<nat>, j: nat) returns (key: string)
    requires IdsOfKeys(segIds, keys, ids) && j < |ids|
    ensures key in keys && key != "" && key in segIds && ids[j] == segIds[key]
    decreases |keys|
  {
    var front, last := keys[..|keys| - 1], keys[|keys| - 1];
    if last == "" {
      key := IdNamesKey(segIds, front, ids, j);
    } else if j == |ids| - 1 {
      key := last;
    } else {
      key := IdNamesKey(segIds, front, ids[..|ids| - 1], j);
    }
  }

  lemma RecordOne(h0: HistoryTable, h: HistoryTable, segIds: map<string, nat>, users: KeyList, ads: KeyList,
                  predict: Predictor, done: set<(string, string)>, user: string, ad: string)
    requires Assigned(segIds) && Recorded(h0, h, segIds, users, ads, predict, done)
    requires user in users && ad in ads && (ad == "" || ad in segIds) && (user, ad) !in done
    ensures Recorded(h0, Written(h, user, SegOf(segIds, ad), predict(users[user], ads[ad])), segIds, users, ads, predict,
                     done + {(user, ad)})
  {
    hide PairsWritten, RestAsBefore, Written;
    PairsMore(h, segIds, users, ads, predict, done, user, ad);
    RowsMore(h0, h, segIds, done, user, ad, predict(users[user], ads[ad]));
    assert forall u :: u in h0 ==> RowFits(h0, h, segIds, done, u);
    RestMore(h0, h, segIds, done, user, ad, predict(users[user], ads[ad]));
  }

  ghost function AllPairs(users: set<string>, ads: set<string>): set<(string, string)> {
    set user, ad | user in users && ad in ads :: (user, ad)
  }

  lemma AllPairs0(users: set<string>, user: string, ads: set<string>)
    ensures AllPairs(users, ads) == AllPairs(users, ads) + AllPairs({user}, ads - ads)
  {
  }

  lemma AdDone(users: set<string>, user: string, ads: set<string>, todo: set<string>, ad: string)
    requires ad in todo && todo <= ads
    ensures AllPairs(users, ads) + AllPairs({user}, ads - todo) + {(user, ad)} ==
            AllPairs(users, ads) + AllPairs({user}, ads - (todo - {ad}))
  {
  }

  lemma UserDone(users: set<string>, todo: set<string>, user: string, ads: set<string>)
    requires user in todo && todo <= users
    ensures AllPairs(users - todo, ads) + AllPairs({user}, ads - {}) == AllPairs(users - (todo - {user}), ads)
  {
  }

  /** The best of one row's columns and a best found before. */
  ghost predicate BestSoFar(row: seq<real>, columns: seq<nat>, j: nat, before: real, best: real)
    requires j <= |columns|
  {
    && best >= before
    && (forall q :: 0 <= q < j && columns[q] < |row| ==> row[columns[q]] <= best)
    && (best == before || exists q :: 0 <= q < j && columns[q] < |row| && row[columns[q]] == best)
  }

  lemma BestStays(h: HistoryTable, users: seq<string>, i: nat, columns: seq<nat>, best: real)
    requires i < |users| && users[i] !in h && IsBest(h, users[..i], columns, best)
    ensures IsBest(h, users[..i + 1], columns, best)
  {
    var a, b := users[..i], users[..i + 1];
    assert forall k :: 0 <= k < i ==> b[k] == a[k];
  }

  lemma BestMore(h: HistoryTable, users: seq<string>, i: nat, columns: seq<nat>, before: real, best: real)
    requires i < |users| && users[i] in h && IsBest(h, users[..i], columns, before)
    requires BestSoFar(h[users[i]], columns, |columns|, before, best)
    ensures IsBest(h, users[..i + 1], columns, best)
  {
    var a, b := users[..i], users[..i + 1];
    assert forall k :: 0 <= k < i ==> b[k] == a[k];
    assert b[i] == users[i];
    if best != before {
      var q :| 0 <= q < |columns| && columns[q] < |h[users[i]]| && h[users[i]][columns[q]] == best;
      assert Hit(h, b[i], columns[q]);
    } else if best != 0.0 {
      var k, j :| 0 <= k < |a| && 0 <= j < |columns| && Hit(h, a[k], columns[j]) && h[a[k]][columns[j]] == best;
      assert Hit(h, b[k], columns[j]);
    }
  }
}
