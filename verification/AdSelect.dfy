/** The bounded selection of ads: clicked ads ranked by predicted rate, other ads by their history, and the
    rest of the places filled at random. */
module AdSelect {
  import opened Orders
  import opened Sequences
  import BoundedQueue

  type Item = BoundedQueue.Item<nat>

  function DocLess(a: nat, b: nat): bool {
    a < b
  }

  lemma DocOrder()
    ensures StrictTotal(DocLess)
  {
  }

  ghost function Kept(capacity: nat, offered: seq<Item>): seq<Item> {
    BoundedQueue.Kept(DocLess, capacity, offered)
  }

  lemma KeptMore(capacity: nat, offered: seq<Item>, x: Item)
    ensures Kept(capacity, offered + [x]) == BoundedQueue.Offered(DocLess, Kept(capacity, offered), capacity, x)
    ensures Kept(capacity, []) == []
  {
    BoundedQueue.KeptOneMore(DocLess, capacity, offered, x);
  }

  lemma KeptSize(capacity: nat, offered: seq<Item>)
    ensures |Kept(capacity, offered)| == Min(|offered|, capacity)
  {
    BoundedQueue.KeptAreOffered(DocLess, capacity, offered);
  }

  lemma KeptBounds(capacity: nat, offered: seq<Item>)
    ensures |Kept(capacity, offered)| == if |offered| <= capacity then |offered| else capacity
    ensures forall x :: x in Kept(capacity, offered) ==> x in offered
    ensures BoundedQueue.Ascending(DocLess, Kept(capacity, offered))
  {
    BoundedQueue.KeptAreOffered(DocLess, capacity, offered);
    BoundedQueue.KeptAscend(DocLess, capacity, offered);
    forall x | x in Kept(capacity, offered)
      ensures x in offered
    {
      BoundedQueue.KeptIsOffered(DocLess, capacity, offered, x);
    }
  }

  // ----- sorting the ads out

  /** What is known of the ads: which were clicked, their history rates where found, and their predicted rates. */
  datatype Knowledge = Knowledge(clicked: set<nat>, history: nat -> Option<real>, predicted: nat -> real)

  datatype Classes = Classes(clicked: seq<Item>, unclicked: seq<Item>, rest: seq<nat>, pending: seq<nat>)

  function ClassifyOne(c: Classes, docid: nat, know: Knowledge, filter: bool, randomSelect: bool): Classes {
    if docid in know.clicked then
      if !filter then c.(clicked := c.clicked + [BoundedQueue.Item(docid, 0.0)])
      else
        match know.history(docid)
        case Some(score) => c.(clicked := c.clicked + [BoundedQueue.Item(docid, score)])
        case None => c.(rest := c.rest + [docid], pending := c.pending + [docid])
    else if !randomSelect && know.history(docid).Some? then
      c.(unclicked := c.unclicked + [BoundedQueue.Item(docid, know.history(docid).value)])
    else
      c.(rest := c.rest + [docid])
  }

  ghost function Classified(docs: seq<nat>, know: Knowledge, filter: bool, randomSelect: bool): Classes {
    if docs == [] then Classes([], [], [], [])
    else ClassifyOne(Classified(docs[..|docs| - 1], know, filter, randomSelect), docs[|docs| - 1], know, filter, randomSelect)
  }

  lemma NothingClassified(know: Knowledge, filter: bool, randomSelect: bool)
    ensures Classified([], know, filter, randomSelect) == Classes([], [], [], [])
  {
  }

  /** Every ad falls in exactly one class. */
  lemma {:induction false} ClassesPartition(docs: seq<nat>, know: Knowledge, filter: bool, randomSelect: bool)
    ensures var c := Classified(docs, know, filter, randomSelect);
      && |c.clicked| + |c.unclicked| + |c.rest| == |docs|
      && (forall x :: x in c.clicked ==> x.key in docs && x.key in know.clicked)
      && (forall x :: x in c.unclicked ==> x.key in docs && x.key !in know.clicked && know.history(x.key) == Some(x.score))
      && (forall docid :: docid in c.rest ==> docid in docs)
      && (forall docid :: docid in c.pending ==> docid in c.rest && docid in know.clicked && know.history(docid) == None)
  {
    if docs != [] {
      var front := docs[..|docs| - 1];
      ClassesPartition(front, know, filter, randomSelect);
      assert docs == front + [docs[|docs| - 1]];
    }
  }

  /** Which class an ad is in, and with which score: a clicked ad with its history rate if there are enough ads to
      filter them by it, and with 0 if not; another ad with its history rate, unless the selection explores; and
      among the rest whoever has no rate to go by. */
  lemma {:induction false} ClassedExactly(docs: seq<nat>, know: Knowledge, filter: bool, randomSelect: bool, docid: nat, score: real)
    ensures var c := Classified(docs, know, filter, randomSelect);
      && (BoundedQueue.Item(docid, score) in c.clicked <==>
           docid in docs && docid in know.clicked && if filter then know.history(docid) == Some(score) else score == 0.0)
      && (BoundedQueue.Item(docid, score) in c.unclicked <==>
           docid in docs && docid !in know.clicked && !randomSelect && know.history(docid) == Some(score))
      && (docid in c.rest <==>
           docid in docs && if docid in know.clicked then filter && know.history(docid) == None
                            else randomSelect || know.history(docid) == None)
  {
    if docs != [] {
      var front := docs[..|docs| - 1];
      ClassedExactly(front, know, filter, randomSelect, docid, score);
      assert docs == front + [docs[|docs| - 1]];
    }
  }

  /** The ads without a score stay in the order of the list. */
  lemma {:induction false} RestInOrder(docs: seq<nat>, know: Knowledge, filter: bool, randomSelect: bool) returns (at: seq<nat>)
    ensures var rest := Classified(docs, know, filter, randomSelect).rest;
      && StrictlyAscending(at) && (forall i :: i in at <==> 0 <= i < |docs| && docs[i] in rest)
      && |at| == |rest| && forall j :: 0 <= j < |at| ==> at[j] < |docs| && rest[j] == docs[at[j]]
  {
    at := [];
    if docs != [] {
      var n, front := |docs| - 1, docs[..|docs| - 1];
      at := RestInOrder(front, know, filter, randomSelect);
      forall i | 0 <= i <= n
        ensures docs[i] in Classified(docs, know, filter, randomSelect).rest <==>
          if docs[i] in know.clicked then filter && know.history(docs[i]) == None
          else randomSelect || know.history(docs[i]) == None
        ensures i < n ==> (docs[i] in Classified(front, know, filter, randomSelect).rest <==>
          if docs[i] in know.clicked then filter && know.history(docs[i]) == None
          else randomSelect || know.history(docs[i]) == None)
      {
        assert i < n ==> front[i] == docs[i];
        ClassedExactly(docs, know, filter, randomSelect, docs[i], 0.0);
        ClassedExactly(front, know, filter, randomSelect, docs[i], 0.0);
      }
      if docs[n] in Classified(docs, know, filter, randomSelect).rest {
        PlaceAppended(at, n);
        at := at + [n];
      }
    }
  }

  method Classify(docs: seq<nat>, know: Knowledge, filter: bool, randomSelect: bool,
                  clickedQueue: BoundedQueue.ScoreQueue<nat>, unclickedQueue: BoundedQueue.ScoreQueue<nat>)
    returns (rest: seq<nat>, pending: seq<nat>)
    requires clickedQueue != unclickedQueue
    requires clickedQueue.keyLess == unclickedQueue.keyLess == DocLess
    requires clickedQueue.items == unclickedQueue.items == [] && clickedQueue.Valid() && unclickedQueue.Valid()
    modifies clickedQueue, unclickedQueue
    ensures clickedQueue.Valid() && unclickedQueue.Valid()
    ensures var c := Classified(docs, know, filter, randomSelect);
      && clickedQueue.items == Kept(clickedQueue.capacity, c.clicked)
      && unclickedQueue.items == Kept(unclickedQueue.capacity, c.unclicked)
      && rest == c.rest && pending == c.pending
  {
    hide Kept, BoundedQueue.Offered, BoundedQueue.Ascending;
    DocOrder();
    rest, pending := [], [];
    KeptMore(clickedQueue.capacity, [], BoundedQueue.Item(0, 0.0));
    KeptMore(unclickedQueue.capacity, [], BoundedQueue.Item(0, 0.0));
    for i := 0 to |docs|
      invariant clickedQueue.Valid() && unclickedQueue.Valid()
      invariant clickedQueue.items == Kept(clickedQueue.capacity, Classified(docs[..i], know, filter, randomSelect).clicked)
      invariant unclickedQueue.items == Kept(unclickedQueue.capacity, Classified(docs[..i], know, filter, randomSelect).unclicked)
      invariant rest == Classified(docs[..i], know, filter, randomSelect).rest
      invariant pending == Classified(docs[..i], know, filter, randomSelect).pending
    {
      assert docs[..i + 1][..i] == docs[..i];
      var docid := docs[i];
      ghost var c := Classified(docs[..i], know, filter, randomSelect);
      var score := 0.0;
      if docid in know.clicked {
        if filter {
          var found := know.history(docid);
          if found.None? {
            rest, pending := rest + [docid], pending + [docid];
            continue;
          }
          score := found.value;
        }
        KeptMore(clickedQueue.capacity, c.clicked, BoundedQueue.Item(docid, score));
        clickedQueue.Insert(BoundedQueue.Item(docid, score));
      } else {
        var found := if randomSelect then None else know.history(docid);
        if found.Some? {
          KeptMore(unclickedQueue.capacity, c.unclicked, BoundedQueue.Item(docid, found.value));
          unclickedQueue.Insert(BoundedQueue.Item(docid, found.value));
        } else {
          rest := rest + [docid];
        }
      }
    }
    assert docs[..|docs|] == docs;
  }

  // ----- the random choice

  const TWO_TO_THE_31: int := 0x8000_0000
  const TWO_TO_THE_32: int := 0x1_0000_0000
  const TWO_TO_THE_64: int := 0x1_0000_0000_0000_0000

  /** A 32-bit draw kept as a signed integer. */
  function AsInt(draw: nat): int {
    if draw < TWO_TO_THE_31 then draw else draw - TWO_TO_THE_32
  }

  /** A signed integer met by an unsigned 64-bit operand. */
  function AsSize(i: int): int {
    if i < 0 then i + TWO_TO_THE_64 else i
  }

  ghost predicate Draws(draws: seq<nat>) {
    forall k :: 0 <= k < |draws| ==> draws[k] < TWO_TO_THE_32
  }

  function InsertInOrder(s: seq<int>, x: int): seq<int> {
    if s == [] || x < s[0] then [x] + s
    else if x == s[0] then s
    else [s[0]] + InsertInOrder(s[1..], x)
  }

  lemma {:induction false} InsertInOrderSpec(s: seq<int>, x: int)
    requires StrictlyAscending(s)
    ensures StrictlyAscending(InsertInOrder(s, x)) && |InsertInOrder(s, x)| <= |s| + 1
    ensures forall y :: y in InsertInOrder(s, x) <==> y == x || y in s
  {
    if s != [] && x > s[0] {
      InsertInOrderSpec(s[1..], x);
      var rest := InsertInOrder(s[1..], x);
      assert s == [s[0]] + s[1..];
      forall i | 0 <= i < |rest|
        ensures s[0] < rest[i]
      {
        assert rest[i] in rest;
        if rest[i] in s[1..] {
          var k :| 0 <= k < |s[1..]| && s[1..][k] == rest[i];
          assert s[k + 1] == rest[i];
        }
      }
    }
  }

  /** The documents at the drawn positions, by ascending draw; a position may come up twice. */
  ghost function DocsAt(docs: seq<nat>, positions: seq<int>): (r: seq<nat>)
    requires docs != []
    ensures |r| == |positions|
  {
    seq(|positions|, i requires 0 <= i < |positions| => docs[AsSize(positions[i]) % |docs|])
  }

  /** positions are the distinct draws in ascending order. */
  ghost predicate Drawn(draws: seq<nat>, positions: seq<int>) {
    && StrictlyAscending(positions)
    && forall p :: p in positions <==> exists k :: 0 <= k < |draws| && AsInt(draws[k]) == p
  }

  method SelectByRandSelectPolicy(draws: seq<nat>, docs: seq<nat>) returns (chosen: seq<nat>, ghost positions: seq<int>)
    requires docs != [] && Draws(draws)
    ensures Drawn(draws, positions) && |positions| <= |draws|
    ensures chosen == DocsAt(docs, positions)
    ensures forall docid :: docid in chosen ==> docid in docs
  {
    var drawn: seq<int> := [];
    for i := 0 to |draws|
      invariant StrictlyAscending(drawn) && |drawn| <= i
      invariant forall p :: p in drawn <==> exists k :: 0 <= k < i && AsInt(draws[k]) == p
    {
      InsertInOrderSpec(drawn, AsInt(draws[i]));
      drawn := InsertInOrder(drawn, AsInt(draws[i]));
    }
    positions := drawn;
    chosen := [];
    for i := 0 to |drawn|
      invariant chosen == DocsAt(docs, positions)[..i]
      invariant forall docid :: docid in chosen ==> docid in docs
    {
      chosen := chosen + [docs[AsSize(drawn[i]) % |docs|]];
    }
  }

  /** Distinct draws may still name one document: a random choice can repeat an ad. */
  lemma RandomChoiceMayRepeat()
    ensures var draws, docs := [0, 3], [7, 8, 9];
      Draws(draws) && Drawn(draws, [0, 3]) && DocsAt(docs, [0, 3]) == [7, 7]
  {
    var draws, positions := [0, 3], [0, 3];
    assert AsInt(draws[0]) == 0 && AsInt(draws[1]) == 3;
    assert positions[0] == 0 && positions[1] == 3;
  }

  /** A draw of all one bits is the int -1, met as 2^64 - 1: of seven documents it names the second, not the one that
      2^32 - 1 would. Draws from 2^31 on are negative. */
  lemma GreatDrawsAreNegative()
    ensures var draws, docs := [0xFFFF_FFFF], [10, 11, 12, 13, 14, 15, 16];
      Draws(draws) && Drawn(draws, [-1]) && DocsAt(docs, [-1]) == [11] && docs[0xFFFF_FFFF % 7] == 13
    ensures AsInt(0x7FFF_FFFF) == 0x7FFF_FFFF && AsInt(0x8000_0000) == -0x8000_0000
  {
    var draws, positions := [0xFFFF_FFFF], [-1];
    assert AsInt(draws[0]) == -1 && positions[0] == -1;
  }

  /** The choice repeats no place of the list exactly when no two draws agree modulo its length. */
  lemma ChoiceRepeatsExactly(docs: seq<nat>, positions: seq<int>)
    requires docs != [] && Distinct(docs)
    ensures Distinct(DocsAt(docs, positions)) <==>
      forall i, j :: 0 <= i < j < |positions| ==> AsSize(positions[i]) % |docs| != AsSize(positions[j]) % |docs|
  {
    forall i, j | 0 <= i < j < |positions|
      ensures DocsAt(docs, positions)[i] == DocsAt(docs, positions)[j] <==>
        AsSize(positions[i]) % |docs| == AsSize(positions[j]) % |docs|
    {
      var a, b := AsSize(positions[i]) % |docs|, AsSize(positions[j]) % |docs|;
      assert DocsAt(docs, positions)[i] == docs[a] && DocsAt(docs, positions)[j] == docs[b];
    }
  }

  // ----- the selection

  ghost function Rescored(items: seq<Item>, know: Knowledge): (r: seq<Item>)
    ensures |r| == |items|
  {
    seq(|items|, i requires 0 <= i < |items| => BoundedQueue.Item(items[i].key, know.predicted(items[i].key)))
  }

  /** Empties a queue into the total one, with predicted rates if asked for. */
  method MoveAll(queue: BoundedQueue.ScoreQueue<nat>, total: BoundedQueue.ScoreQueue<nat>, know: Knowledge, rescore: bool,
                 ghost offered: seq<Item>)
    requires queue != total && queue.Valid() && total.Valid()
    requires total.keyLess == DocLess && total.items == Kept(total.capacity, offered)
    modifies queue, total
    ensures total.Valid()
    ensures total.items ==
      Kept(total.capacity, offered + if rescore then Rescored(old(queue.items), know) else old(queue.items))
  {
    hide Kept, BoundedQueue.Offered, BoundedQueue.Ascending;
    DocOrder();
    ghost var moved := if rescore then Rescored(queue.items, know) else queue.items;
    ghost var items := queue.items;
    var size := |queue.items|;
    assert offered + moved[..0] == offered;
    for i := 0 to size
      invariant queue.Valid() && total.Valid() && queue.items == items[i..]
      invariant total.items == Kept(total.capacity, offered + moved[..i])
    {
      var item := queue.Pop();
      if rescore {
        item := item.(score := know.predicted(item.key));
      }
      assert item == moved[i];
      assert offered + moved[..i + 1] == (offered + moved[..i]) + [item];
      KeptMore(total.capacity, offered + moved[..i], item);
      total.Insert(item);
    }
    assert moved[..size] == moved;
  }

  /** The least of 0 and the scores. */
  ghost function MinScore(items: seq<Item>): (r: real)
    ensures r <= 0.0 && forall i :: 0 <= i < |items| ==> r <= items[i].score
  {
    if items == [] then 0.0
    else
      var rest := MinScore(items[1..]);
      assert forall i :: 1 <= i < |items| ==> items[i] == items[1..][i - 1];
      if items[0].score < rest then items[0].score else rest
  }

  lemma {:induction false} MinScoreIsAttained(items: seq<Item>)
    ensures MinScore(items) == 0.0 || exists x :: x in items && MinScore(items) == x.score
  {
    if items != [] {
      MinScoreIsAttained(items[1..]);
      assert items[0] in items && forall x :: x in items[1..] ==> x in items;
    }
  }

  lemma {:induction false} MinScoreMore(items: seq<Item>, x: Item)
    ensures MinScore(items + [x]) == if x.score < MinScore(items) then x.score else MinScore(items)
  {
    if items == [] {
      assert ([] + [x])[1..] == [];
    } else {
      MinScoreMore(items[1..], x);
      assert (items + [x])[1..] == items[1..] + [x];
    }
  }

  function ClickedPlaces(maxSelect: nat): nat {
    maxSelect / 3 + 1
  }

  /** The other places; a maximum of 0 wraps around. */
  function UnclickedPlaces(maxSelect: nat): nat {
    if maxSelect == 0 then TWO_TO_THE_64 - 1 else maxSelect - ClickedPlaces(maxSelect)
  }

  /** A queue for the wrapped number of places has no memory: nothing may be put into it. */
  ghost predicate Defined(c: Classes, maxSelect: nat) {
    |c.rest| < TWO_TO_THE_64 && (maxSelect == 0 ==> c.unclicked == [])
  }

  /** The ranked ads, the least first. */
  ghost function TotalOf(c: Classes, maxSelect: nat, know: Knowledge): seq<Item> {
    var keptUnclicked := Kept(UnclickedPlaces(maxSelect), c.unclicked);
    Kept(ClickedPlaces(maxSelect) + |keptUnclicked|,
         Rescored(Kept(ClickedPlaces(maxSelect) * 2, c.clicked), know) + keptUnclicked)
  }

  /** The places left for ads without a score. */
  ghost function PlacesLeft(c: Classes, maxSelect: nat): nat {
    KeptSize(UnclickedPlaces(maxSelect), c.unclicked);
    UnclickedPlaces(maxSelect) - |Kept(UnclickedPlaces(maxSelect), c.unclicked)|
  }

  lemma EnoughDraws(c: Classes, maxSelect: nat)
    requires Defined(c, maxSelect)
    ensures PlacesLeft(c, maxSelect) < |c.rest| ==> PlacesLeft(c, maxSelect) <= maxSelect
  {
    KeptSize(UnclickedPlaces(maxSelect), c.unclicked);
  }

  /** The ads without a score that get a place: all of them, or a random choice when they are too many. */
  ghost predicate FillsWith(c: Classes, maxSelect: nat, draws: seq<nat>, rest: seq<nat>)
    requires Defined(c, maxSelect) && |draws| >= maxSelect
  {
    EnoughDraws(c, maxSelect);
    if PlacesLeft(c, maxSelect) < |c.rest| then
      exists positions :: Drawn(draws[..PlacesLeft(c, maxSelect)], positions)
        && |positions| <= PlacesLeft(c, maxSelect) && rest == DocsAt(c.rest, positions)
    else
      rest == c.rest
  }

  /** The first part lists the ranked ads from the best; the others follow, one below the least score. */
  ghost predicate Listed(total: seq<Item>, rest: seq<nat>, docs: seq<nat>, scores: seq<real>) {
    && |docs| == |scores| == |total| + |rest|
    && (forall i :: 0 <= i < |total| ==> docs[i] == total[|total| - 1 - i].key && scores[i] == total[|total| - 1 - i].score)
    && (forall i :: |total| <= i < |docs| ==> docs[i] == rest[i - |total|] && scores[i] == MinScore(total) - 1.0)
  }

  ghost function Filter(docs: seq<nat>, maxSelect: nat): bool {
    |docs| > ClickedPlaces(maxSelect) * 2
  }

  lemma RestFits(c: Classes, maxSelect: nat, draws: seq<nat>, rest: seq<nat>)
    requires Defined(c, maxSelect) && |draws| >= maxSelect && FillsWith(c, maxSelect, draws, rest)
    ensures |rest| <= |c.rest| && |rest| <= PlacesLeft(c, maxSelect)
    ensures forall docid :: docid in rest ==> docid in c.rest
  {
    EnoughDraws(c, maxSelect);
    if PlacesLeft(c, maxSelect) < |c.rest| {
      var positions :| Drawn(draws[..PlacesLeft(c, maxSelect)], positions)
        && |positions| <= PlacesLeft(c, maxSelect) && rest == DocsAt(c.rest, positions);
    }
  }

  lemma TotalFits(c: Classes, maxSelect: nat, know: Knowledge)
    ensures |TotalOf(c, maxSelect, know)| <= |c.clicked| + |c.unclicked|
    ensures maxSelect >= 1 ==> |TotalOf(c, maxSelect, know)| + PlacesLeft(c, maxSelect) <= maxSelect
    ensures BoundedQueue.Ascending(DocLess, TotalOf(c, maxSelect, know))
    ensures forall x :: x in TotalOf(c, maxSelect, know) ==>
      (exists y :: y in c.clicked && y.key == x.key) || x in c.unclicked
  {
    var maxClicked := ClickedPlaces(maxSelect);
    var clicked, unclicked := Kept(maxClicked * 2, c.clicked), Kept(UnclickedPlaces(maxSelect), c.unclicked);
    var offered := Rescored(clicked, know) + unclicked;
    KeptBounds(maxClicked * 2, c.clicked);
    KeptBounds(UnclickedPlaces(maxSelect), c.unclicked);
    KeptBounds(maxClicked + |unclicked|, offered);
    var total := TotalOf(c, maxSelect, know);
    assert total == Kept(maxClicked + |unclicked|, offered);
    hide Kept, BoundedQueue.Ascending, TotalOf, Rescored;
    forall x | x in total
      ensures (exists y :: y in c.clicked && y.key == x.key) || x in c.unclicked
    {
      if x !in unclicked {
        var y := RescoredFrom(clicked, know, x);
      }
    }
  }

  lemma RescoredFrom(items: seq<Item>, know: Knowledge, x: Item) returns (y: Item)
    requires x in Rescored(items, know)
    ensures y in items && y.key == x.key
  {
    var k :| 0 <= k < |items| && Rescored(items, know)[k] == x;
    y := items[k];
  }

  /** Whatever is drawn: the list is no longer than the input, takes all its ads from the input, is in
      descending order as far as it is ranked, with the greater id first among equal scores, and scores every
      other ad strictly below every ranked one. It is no longer than asked for exactly when an ad is asked for. */
  lemma SelectionIsBoundedAndRanked(docs0: seq<nat>, maxSelect: nat, know: Knowledge, randomSelect: bool, draws: seq<nat>,
                                    rest: seq<nat>, docs: seq<nat>, scores: seq<real>)
    requires docs0 != [] && |draws| >= maxSelect
    requires var c := Classified(docs0, know, Filter(docs0, maxSelect), randomSelect);
      Defined(c, maxSelect) && FillsWith(c, maxSelect, draws, rest) && Listed(TotalOf(c, maxSelect, know), rest, docs, scores)
    ensures |docs| == |scores| <= |docs0| && (|docs| <= maxSelect <==> maxSelect >= 1)
    ensures forall i :: 0 <= i < |docs| ==> docs[i] in docs0
    ensures var ranked := |docs| - |rest|;
      && (forall i, j :: 0 <= i < j < ranked ==> scores[i] > scores[j] || (scores[i] == scores[j] && docs[i] >= docs[j]))
      && (forall i, j :: 0 <= i < ranked <= j < |scores| ==> scores[j] < scores[i])
  {
    var c := Classified(docs0, know, Filter(docs0, maxSelect), randomSelect);
    var total := TotalOf(c, maxSelect, know);
    ClassesPartition(docs0, know, Filter(docs0, maxSelect), randomSelect);
    TotalFits(c, maxSelect, know);
    RestFits(c, maxSelect, draws, rest);
    NothingSelectedExactly(docs0, maxSelect, know, randomSelect, draws, rest, docs, scores);
    hide Classified, TotalOf, PlacesLeft, FillsWith, Kept, Filter, BoundedQueue.Ascending;
    ListIsRanked(total, rest, docs, scores);
    forall i | 0 <= i < |docs|
      ensures docs[i] in docs0
    {
      if i < |total| {
        assert total[|total| - 1 - i] in total;
      } else {
        assert rest[i - |total|] in rest;
      }
    }
  }

  lemma ListIsRanked(total: seq<Item>, rest: seq<nat>, docs: seq<nat>, scores: seq<real>)
    requires Listed(total, rest, docs, scores) && BoundedQueue.Ascending(DocLess, total)
    ensures forall i, j :: 0 <= i < j < |total| ==> scores[i] > scores[j] || (scores[i] == scores[j] && docs[i] >= docs[j])
    ensures forall i, j :: 0 <= i < |total| <= j < |scores| ==> scores[j] < scores[i]
  {
    forall i, j | 0 <= i < j < |total|
      ensures scores[i] > scores[j] || (scores[i] == scores[j] && docs[i] >= docs[j])
    {
      assert !BoundedQueue.Below(DocLess, total[|total| - 1 - i], total[|total| - 1 - j]);
    }
  }

  lemma SomethingDrawn(draws: seq<nat>, positions: seq<int>)
    requires draws != [] && Drawn(draws, positions)
    ensures positions != []
  {
    assert AsInt(draws[0]) in positions;
  }

  /** A selection from a list that is not empty selects nothing exactly when one ad is asked for and no
      clicked ad is there to take the only place: the other ads get none. */
  lemma NothingSelectedExactly(docs0: seq<nat>, maxSelect: nat, know: Knowledge, randomSelect: bool, draws: seq<nat>,
                               rest: seq<nat>, docs: seq<nat>, scores: seq<real>)
    requires docs0 != [] && |draws| >= maxSelect
    requires var c := Classified(docs0, know, Filter(docs0, maxSelect), randomSelect);
      Defined(c, maxSelect) && FillsWith(c, maxSelect, draws, rest) && Listed(TotalOf(c, maxSelect, know), rest, docs, scores)
    ensures docs == [] <==>
            maxSelect == 1 && Classified(docs0, know, Filter(docs0, maxSelect), randomSelect).clicked == []
  {
    var c := Classified(docs0, know, Filter(docs0, maxSelect), randomSelect);
    ClassesPartition(docs0, know, Filter(docs0, maxSelect), randomSelect);
    TotalSize(c, maxSelect, know);
    RestSize(c, maxSelect, draws, rest);
    hide Classified, TotalOf, PlacesLeft, FillsWith;
  }

  lemma TotalSize(c: Classes, maxSelect: nat, know: Knowledge)
    requires Defined(c, maxSelect)
    ensures TotalOf(c, maxSelect, know) == [] <==> c.clicked == [] && (c.unclicked == [] || maxSelect == 1)
    ensures PlacesLeft(c, maxSelect) == 0 && c.unclicked == [] ==> maxSelect == 1
    ensures maxSelect == 1 ==> PlacesLeft(c, maxSelect) == 0
  {
    hide Kept;
    var maxClicked := ClickedPlaces(maxSelect);
    var clicked, unclicked := Kept(maxClicked * 2, c.clicked), Kept(UnclickedPlaces(maxSelect), c.unclicked);
    KeptSize(maxClicked * 2, c.clicked);
    KeptSize(UnclickedPlaces(maxSelect), c.unclicked);
    KeptSize(maxClicked + |unclicked|, Rescored(clicked, know) + unclicked);
  }

  lemma RestSize(c: Classes, maxSelect: nat, draws: seq<nat>, rest: seq<nat>)
    requires Defined(c, maxSelect) && |draws| >= maxSelect && FillsWith(c, maxSelect, draws, rest)
    ensures rest == [] <==> c.rest == [] || PlacesLeft(c, maxSelect) == 0
  {
    hide Kept;
    EnoughDraws(c, maxSelect);
    var left := PlacesLeft(c, maxSelect);
    if left < |c.rest| {
      var positions :| Drawn(draws[..left], positions) && |positions| <= left && rest == DocsAt(c.rest, positions);
      if left > 0 {
        SomethingDrawn(draws[..left], positions);
      }
    }
  }

  // ----- what the scores are

  /** A ranked ad's score: its predicted rate if it was clicked, and else its history rate. */
  ghost predicate ScoredRight(know: Knowledge, x: Item) {
    if x.key in know.clicked then x.score == know.predicted(x.key) else know.history(x.key) == Some(x.score)
  }

  lemma RankedAreScoredRight(docs0: seq<nat>, maxSelect: nat, know: Knowledge, randomSelect: bool)
    ensures var c := Classified(docs0, know, Filter(docs0, maxSelect), randomSelect);
      forall x :: x in TotalOf(c, maxSelect, know) ==> ScoredRight(know, x)
  {
    var c := Classified(docs0, know, Filter(docs0, maxSelect), randomSelect);
    ClassesPartition(docs0, know, Filter(docs0, maxSelect), randomSelect);
    hide Classified, Kept;
    var clicked, unclicked := Kept(ClickedPlaces(maxSelect) * 2, c.clicked), Kept(UnclickedPlaces(maxSelect), c.unclicked);
    KeptBounds(ClickedPlaces(maxSelect) * 2, c.clicked);
    KeptBounds(UnclickedPlaces(maxSelect), c.unclicked);
    KeptBounds(ClickedPlaces(maxSelect) + |unclicked|, Rescored(clicked, know) + unclicked);
    forall x | x in TotalOf(c, maxSelect, know)
      ensures ScoredRight(know, x)
    {
      assert x in Rescored(clicked, know) + unclicked;
      if x in unclicked {
        assert x in c.unclicked;
      } else {
        var k :| 0 <= k < |clicked| && Rescored(clicked, know)[k] == x;
        assert clicked[k] in clicked && clicked[k] in c.clicked;
      }
    }
  }

  /** In the list a clicked ad has its predicted rate as score, another ranked ad its history rate. */
  lemma SelectedScores(docs0: seq<nat>, maxSelect: nat, know: Knowledge, randomSelect: bool, draws: seq<nat>,
                       rest: seq<nat>, docs: seq<nat>, scores: seq<real>, i: nat)
    requires |draws| >= maxSelect
    requires var c := Classified(docs0, know, Filter(docs0, maxSelect), randomSelect);
      Defined(c, maxSelect) && FillsWith(c, maxSelect, draws, rest) && Listed(TotalOf(c, maxSelect, know), rest, docs, scores)
    requires i < |docs| - |rest|
    ensures if docs[i] in know.clicked then scores[i] == know.predicted(docs[i]) else know.history(docs[i]) == Some(scores[i])
  {
    RankedAreScoredRight(docs0, maxSelect, know, randomSelect);
    var total := TotalOf(Classified(docs0, know, Filter(docs0, maxSelect), randomSelect), maxSelect, know);
    hide Classified, TotalOf, FillsWith, Filter;
    assert total[|total| - 1 - i] in total;
  }

  /** When clicked ads are filtered, one that is left out had no higher history rate than one that is kept. */
  lemma FilteredByHistory(docs0: seq<nat>, maxSelect: nat, know: Knowledge, randomSelect: bool, out: nat, kept: Item)
    requires |docs0| > ClickedPlaces(maxSelect) * 2
    requires var c := Classified(docs0, know, Filter(docs0, maxSelect), randomSelect);
      && kept in Kept(ClickedPlaces(maxSelect) * 2, c.clicked)
      && out in docs0 && out in know.clicked && know.history(out).Some?
      && forall x :: x in Kept(ClickedPlaces(maxSelect) * 2, c.clicked) ==> x.key != out
    ensures know.history(kept.key).Some? && know.history(out).value <= know.history(kept.key).value
  {
    var filter := Filter(docs0, maxSelect);
    var c := Classified(docs0, know, filter, randomSelect);
    var x := BoundedQueue.Item(out, know.history(out).value);
    ClassedExactly(docs0, know, filter, randomSelect, out, x.score);
    KeptBounds(ClickedPlaces(maxSelect) * 2, c.clicked);
    ClassedExactly(docs0, know, filter, randomSelect, kept.key, kept.score);
    hide Classified, BoundedQueue.Kept;
    DocOrder();
    BoundedQueue.LeftOutIsNoGreater(DocLess, ClickedPlaces(maxSelect) * 2, c.clicked, x, kept);
  }

  /** A clicked ad that passed the filter and is not ranked is predicted no higher than any ranked ad scores. */
  lemma UnrankedIsPredictedLower(c: Classes, maxSelect: nat, know: Knowledge, passed: Item, ranked: Item)
    requires passed in Kept(ClickedPlaces(maxSelect) * 2, c.clicked) && ranked in TotalOf(c, maxSelect, know)
    requires forall x :: x in TotalOf(c, maxSelect, know) ==> x.key != passed.key
    ensures know.predicted(passed.key) <= ranked.score
  {
    hide BoundedQueue.Kept;
    var clicked, unclicked := Kept(ClickedPlaces(maxSelect) * 2, c.clicked), Kept(UnclickedPlaces(maxSelect), c.unclicked);
    var k :| 0 <= k < |clicked| && clicked[k] == passed;
    var x := Rescored(clicked, know)[k];
    assert x in Rescored(clicked, know) && x.score == know.predicted(passed.key);
    DocOrder();
    BoundedQueue.LeftOutIsNoGreater(DocLess, ClickedPlaces(maxSelect) + |unclicked|, Rescored(clicked, know) + unclicked, x, ranked);
  }

  /** How many are ranked, and how many places are left: clicked ads take up to a third of the places and one more,
      other ads with a history up to as many as remain; asked for no ad, that number wraps around. */
  lemma PlacesTaken(c: Classes, maxSelect: nat, know: Knowledge)
    requires Defined(c, maxSelect)
    ensures maxSelect == 0 ==> PlacesLeft(c, maxSelect) == 0xFFFF_FFFF_FFFF_FFFF
    ensures maxSelect >= 1 ==> var others := Min(maxSelect - maxSelect / 3 - 1, |c.unclicked|);
      && |TotalOf(c, maxSelect, know)| == Min(maxSelect / 3 + 1, |c.clicked|) + others
      && PlacesLeft(c, maxSelect) == maxSelect - maxSelect / 3 - 1 - others
  {
    hide Kept;
    var maxClicked := ClickedPlaces(maxSelect);
    var clicked, unclicked := Kept(maxClicked * 2, c.clicked), Kept(UnclickedPlaces(maxSelect), c.unclicked);
    KeptSize(maxClicked * 2, c.clicked);
    KeptSize(UnclickedPlaces(maxSelect), c.unclicked);
    KeptSize(maxClicked + |unclicked|, Rescored(clicked, know) + unclicked);
  }

  /** Up to twice as many ads as there are places for clicked ones, every clicked ad is ranked by its predicted rate
      alone: none is looked up, and none waits for a history. */
  lemma FewAdsNeedNoHistory(docs: seq<nat>, maxSelect: nat, know: Knowledge, randomSelect: bool)
    requires |docs| <= 2 * (maxSelect / 3 + 1)
    ensures var c := Classified(docs, know, Filter(docs, maxSelect), randomSelect);
      forall docid :: docid !in c.pending &&
        (docid in docs && docid in know.clicked ==> BoundedQueue.Item(docid, 0.0) in c.clicked)
  {
    var c := Classified(docs, know, Filter(docs, maxSelect), randomSelect);
    ClassesPartition(docs, know, Filter(docs, maxSelect), randomSelect);
    forall docid
      ensures docid !in c.pending
      ensures docid in docs && docid in know.clicked ==> BoundedQueue.Item(docid, 0.0) in c.clicked
    {
      ClassedExactly(docs, know, Filter(docs, maxSelect), randomSelect, docid, 0.0);
    }
  }

  // ----- when the list names an ad twice

  /** No ad stands in two classes, or twice in one. */
  ghost predicate ClassesDistinct(c: Classes) {
    && BoundedQueue.DistinctKeys(c.clicked) && BoundedQueue.DistinctKeys(c.unclicked) && Distinct(c.rest)
    && (forall x :: x in c.clicked ==> x.key !in c.rest)
    && (forall x :: x in c.unclicked ==> x.key !in c.rest)
    && (forall x, y :: x in c.clicked && y in c.unclicked ==> x.key != y.key)
  }

  lemma {:induction false} ClassesShareNothing(docs: seq<nat>, know: Knowledge, filter: bool, randomSelect: bool)
    requires Distinct(docs)
    ensures ClassesDistinct(Classified(docs, know, filter, randomSelect))
  {
    if docs != [] {
      var front, last := docs[..|docs| - 1], docs[|docs| - 1];
      ClassesShareNothing(front, know, filter, randomSelect);
      ClassesPartition(front, know, filter, randomSelect);
      assert last !in front;
      OneMoreApart(Classified(front, know, filter, randomSelect), last, know, filter, randomSelect);
    }
  }

  lemma OneMoreApart(c: Classes, docid: nat, know: Knowledge, filter: bool, randomSelect: bool)
    requires ClassesDistinct(c) && docid !in c.rest
    requires (forall x :: x in c.clicked ==> x.key != docid) && (forall x :: x in c.unclicked ==> x.key != docid)
    ensures ClassesDistinct(ClassifyOne(c, docid, know, filter, randomSelect))
  {
  }

  lemma DistinctKeysAppend(a: seq<Item>, b: seq<Item>)
    requires BoundedQueue.DistinctKeys(a) && BoundedQueue.DistinctKeys(b)
    requires forall x, y :: x in a && y in b ==> x.key != y.key
    ensures BoundedQueue.DistinctKeys(a + b)
  {
    forall i, j | 0 <= i < j < |a + b|
      ensures (a + b)[i].key != (a + b)[j].key
    {
      if i < |a| && |a| <= j {
        assert a[i] in a && b[j - |a|] in b;
      }
    }
  }

  lemma RescoredKeepsKeys(items: seq<Item>, know: Knowledge)
    requires BoundedQueue.DistinctKeys(items)
    ensures BoundedQueue.DistinctKeys(Rescored(items, know))
    ensures forall x :: x in Rescored(items, know) ==> exists y :: y in items && y.key == x.key
  {
    forall x | x in Rescored(items, know)
      ensures exists y :: y in items && y.key == x.key
    {
      var y := RescoredFrom(items, know, x);
    }
  }

  lemma ContendersAreDistinct(c: Classes, clicked: seq<Item>, unclicked: seq<Item>, know: Knowledge)
    requires ClassesDistinct(c) && BoundedQueue.DistinctKeys(clicked) && BoundedQueue.DistinctKeys(unclicked)
    requires (forall x :: x in clicked ==> x in c.clicked) && (forall x :: x in unclicked ==> x in c.unclicked)
    ensures BoundedQueue.DistinctKeys(Rescored(clicked, know) + unclicked)
    ensures forall x :: x in Rescored(clicked, know) + unclicked ==> x.key !in c.rest
  {
    hide Rescored, BoundedQueue.DistinctKeys;
    RescoredKeepsKeys(clicked, know);
    DistinctKeysAppend(Rescored(clicked, know), unclicked);
  }

  lemma RankedAreDistinct(c: Classes, maxSelect: nat, know: Knowledge)
    requires ClassesDistinct(c)
    ensures BoundedQueue.DistinctKeys(TotalOf(c, maxSelect, know))
    ensures forall x :: x in TotalOf(c, maxSelect, know) ==> x.key !in c.rest
  {
    hide Rescored, BoundedQueue.DistinctKeys, BoundedQueue.Kept;
    var clicked, unclicked := Kept(ClickedPlaces(maxSelect) * 2, c.clicked), Kept(UnclickedPlaces(maxSelect), c.unclicked);
    BoundedQueue.KeptKeysAreDistinct(DocLess, ClickedPlaces(maxSelect) * 2, c.clicked);
    BoundedQueue.KeptKeysAreDistinct(DocLess, UnclickedPlaces(maxSelect), c.unclicked);
    ContendersAreDistinct(c, clicked, unclicked, know);
    BoundedQueue.KeptKeysAreDistinct(DocLess, ClickedPlaces(maxSelect) + |unclicked|, Rescored(clicked, know) + unclicked);
  }

  lemma ListIsDistinct(total: seq<Item>, rest: seq<nat>, docs: seq<nat>, scores: seq<real>)
    requires Listed(total, rest, docs, scores) && BoundedQueue.DistinctKeys(total)
    requires forall x :: x in total ==> x.key !in rest
    ensures Distinct(docs) <==> Distinct(rest)
  {
    var n := |total|;
    assert forall i :: 0 <= i < |rest| ==> docs[n + i] == rest[i];
    if Distinct(docs) {
      forall i, j | 0 <= i < j < |rest|
        ensures rest[i] != rest[j]
      {
        assert docs[n + i] != docs[n + j];
      }
    }
    if Distinct(rest) {
      forall i, j | 0 <= i < j < |docs|
        ensures docs[i] != docs[j]
      {
        if i < n {
          assert total[n - 1 - i] in total;
        }
        if j >= n {
          assert docs[j] == rest[j - n] && docs[j] in rest;
        }
      }
    }
  }

  /** Different draws choose different places of n. */
  ghost predicate DrawsApart(draws: seq<nat>, n: nat)
    requires n > 0
  {
    forall a, b :: 0 <= a < |draws| && 0 <= b < |draws| && draws[a] != draws[b] ==>
      AsSize(AsInt(draws[a])) % n != AsSize(AsInt(draws[b])) % n
  }

  lemma DrawnApart(draws: seq<nat>, positions: seq<int>, n: nat)
    requires n > 0 && Draws(draws) && Drawn(draws, positions)
    ensures DrawsApart(draws, n) <==>
      forall i, j :: 0 <= i < j < |positions| ==> AsSize(positions[i]) % n != AsSize(positions[j]) % n
  {
    hide AsSize;
    if DrawsApart(draws, n) {
      forall i, j | 0 <= i < j < |positions|
        ensures AsSize(positions[i]) % n != AsSize(positions[j]) % n
      {
        assert positions[i] in positions && positions[j] in positions;
        var a :| 0 <= a < |draws| && AsInt(draws[a]) == positions[i];
        var b :| 0 <= b < |draws| && AsInt(draws[b]) == positions[j];
      }
    } else {
      var a, b :| 0 <= a < |draws| && 0 <= b < |draws| && draws[a] != draws[b]
        && AsSize(AsInt(draws[a])) % n == AsSize(AsInt(draws[b])) % n;
      assert AsInt(draws[a]) in positions && AsInt(draws[b]) in positions;
      var i :| 0 <= i < |positions| && positions[i] == AsInt(draws[a]);
      var j :| 0 <= j < |positions| && positions[j] == AsInt(draws[b]);
      assert i != j;
    }
  }

  /** A selection among different ads names no ad twice: exactly when all ads without a score get a place, or
      different draws choose different places among them. */
  lemma SelectionRepeatsExactly(docs0: seq<nat>, maxSelect: nat, know: Knowledge, randomSelect: bool, draws: seq<nat>,
                                rest: seq<nat>, docs: seq<nat>, scores: seq<real>)
    requires Distinct(docs0) && |draws| >= maxSelect && Draws(draws)
    requires var c := Classified(docs0, know, Filter(docs0, maxSelect), randomSelect);
      Defined(c, maxSelect) && FillsWith(c, maxSelect, draws, rest) && Listed(TotalOf(c, maxSelect, know), rest, docs, scores)
    ensures var c := Classified(docs0, know, Filter(docs0, maxSelect), randomSelect);
      var left := PlacesLeft(c, maxSelect);
      Distinct(docs) <==> (left < |c.rest| ==> left <= |draws| && DrawsApart(draws[..left], |c.rest|))
  {
    var c := Classified(docs0, know, Filter(docs0, maxSelect), randomSelect);
    hide Classified, TotalOf, Listed, PlacesLeft, Defined;
    ClassesShareNothing(docs0, know, Filter(docs0, maxSelect), randomSelect);
    RankedAreDistinct(c, maxSelect, know);
    RestFits(c, maxSelect, draws, rest);
    ListIsDistinct(TotalOf(c, maxSelect, know), rest, docs, scores);
    EnoughDraws(c, maxSelect);
    var left := PlacesLeft(c, maxSelect);
    if left < |c.rest| {
      var positions :| Drawn(draws[..left], positions) && |positions| <= left && rest == DocsAt(c.rest, positions);
      ChoiceRepeatsExactly(c.rest, positions);
      DrawnApart(draws[..left], positions, |c.rest|);
    }
  }

  /** Ranks the clicked ads by their predicted rate, and behind no better ones those other ads that have a
      history; left is the number of places for the unscored ones. overrun says that an ad was put into a
      queue for the wrapped number of places. */
  method RankAds(docs0: seq<nat>, maxSelect: nat, know: Knowledge, randomSelect: bool)
    returns (total: BoundedQueue.ScoreQueue<nat>, left: nat, unscored: seq<nat>, pending: seq<nat>, overrun: bool)
    ensures var c := Classified(docs0, know, Filter(docs0, maxSelect), randomSelect);
      && (overrun <==> maxSelect == 0 && c.unclicked != [])
      && fresh(total) && total.Valid() && total.items == TotalOf(c, maxSelect, know)
      && left == PlacesLeft(c, maxSelect) && unscored == c.rest && pending == c.pending
  {
    hide Kept, Classified, Rescored;
    var maxClicked, maxUnclicked := ClickedPlaces(maxSelect), UnclickedPlaces(maxSelect);
    var clickedQueue := new BoundedQueue.ScoreQueue(DocLess, maxClicked * 2);
    var unclickedQueue := new BoundedQueue.ScoreQueue(DocLess, maxUnclicked);
    unscored, pending := Classify(docs0, know, |docs0| > maxClicked * 2, randomSelect, clickedQueue, unclickedQueue);
    ghost var c := Classified(docs0, know, Filter(docs0, maxSelect), randomSelect);
    overrun := maxSelect == 0 && |unclickedQueue.items| > 0;
    total := new BoundedQueue.ScoreQueue(DocLess, maxClicked + |unclickedQueue.items|);
    KeptMore(total.capacity, [], BoundedQueue.Item(0, 0.0));
    KeptSize(maxUnclicked, c.unclicked);
    ghost var clickedItems := clickedQueue.items;
    MoveAll(clickedQueue, total, know, true, []);
    left := maxUnclicked - |unclickedQueue.items|;
    assert [] + Rescored(clickedItems, know) == Rescored(clickedItems, know);
    MoveAll(unclickedQueue, total, know, false, Rescored(clickedItems, know));
  }

  /** Selects ads into the list. The clicked ads kept are ranked by their predicted rate, other ads by their
      history unless this call explores, and places that are left go to ads without a score. randomDraw and
      draws are what the random generator gives. Asked for no ad, the call overruns the memory of a queue
      exactly when some other ad has a history; nothing is said of what it then returns. */
  method Select(docs0: seq<nat>, maxSelect: nat, know: Knowledge, randomDraw: nat, draws: seq<nat>)
    returns (ok: bool, docs: seq<nat>, scores: seq<real>, pending: seq<nat>, overrun: bool, ghost rest: seq<nat>)
    requires |docs0| < TWO_TO_THE_64 && |draws| >= maxSelect && Draws(draws)
    ensures overrun <==> !Defined(Classified(docs0, know, Filter(docs0, maxSelect), randomDraw % 1000 < 100), maxSelect)
    ensures !overrun ==> (ok <==> docs0 != [] && docs != [])
    ensures !overrun && docs0 != [] ==> var c := Classified(docs0, know, Filter(docs0, maxSelect), randomDraw % 1000 < 100);
      && FillsWith(c, maxSelect, draws, rest) && Listed(TotalOf(c, maxSelect, know), rest, docs, scores)
      && pending == c.pending
  {
    hide Kept, Classified, Rescored, DocsAt, Drawn, PlacesLeft, TotalOf, Listed;
    docs, scores, pending, overrun, rest := docs0, [], [], false, [];
    var randomSelect := randomDraw % 1000 < 100;
    if docs0 == [] {
      NothingClassified(know, Filter(docs0, maxSelect), randomSelect);
      return false, docs, scores, pending, overrun, rest;
    }
    ghost var c := Classified(docs0, know, Filter(docs0, maxSelect), randomSelect);
    ClassesPartition(docs0, know, Filter(docs0, maxSelect), randomSelect);
    var total, left, unscored;
    total, left, unscored, pending, overrun := RankAds(docs0, maxSelect, know, randomSelect);
    if overrun {
      return false, docs, scores, pending, overrun, rest;
    }
    EnoughDraws(c, maxSelect);
    if left < |unscored| {
      ghost var positions;
      unscored, positions := SelectByRandSelectPolicy(draws[..left], unscored);
    }
    rest := unscored;
    TotalFits(c, maxSelect, know);
    RestFits(c, maxSelect, draws, rest);
    docs, scores := WriteList(docs0, total, unscored);
    ok := docs != [];
  }

  /** Writes the ranked ads over the list from the end of their part, the least first. */
  method WriteRanked(docs0: seq<nat>, total: BoundedQueue.ScoreQueue<nat>) returns (docs: seq<nat>, scores: seq<real>, minScore: real)
    requires |total.items| <= |docs0| && total.Valid()
    modifies total
    ensures |docs| == |scores| == |docs0| && minScore == MinScore(old(total.items))
    ensures var items := old(total.items);
      forall j :: 0 <= j < |items| ==> docs[j] == items[|items| - 1 - j].key && scores[j] == items[|items| - 1 - j].score
  {
    ghost var items := total.items;
    var size := |total.items|;
    docs, scores := docs0, seq(|docs0|, _ => 0.0);
    minScore := 0.0;
    assert items[..0] == [];
    for i := size downto 0
      invariant |docs| == |scores| == |docs0| && total.Valid() && total.items == items[size - i..]
      invariant minScore == MinScore(items[..size - i])
      invariant forall j :: i <= j < size ==> docs[j] == items[size - 1 - j].key && scores[j] == items[size - 1 - j].score
    {
      assert items[..size - i] == items[..size - i - 1] + [items[size - i - 1]];
      MinScoreMore(items[..size - i - 1], items[size - i - 1]);
      var item := total.Pop();
      docs, scores := docs[i := item.key], scores[i := item.score];
      if item.score < minScore {
        minScore := item.score;
      }
    }
    assert items[..size] == items;
  }

  /** Writes the list: the ranked ads, then the others behind them. */
  method WriteList(docs0: seq<nat>, total: BoundedQueue.ScoreQueue<nat>, rest: seq<nat>) returns (docs: seq<nat>, scores: seq<real>)
    requires |total.items| + |rest| <= |docs0| && total.Valid()
    modifies total
    ensures Listed(old(total.items), rest, docs, scores)
  {
    hide MinScore;
    var size := |total.items|;
    var minScore;
    docs, scores, minScore := WriteRanked(docs0, total);
    ghost var docs1, scores1 := docs, scores;
    for i := 0 to |rest|
      invariant |docs| == |scores| == |docs0|
      invariant forall j :: 0 <= j < size ==> docs[j] == docs1[j] && scores[j] == scores1[j]
      invariant forall j :: size <= j < size + i ==> docs[j] == rest[j - size] && scores[j] == minScore - 1.0
    {
      docs, scores := docs[size + i := rest[i]], scores[size + i := minScore - 1.0];
    }
    docs, scores := docs[..size + |rest|], scores[..size + |rest|];
  }
}
