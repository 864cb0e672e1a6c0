/** The list the recommender hands out, built from the queue it pops: an item scored below the default
    gives its place to a feature nobody has seen yet, as long as such features last. */
module RecommendList {
  import opened Orders
  import opened Sequences
  import BoundedQueue
  import Strings

  type Item = BoundedQueue.Item<string>

  datatype Entry = Entry(item: string, score: real)

  /** The entry made from the p-th item popped, counting from the least. */
  ghost function EntryAt(kept: seq<Item>, unseen: seq<string>, defaultScore: real, p: nat): Entry
    requires p < |kept|
  {
    if kept[p].score < defaultScore && p < |unseen| then Entry(unseen[p], defaultScore)
    else Entry(kept[p].key, kept[p].score)
  }

  /** The least item popped comes last. */
  ghost function Entries(kept: seq<Item>, unseen: seq<string>, defaultScore: real): (r: seq<Entry>)
    ensures |r| == |kept|
  {
    seq(|kept|, i requires 0 <= i < |kept| => EntryAt(kept, unseen, defaultScore, |kept| - 1 - i))
  }

  lemma EntryOfPopped(kept: seq<Item>, unseen: seq<string>, defaultScore: real, p: nat)
    requires p < |kept|
    ensures Entries(kept, unseen, defaultScore)[|kept| - 1 - p] == EntryAt(kept, unseen, defaultScore, p)
  {
  }

  lemma KeyOrder()
    ensures StrictTotal(Strings.Less)
  {
    forall a, b | Strings.Less(a, b)
      ensures !Strings.Less(b, a)
    {
      Strings.LessAsymmetric(a, b);
    }
    forall a, b, c | Strings.Less(a, b) && Strings.Less(b, c)
      ensures Strings.Less(a, c)
    {
      Strings.LessTransitive(a, b, c);
    }
    forall a, b | a != b
      ensures Strings.Less(a, b) || Strings.Less(b, a)
    {
      Strings.LessTotal(a, b);
    }
  }

  // ----- nothing is recommended twice

  ghost predicate NoneHeld(kept: seq<Item>, unseen: seq<string>) {
    forall p, q :: 0 <= p < |kept| && 0 <= q < |unseen| ==> kept[p].key != unseen[q]
  }

  ghost predicate DistinctItems(s: seq<Entry>) {
    forall i, j :: 0 <= i < j < |s| ==> s[i].item != s[j].item
  }

  lemma NothingTwice(kept: seq<Item>, unseen: seq<string>, defaultScore: real)
    requires BoundedQueue.DistinctKeys(kept) && Distinct(unseen) && NoneHeld(kept, unseen)
    ensures DistinctItems(Entries(kept, unseen, defaultScore))
  {
    forall i, j | 0 <= i < j < |kept|
      ensures Entries(kept, unseen, defaultScore)[i].item != Entries(kept, unseen, defaultScore)[j].item
    {
      EntryOfPopped(kept, unseen, defaultScore, |kept| - 1 - i);
      EntryOfPopped(kept, unseen, defaultScore, |kept| - 1 - j);
    }
  }

  // ----- when the list is ranked

  ghost predicate Descending(s: seq<Entry>) {
    forall i, j :: 0 <= i < j < |s| ==> s[i].score >= s[j].score
  }

  /** The unseen features ran out before the items scored below the default did. */
  ghost predicate RunsOut(kept: seq<Item>, unseen: seq<string>, defaultScore: real) {
    && 0 < |unseen| < |kept|
    && kept[|unseen|].score < defaultScore
  }

  /** The list is in descending order exactly when the unseen features do not run out: otherwise an item
      keeps its low score ahead of the default scores written after it. */
  lemma RankedUnlessUnseenRunOut(kept: seq<Item>, unseen: seq<string>, defaultScore: real)
    requires BoundedQueue.Ascending(Strings.Less, kept)
    ensures Descending(Entries(kept, unseen, defaultScore)) <==> !RunsOut(kept, unseen, defaultScore)
  {
    var r := Entries(kept, unseen, defaultScore);
    if RunsOut(kept, unseen, defaultScore) {
      assert kept[0].score <= kept[|unseen|].score;
      EntryOfPopped(kept, unseen, defaultScore, 0);
      EntryOfPopped(kept, unseen, defaultScore, |unseen|);
      assert r[|kept| - 1 - |unseen|].score < r[|kept| - 1].score;
    } else {
      forall i, j | 0 <= i < j < |r|
        ensures r[i].score >= r[j].score
      {
        var p, q := |kept| - 1 - i, |kept| - 1 - j;
        EntryOfPopped(kept, unseen, defaultScore, p);
        EntryOfPopped(kept, unseen, defaultScore, q);
        assert kept[q].score <= kept[p].score;
        if |unseen| > 0 && |unseen| <= p {
          assert kept[|unseen|].score <= kept[p].score;
        }
      }
    }
  }

  /** Who gives way: the least items kept, as many as are scored below the default and as there are unseen
      features for; they come last, and the others stand with their own scores. */
  lemma LowestGiveWay(kept: seq<Item>, unseen: seq<string>, defaultScore: real) returns (m: nat)
    requires BoundedQueue.Ascending(Strings.Less, kept)
    ensures m <= |kept| && m <= |unseen|
    ensures forall p :: 0 <= p < m ==> kept[p].score < defaultScore
    ensures m == |unseen| || forall p :: m <= p < |kept| ==> kept[p].score >= defaultScore
    ensures forall p :: 0 <= p < m ==> Entries(kept, unseen, defaultScore)[|kept| - 1 - p] == Entry(unseen[p], defaultScore)
    ensures forall p :: m <= p < |kept| ==>
      Entries(kept, unseen, defaultScore)[|kept| - 1 - p] == Entry(kept[p].key, kept[p].score)
  {
    m := 0;
    while m < |kept| && m < |unseen| && kept[m].score < defaultScore
      invariant m <= |kept| && m <= |unseen|
      invariant forall p :: 0 <= p < m ==> kept[p].score < defaultScore
    {
      m := m + 1;
    }
    forall p | 0 <= p < |kept|
      ensures p >= m && m < |unseen| ==> kept[p].score >= defaultScore
      ensures Entries(kept, unseen, defaultScore)[|kept| - 1 - p] == EntryAt(kept, unseen, defaultScore, p)
    {
      EntryOfPopped(kept, unseen, defaultScore, p);
      if m < p && m < |unseen| {
        assert kept[m].score <= kept[p].score;
      }
    }
  }

  /** What the queue kept of the offered items comes out ranked, save for unseen features running out. */
  lemma RecommendationIsRanked(capacity: nat, offered: seq<Item>, unseen: seq<string>, defaultScore: real)
    ensures var kept := BoundedQueue.Kept(Strings.Less, capacity, offered);
      Descending(Entries(kept, unseen, defaultScore)) <==> !RunsOut(kept, unseen, defaultScore)
  {
    KeyOrder();
    BoundedQueue.KeptAscend(Strings.Less, capacity, offered);
    RankedUnlessUnseenRunOut(BoundedQueue.Kept(Strings.Less, capacity, offered), unseen, defaultScore);
  }
}
