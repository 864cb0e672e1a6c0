/** The bounded score queue: it keeps the greatest items inserted and gives them up least first. */
module BoundedQueue {
  import opened Orders

  datatype Item<K> = Item(key: K, score: real)

  /** By score, and among equal scores by key. */
  predicate Below<K(==)>(keyLess: (K, K) -> bool, a: Item<K>, b: Item<K>) {
    a.score < b.score || (a.score == b.score && keyLess(a.key, b.key))
  }

  ghost predicate Ascending<K>(keyLess: (K, K) -> bool, s: seq<Item<K>>) {
    forall i, j :: 0 <= i < j < |s| ==> !Below(keyLess, s[j], s[i])
  }

  function Place<K(==)>(keyLess: (K, K) -> bool, s: seq<Item<K>>, x: Item<K>): seq<Item<K>> {
    if s == [] then [x]
    else if Below(keyLess, s[0], x) then [s[0]] + Place(keyLess, s[1..], x)
    else [x] + s
  }

  /** What the queue holds after one more item was offered to it. */
  function Offered<K(==)>(keyLess: (K, K) -> bool, s: seq<Item<K>>, capacity: nat, x: Item<K>): seq<Item<K>> {
    if |s| < capacity then Place(keyLess, s, x)
    else if s != [] && !Below(keyLess, x, s[0]) then Place(keyLess, s[1..], x)
    else s
  }

  lemma {:induction false} PlaceSize<K>(keyLess: (K, K) -> bool, s: seq<Item<K>>, x: Item<K>)
    ensures |Place(keyLess, s, x)| == |s| + 1
    ensures multiset(Place(keyLess, s, x)) == multiset(s) + multiset{x}
  {
    if s != [] {
      assert s == [s[0]] + s[1..];
      PlaceSize(keyLess, s[1..], x);
    }
  }

  lemma BelowIsOneWay<K(!new)>(keyLess: (K, K) -> bool, a: Item<K>, b: Item<K>)
    requires StrictTotal(keyLess) && Below(keyLess, a, b)
    ensures !Below(keyLess, b, a)
  {
  }

  lemma NotBelowTransitive<K(!new)>(keyLess: (K, K) -> bool, a: Item<K>, b: Item<K>, c: Item<K>)
    requires StrictTotal(keyLess) && !Below(keyLess, a, b) && !Below(keyLess, b, c)
    ensures !Below(keyLess, a, c)
  {
  }

  lemma AscendingCons<K>(keyLess: (K, K) -> bool, head: Item<K>, rest: seq<Item<K>>)
    requires Ascending(keyLess, rest) && forall j :: 0 <= j < |rest| ==> !Below(keyLess, rest[j], head)
    ensures Ascending(keyLess, [head] + rest)
  {
    hide Below;
  }

  lemma {:induction false} PlaceKeepsAscending<K(!new)>(keyLess: (K, K) -> bool, s: seq<Item<K>>, x: Item<K>)
    requires StrictTotal(keyLess) && Ascending(keyLess, s)
    ensures Ascending(keyLess, Place(keyLess, s, x))
  {
    hide StrictTotal, Below;
    if s == [] {
    } else if Below(keyLess, s[0], x) {
      var rest := Place(keyLess, s[1..], x);
      PlaceKeepsAscending(keyLess, s[1..], x);
      PlaceSize(keyLess, s[1..], x);
      forall j | 0 <= j < |rest|
        ensures !Below(keyLess, rest[j], s[0])
      {
        BelowIsOneWay(keyLess, s[0], x);
        assert rest[j] in multiset(rest);
        if rest[j] != x {
          var i :| 0 <= i < |s[1..]| && s[1..][i] == rest[j];
          assert s[i + 1] == rest[j];
        }
      }
      AscendingCons(keyLess, s[0], rest);
    } else {
      forall j | 0 <= j < |s|
        ensures !Below(keyLess, s[j], x)
      {
        if j > 0 {
          NotBelowTransitive(keyLess, s[j], s[0], x);
        }
      }
      AscendingCons(keyLess, x, s);
    }
  }

  /** Offering an item adds it, exchanges it for the least one, or changes nothing. */
  lemma OfferedAreHeld<K>(keyLess: (K, K) -> bool, s: seq<Item<K>>, capacity: nat, x: Item<K>)
    requires |s| <= capacity
    ensures multiset(Offered(keyLess, s, capacity, x)) <= multiset(s) + multiset{x}
    ensures |Offered(keyLess, s, capacity, x)| == if |s| < capacity then |s| + 1 else capacity
  {
    hide Below, Place;
    if |s| < capacity {
      PlaceSize(keyLess, s, x);
    } else if s != [] {
      PlaceSize(keyLess, s[1..], x);
      assert s == [s[0]] + s[1..];
    }
  }

  lemma OfferChanges<K>(keyLess: (K, K) -> bool, s: seq<Item<K>>, capacity: nat, x: Item<K>)
    ensures |s| < capacity ==> multiset(Offered(keyLess, s, capacity, x)) == multiset(s) + multiset{x}
    ensures |s| >= capacity && s != [] && !Below(keyLess, x, s[0]) ==>
      multiset(Offered(keyLess, s, capacity, x)) + multiset{s[0]} == multiset(s) + multiset{x}
  {
    hide Below, Place;
    PlaceSize(keyLess, s, x);
    if s != [] {
      PlaceSize(keyLess, s[1..], x);
      assert s == [s[0]] + s[1..];
    }
  }

  lemma OfferKeepsAscending<K(!new)>(keyLess: (K, K) -> bool, s: seq<Item<K>>, capacity: nat, x: Item<K>)
    requires StrictTotal(keyLess) && Ascending(keyLess, s)
    ensures Ascending(keyLess, Offered(keyLess, s, capacity, x))
  {
    PlaceKeepsAscending(keyLess, s, x);
    if s != [] {
      PlaceKeepsAscending(keyLess, s[1..], x);
    }
  }

  class ScoreQueue<K(==, !new)> {
    const keyLess: (K, K) -> bool
    const capacity: nat
    /** The items held, least first. */
    var items: seq<Item<K>>

    ghost predicate Valid()
      reads this
    {
      |items| <= capacity && Ascending(keyLess, items)
    }

    constructor (keyLess: (K, K) -> bool, capacity: nat)
      ensures this.keyLess == keyLess && this.capacity == capacity && items == [] && Valid()
    {
      this.keyLess, this.capacity := keyLess, capacity;
      items := [];
    }

    /** Offers an item: it enters a queue that is not full, and else takes the place of the least one
        unless it is below it. */
    method Insert(x: Item<K>)
      requires StrictTotal(keyLess) && Valid()
      modifies this
      ensures Valid()
      ensures items == Offered(keyLess, old(items), capacity, x)
      ensures |old(items)| < capacity ==> multiset(items) == multiset(old(items)) + multiset{x}
      ensures |old(items)| == capacity && old(items) != [] && !Below(keyLess, x, old(items)[0]) ==>
        multiset(items) + multiset{old(items)[0]} == multiset(old(items)) + multiset{x}
      ensures |old(items)| == capacity && (old(items) == [] || Below(keyLess, x, old(items)[0])) ==> items == old(items)
    {
      hide StrictTotal, Below, Place, Ascending;
      OfferKeepsAscending(keyLess, items, capacity, x);
      OfferedAreHeld(keyLess, items, capacity, x);
      OfferChanges(keyLess, items, capacity, x);
      if |items| < capacity {
        items := Place(keyLess, items, x);
      } else if |items| > 0 && !Below(keyLess, x, items[0]) {
        items := Place(keyLess, items[1..], x);
      }
    }

    /** Gives up the least item. */
    method Pop() returns (x: Item<K>)
      requires items != [] && Valid()
      modifies this
      ensures Valid()
      ensures forall y :: y in items ==> !Below(keyLess, y, x)
      ensures multiset(old(items)) == multiset(items) + multiset{x}
      ensures x == old(items)[0] && items == old(items)[1..]
    {
      assert items == [items[0]] + items[1..];
      x := items[0];
      items := items[1..];
    }
  }

  // ----- the queue keeps the greatest items

  /** What an empty queue holds after all these were offered in turn. */
  ghost function Kept<K>(keyLess: (K, K) -> bool, capacity: nat, offered: seq<Item<K>>): seq<Item<K>> {
    if offered == [] then []
    else Offered(keyLess, Kept(keyLess, capacity, offered[..|offered| - 1]), capacity, offered[|offered| - 1])
  }

  lemma KeptOneMore<K>(keyLess: (K, K) -> bool, capacity: nat, offered: seq<Item<K>>, x: Item<K>)
    ensures Kept(keyLess, capacity, offered + [x]) == Offered(keyLess, Kept(keyLess, capacity, offered), capacity, x)
  {
    assert (offered + [x])[..|offered|] == offered;
  }

  /** Offered items are kept or given up, never made up; and the queue fills before it gives any up. */
  lemma {:induction false} KeptAreOffered<K>(keyLess: (K, K) -> bool, capacity: nat, offered: seq<Item<K>>)
    ensures multiset(Kept(keyLess, capacity, offered)) <= multiset(offered)
    ensures |Kept(keyLess, capacity, offered)| == if |offered| <= capacity then |offered| else capacity
  {
    hide Offered;
    if offered != [] {
      var front, x := offered[..|offered| - 1], offered[|offered| - 1];
      assert offered == front + [x];
      KeptAreOffered(keyLess, capacity, front);
      KeptOneMore(keyLess, capacity, front, x);
      OfferedAreHeld(keyLess, Kept(keyLess, capacity, front), capacity, x);
    }
  }

  lemma {:induction false} KeptAscend<K(!new)>(keyLess: (K, K) -> bool, capacity: nat, offered: seq<Item<K>>)
    requires StrictTotal(keyLess)
    ensures Ascending(keyLess, Kept(keyLess, capacity, offered))
  {
    if offered != [] {
      var front, x := offered[..|offered| - 1], offered[|offered| - 1];
      KeptAscend(keyLess, capacity, front);
      OfferKeepsAscending(keyLess, Kept(keyLess, capacity, front), capacity, x);
    }
  }

  ghost predicate NoneBelow<K>(keyLess: (K, K) -> bool, s: seq<Item<K>>, x: Item<K>) {
    forall y :: y in s ==> !Below(keyLess, y, x)
  }

  /** A full queue only exchanges its least item, for one that is not below it. */
  lemma OfferToFull<K(!new)>(keyLess: (K, K) -> bool, s: seq<Item<K>>, capacity: nat, x: Item<K>)
    returns (displaced: Item<K>)
    requires StrictTotal(keyLess) && Ascending(keyLess, s) && |s| == capacity > 0
    ensures multiset(Offered(keyLess, s, capacity, x)) + multiset{displaced} == multiset(s) + multiset{x}
    ensures NoneBelow(keyLess, Offered(keyLess, s, capacity, x), displaced)
    ensures forall y :: y in Offered(keyLess, s, capacity, x) ==> !Below(keyLess, y, s[0])
  {
    assert s == [s[0]] + s[1..];
    if Below(keyLess, x, s[0]) {
      displaced := x;
      forall y | y in s
        ensures !Below(keyLess, y, x) && !Below(keyLess, y, s[0])
      {
      }
    } else {
      displaced := s[0];
      PlaceSize(keyLess, s[1..], x);
      var t := Place(keyLess, s[1..], x);
      forall y | y in t
        ensures !Below(keyLess, y, s[0])
      {
        assert y in multiset(t);
      }
    }
  }

  ghost function GivenUp<K>(keyLess: (K, K) -> bool, capacity: nat, offered: seq<Item<K>>): multiset<Item<K>> {
    multiset(offered) - multiset(Kept(keyLess, capacity, offered))
  }

  /** Whatever was offered and is not held ranks no higher than anything that is. */
  lemma {:induction false} KeptAreTheGreatest<K(!new)>(keyLess: (K, K) -> bool, capacity: nat, offered: seq<Item<K>>)
    requires StrictTotal(keyLess)
    ensures forall x, y :: x in GivenUp(keyLess, capacity, offered) && y in Kept(keyLess, capacity, offered) ==>
      !Below(keyLess, y, x)
  {
    hide Kept, Offered, Below, Ascending, StrictTotal;
    KeptAreOffered(keyLess, capacity, offered);
    if |offered| <= capacity {
      NothingGivenUp(keyLess, capacity, offered);
    } else if capacity > 0 {
      var front, last := offered[..|offered| - 1], offered[|offered| - 1];
      KeptAreTheGreatest(keyLess, capacity, front);
      KeptAscend(keyLess, capacity, front);
      KeptAreOffered(keyLess, capacity, front);
      assert offered == front + [last];
      KeptOneMore(keyLess, capacity, front, last);
      ExchangeKeepsTheGreatest(keyLess, capacity, multiset(front), Kept(keyLess, capacity, front), last);
    }
  }

  /** An offered item that is not held has no greater score than any that is. */
  lemma LeftOutIsNoGreater<K(!new)>(keyLess: (K, K) -> bool, capacity: nat, offered: seq<Item<K>>, x: Item<K>, y: Item<K>)
    requires StrictTotal(keyLess) && x in offered
    requires x !in Kept(keyLess, capacity, offered) && y in Kept(keyLess, capacity, offered)
    ensures x.score <= y.score
  {
    hide Kept, StrictTotal;
    KeptAreTheGreatest(keyLess, capacity, offered);
    KeptAreOffered(keyLess, capacity, offered);
    assert multiset(offered)[x] > 0 && multiset(Kept(keyLess, capacity, offered))[x] == 0;
    assert x in GivenUp(keyLess, capacity, offered);
    assert !Below(keyLess, y, x);
  }

  lemma ExchangeKeepsTheGreatest<K(!new)>(keyLess: (K, K) -> bool, capacity: nat, front: multiset<Item<K>>,
                                          s: seq<Item<K>>, last: Item<K>)
    requires StrictTotal(keyLess) && Ascending(keyLess, s) && |s| == capacity > 0 && multiset(s) <= front
    requires forall x, y :: x in front - multiset(s) && y in s ==> !Below(keyLess, y, x)
    ensures var t := Offered(keyLess, s, capacity, last);
      forall x, y :: x in front + multiset{last} - multiset(t) && y in t ==> !Below(keyLess, y, x)
  {
    var displaced := OfferToFull(keyLess, s, capacity, last);
    var t := Offered(keyLess, s, capacity, last);
    hide Offered, Below, Ascending, Place, StrictTotal;
    forall x, y | x in front + multiset{last} - multiset(t) && y in t
      ensures !Below(keyLess, y, x)
    {
      GivenUpBeforeOrNow(front, multiset(s), multiset(t), last, displaced, x);
      if x != displaced {
        NotBelowTransitive(keyLess, y, s[0], x);
      } else {
        assert NoneBelow(keyLess, t, displaced);
      }
    }
  }

  lemma NothingGivenUp<K>(keyLess: (K, K) -> bool, capacity: nat, offered: seq<Item<K>>)
    requires |offered| <= capacity
    ensures multiset(offered) - multiset(Kept(keyLess, capacity, offered)) == multiset{}
  {
    KeptAreOffered(keyLess, capacity, offered);
    assert |multiset(offered) - multiset(Kept(keyLess, capacity, offered))| == 0;
  }

  lemma GivenUpBeforeOrNow<T>(front: multiset<T>, s: multiset<T>, t: multiset<T>, last: T, displaced: T, x: T)
    requires s <= front && t + multiset{displaced} == s + multiset{last}
    requires x in (front + multiset{last}) - t
    ensures x == displaced || x in front - s
  {
    assert (t + multiset{displaced})[x] == (s + multiset{last})[x];
  }

  // ----- keys

  ghost predicate DistinctKeys<K>(s: seq<Item<K>>) {
    forall i, j :: 0 <= i < j < |s| ==> s[i].key != s[j].key
  }

  lemma TwiceInMultiset<T>(s: seq<T>, i: nat, j: nat)
    requires i < j < |s| && s[i] == s[j]
    ensures multiset(s)[s[i]] >= 2
  {
    assert s == s[..j] + s[j..];
    assert s[i] in s[..j] && s[j] in s[j..];
  }

  lemma {:induction false} OnceInMultiset<K>(s: seq<Item<K>>, x: Item<K>)
    requires DistinctKeys(s)
    ensures multiset(s)[x] <= 1
  {
    if s != [] {
      var front := s[..|s| - 1];
      OnceInMultiset(front, x);
      assert s == front + [s[|s| - 1]];
      if x == s[|s| - 1] {
        assert x !in front;
      }
    }
  }

  lemma KeptIsOffered<K>(keyLess: (K, K) -> bool, capacity: nat, offered: seq<Item<K>>, x: Item<K>)
    requires x in Kept(keyLess, capacity, offered)
    ensures x in offered
  {
    KeptAreOffered(keyLess, capacity, offered);
    hide Kept;
    assert x in multiset(Kept(keyLess, capacity, offered)) && x in multiset(offered);
  }

  /** The queue keeps each key at most as often as it was offered. */
  lemma KeptKeysAreDistinct<K>(keyLess: (K, K) -> bool, capacity: nat, offered: seq<Item<K>>)
    requires DistinctKeys(offered)
    ensures DistinctKeys(Kept(keyLess, capacity, offered))
    ensures forall x :: x in Kept(keyLess, capacity, offered) ==> x in offered
  {
    hide Kept;
    var kept := Kept(keyLess, capacity, offered);
    KeptAreOffered(keyLess, capacity, offered);
    forall x | x in kept
      ensures x in offered
    {
      KeptIsOffered(keyLess, capacity, offered, x);
    }
    forall i, j | 0 <= i < j < |kept|
      ensures kept[i].key != kept[j].key
    {
      if kept[i] == kept[j] {
        TwiceInMultiset(kept, i, j);
        OnceInMultiset(offered, kept[i]);
      } else {
        assert kept[i] in offered && kept[j] in offered;
        var a :| 0 <= a < |offered| && offered[a] == kept[i];
        var b :| 0 <= b < |offered| && offered[b] == kept[j];
      }
    }
  }
}
