/** Facts about sequences that several components share: flattening, repetition, distinctness
    and the ascending listing of a finite set (the iteration order of an ordered map). */
module Sequences {

  datatype Option<+T> = None | Some(value: T)

  function Min(a: int, b: int): int {
    if a <= b then a else b
  }

  function Max(a: int, b: int): int {
    if a >= b then a else b
  }

  ghost predicate Distinct<T>(s: seq<T>) {
    forall i, j :: 0 <= i < j < |s| ==> s[i] != s[j]
  }

  ghost predicate StrictlyAscending(s: seq<int>) {
    forall i, j :: 0 <= i < j < |s| ==> s[i] < s[j]
  }

  ghost function Elements<T>(s: seq<T>): set<T> {
    set x | x in s
  }

  /** One place more, behind all others. */
  lemma PlaceAppended(at: seq<nat>, n: nat)
    requires StrictlyAscending(at) && forall i :: i in at ==> i < n
    ensures StrictlyAscending(at + [n]) && forall i :: i in at + [n] <==> i in at || i == n
  {
    assert forall j :: 0 <= j < |at| ==> at[j] in at;
  }

  lemma DistinctAppend<T>(s: seq<T>, t: seq<T>)
    requires Distinct(s) && Distinct(t)
    requires forall x :: x in s ==> x !in t
    ensures Distinct(s + t)
  {
    forall i, j | 0 <= i < j < |s + t|
      ensures (s + t)[i] != (s + t)[j]
    {
      if i < |s| && |s| <= j {
        assert s[i] in s && t[j - |s|] in t;
      }
    }
  }

  lemma LastOfBoth<T>(a: seq<T>, b: seq<T>)
    requires b != []
    ensures var front, last := b[..|b| - 1], b[|b| - 1];
      b == front + [last] && a + b == (a + front) + [last]
  {
  }

  // ----- flattening

  function Concat<T>(parts: seq<seq<T>>): seq<T> {
    if parts == [] then [] else Concat(parts[..|parts| - 1]) + parts[|parts| - 1]
  }

  lemma ConcatSnoc<T>(parts: seq<seq<T>>, last: seq<T>)
    ensures Concat(parts + [last]) == Concat(parts) + last
  {
    assert (parts + [last])[..|parts|] == parts;
  }

  lemma ConcatTake<T>(parts: seq<seq<T>>, k: nat)
    requires k < |parts|
    ensures Concat(parts[..k + 1]) == Concat(parts[..k]) + parts[k]
  {
    assert parts[..k + 1][..k] == parts[..k];
  }

  lemma {:induction false} ConcatPrefix<T>(parts: seq<seq<T>>, k: nat)
    requires k <= |parts|
    ensures Concat(parts[..k]) <= Concat(parts)
  {
    if k == |parts| {
      assert parts[..k] == parts;
    } else {
      var shorter := parts[..|parts| - 1];
      ConcatPrefix(shorter, k);
      assert shorter[..k] == parts[..k];
    }
  }

  /** The j-th element of the k-th part sits right after everything the earlier parts hold. */
  lemma ConcatAt<T>(parts: seq<seq<T>>, k: nat, j: nat)
    requires k < |parts| && j < |parts[k]|
    ensures |Concat(parts[..k])| + j < |Concat(parts)|
    ensures Concat(parts)[|Concat(parts[..k])| + j] == parts[k][j]
  {
    ConcatTake(parts, k);
    ConcatPrefix(parts, k + 1);
  }

  lemma {:induction false} ConcatMember<T>(parts: seq<seq<T>>, x: T)
    ensures x in Concat(parts) <==> exists k :: 0 <= k < |parts| && x in parts[k]
  {
    if parts != [] {
      var shorter := parts[..|parts| - 1];
      ConcatMember(shorter, x);
      if exists k :: 0 <= k < |parts| && x in parts[k] {
        var k :| 0 <= k < |parts| && x in parts[k];
        if k < |shorter| {
          assert shorter[k] == parts[k];
        }
      }
    }
  }

  lemma {:induction false} ConcatLength<T>(parts: seq<seq<T>>, least: int)
    requires forall k :: 0 <= k < |parts| ==> |parts[k]| >= least
    ensures |Concat(parts)| >= least * |parts|
  {
    if parts != [] {
      ConcatLength(parts[..|parts| - 1], least);
    }
  }

  lemma {:induction false} ConcatLengthAtMost<T>(parts: seq<seq<T>>, most: int)
    requires forall k :: 0 <= k < |parts| ==> |parts[k]| <= most
    ensures |Concat(parts)| <= most * |parts|
  {
    if parts != [] {
      ConcatLengthAtMost(parts[..|parts| - 1], most);
    }
  }

  /** Parts that are distinct, and share nothing with each other, flatten to a distinct sequence. */
  lemma {:induction false} ConcatDistinct<T>(parts: seq<seq<T>>)
    requires forall k :: 0 <= k < |parts| ==> Distinct(parts[k])
    requires forall k, l, x :: 0 <= k < l < |parts| && x in parts[k] ==> x !in parts[l]
    ensures Distinct(Concat(parts))
  {
    if parts != [] {
      var shorter := parts[..|parts| - 1];
      var last := parts[|parts| - 1];
      ConcatDistinct(shorter);
      forall x | x in Concat(shorter)
        ensures x !in last
      {
        ConcatMember(shorter, x);
        var k :| 0 <= k < |shorter| && x in shorter[k];
        assert x in parts[k];
      }
      DistinctAppend(Concat(shorter), last);
    }
  }

  // ----- what is new

  /** The elements not known before, each once, in the order of their first places. */
  ghost function NewIn<T>(known: set<T>, s: seq<T>): seq<T> {
    if s == [] then
      []
    else
      var front, last := s[..|s| - 1], s[|s| - 1];
      NewIn(known, front) + if last in known || last in front then [] else [last]
  }

  lemma NewInMore<T>(known: set<T>, s: seq<T>, i: nat)
    requires i < |s|
    ensures NewIn(known, s[..i + 1]) == NewIn(known, s[..i]) + if s[i] in known + Elements(s[..i]) then [] else [s[i]]
    ensures Elements(s[..i + 1]) == Elements(s[..i]) + {s[i]}
  {
    assert s[..i + 1][..i] == s[..i] && s[..i + 1][i] == s[i];
  }

  /** Known or new: together they are everything. */
  lemma {:induction false} NewInElements<T>(known: set<T>, s: seq<T>, x: T)
    ensures x in NewIn(known, s) <==> x in s && x !in known
  {
    if s != [] {
      NewInElements(known, s[..|s| - 1], x);
    }
  }

  // ----- repetition and counting

  function Repeat<T>(x: T, n: nat): (r: seq<T>)
    ensures |r| == n
    ensures forall i :: 0 <= i < n ==> r[i] == x
  {
    seq(n, _ => x)
  }

  function Count<T(==)>(s: seq<T>, x: T): nat {
    if s == [] then 0 else Count(s[..|s| - 1], x) + (if s[|s| - 1] == x then 1 else 0)
  }

  lemma {:induction false} CountAppend<T>(s: seq<T>, t: seq<T>, x: T)
    ensures Count(s + t, x) == Count(s, x) + Count(t, x)
  {
    if t == [] {
      assert s + t == s;
    } else {
      var front := t[..|t| - 1];
      CountAppend(s, front, x);
      assert (s + t)[..|s + t| - 1] == s + front;
    }
  }

  lemma {:induction false} CountUniform<T>(s: seq<T>, y: T, x: T)
    requires forall i :: 0 <= i < |s| ==> s[i] == y
    ensures Count(s, x) == if x == y then |s| else 0
  {
    if s != [] {
      CountUniform(s[..|s| - 1], y, x);
    }
  }

  lemma {:induction false} CountAbsent<T>(s: seq<T>, x: T)
    requires x !in s
    ensures Count(s, x) == 0
  {
    if s != [] {
      CountAbsent(s[..|s| - 1], x);
    }
  }

  lemma {:induction false} CountPrefix<T>(s: seq<T>, n: nat, x: T)
    requires n <= |s|
    ensures Count(s[..n], x) <= Count(s, x)
  {
    CountAppend(s[..n], s[n..], x);
    assert s[..n] + s[n..] == s;
  }

  // ----- counting arguments

  lemma {:induction false} DistinctCardinality<T>(s: seq<T>)
    requires Distinct(s)
    ensures |Elements(s)| == |s|
  {
    if s != [] {
      var front := s[..|s| - 1];
      DistinctCardinality(front);
      assert Elements(s) == Elements(front) + {s[|s| - 1]};
      assert s[|s| - 1] !in Elements(front);
    }
  }

  lemma {:induction false} ElementsAtMost<T>(s: seq<T>)
    ensures |Elements(s)| <= |s|
  {
    if s != [] {
      var front := s[..|s| - 1];
      ElementsAtMost(front);
      assert Elements(s) == Elements(front) + {s[|s| - 1]};
    }
  }

  lemma {:induction false} DistinctIffCardinality<T>(s: seq<T>)
    ensures Distinct(s) <==> |Elements(s)| == |s|
  {
    if Distinct(s) {
      DistinctCardinality(s);
    } else {
      var i, j :| 0 <= i < j < |s| && s[i] == s[j];
      var shorter := s[..j] + s[j + 1..];
      ElementsAtMost(shorter);
      forall x | x in s
        ensures x in shorter
      {
        var k :| 0 <= k < |s| && s[k] == x;
        assert k < j ==> shorter[k] == x;
        assert k == j ==> shorter[i] == x;
        assert k > j ==> shorter[k - 1] == x;
      }
      assert Elements(s) == Elements(shorter);
    }
  }

  lemma SubsetCardinality<T>(a: set<T>, b: set<T>)
    requires a <= b
    ensures |a| <= |b|
  {
    assert b == a + (b - a);
  }

  function Below(n: nat): (r: set<nat>)
    ensures forall x :: x in r <==> 0 <= x < n
  {
    if n == 0 then {} else Below(n - 1) + {n - 1}
  }

  lemma {:induction false} BelowCardinality(n: nat)
    ensures |Below(n)| == n
  {
    if n != 0 {
      BelowCardinality(n - 1);
    }
  }

  // ----- the ascending listing of a set of keys

  predicate IsLeast(s: set<nat>, x: nat) {
    x in s && forall y :: y in s ==> x <= y
  }

  lemma {:induction false} LeastExists(s: set<nat>)
    requires s != {}
    ensures exists x :: IsLeast(s, x)
  {
    var x :| x in s;
    var rest := s - {x};
    if rest == {} {
      assert s == {x};
      assert IsLeast(s, x);
    } else {
      LeastExists(rest);
      var z :| IsLeast(rest, z);
      var least: nat := if x <= z then x else z;
      forall y | y in s
        ensures least <= y
      {
        assert y == x || y in rest;
      }
      assert IsLeast(s, least);
    }
  }

  function Least(s: set<nat>): (x: nat)
    requires s != {}
    ensures x in s && forall y :: y in s ==> x <= y
  {
    LeastExists(s);
    var x :| IsLeast(s, x);
    x
  }

  ghost predicate Listing(r: seq<nat>, s: set<nat>) {
    StrictlyAscending(r) && |r| == |s| && forall x :: x in r <==> x in s
  }

  function ListKeys(s: set<nat>): (r: seq<nat>)
    ensures Listing(r, s)
  {
    if s == {} then
      []
    else
      var x := Least(s);
      [x] + ListKeys(s - {x})
  }

  lemma ListingHead(r: seq<nat>, s: set<nat>)
    requires Listing(r, s) && s != {}
    ensures r != [] && IsLeast(s, r[0])
  {
    var x :| x in s;
    assert x in r;
    forall y | y in s
      ensures r != [] && r[0] <= y
    {
      var i :| 0 <= i < |r| && r[i] == y;
    }
    assert r[0] in r;
  }

  lemma ListingTail(r: seq<nat>, s: set<nat>)
    requires Listing(r, s) && r != []
    ensures Listing(r[1..], s - {r[0]})
  {
    forall x | x in s && x != r[0]
      ensures x in r[1..]
    {
      var i :| 0 <= i < |r| && r[i] == x;
      assert r[1..][i - 1] == x;
    }
    assert r[0] in s;
  }

  /** Two ascending listings of one set agree: their heads are its least element, and so on. */
  lemma {:induction false} ListingIsUnique(r: seq<nat>, r': seq<nat>, s: set<nat>)
    requires Listing(r, s) && Listing(r', s)
    ensures r == r'
    decreases |r|
  {
    if r == [] {
      assert |s| == 0;
    } else {
      hide Listing;
      ListingHead(r, s);
      ListingHead(r', s);
      ListingTail(r, s);
      ListingTail(r', s);
      ListingIsUnique(r[1..], r'[1..], s - {r[0]});
      assert r == [r[0]] + r[1..] && r' == [r'[0]] + r'[1..];
    }
  }

  /** The keys of an ordered map, in the order its iterator visits them. */
  ghost function Ascending(s: set<nat>): (r: seq<nat>)
    ensures Listing(r, s)
  {
    assert Listing(ListKeys(s), s);
    var r :| Listing(r, s);
    r
  }

  method KeysInOrder(s: set<nat>) returns (r: seq<nat>)
    ensures r == Ascending(s)
  {
    r := ListKeys(s);
    ListingIsUnique(r, Ascending(s), s);
  }
}
