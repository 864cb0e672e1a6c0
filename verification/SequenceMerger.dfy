/** The generic merge of sorted sequences: always the first least head, ties to the earlier sequence. */
module SequenceMerging {
  import opened Orders
  import opened Sequences

  ghost predicate Sorted<T>(less: (T, T) -> bool, s: seq<T>) {
    forall i, j :: 0 <= i < j < |s| ==> !less(s[j], s[i])
  }

  ghost predicate AllSorted<T>(less: (T, T) -> bool, parts: seq<seq<T>>) {
    forall k :: 0 <= k < |parts| ==> Sorted(less, parts[k])
  }

  ghost predicate Equivalent<T>(less: (T, T) -> bool, x: T, y: T) {
    !less(x, y) && !less(y, x)
  }

  /** The elements of s that tie with x, in the order in which they stand. */
  ghost function TiesWith<T>(less: (T, T) -> bool, x: T, s: seq<T>): seq<T> {
    if s == [] then
      []
    else
      TiesWith(less, x, s[..|s| - 1]) + (if Equivalent(less, x, s[|s| - 1]) then [s[|s| - 1]] else [])
  }

  lemma {:induction false} TiesAppend<T>(less: (T, T) -> bool, x: T, s: seq<T>, t: seq<T>)
    ensures TiesWith(less, x, s + t) == TiesWith(less, x, s) + TiesWith(less, x, t)
  {
    if t == [] {
      assert s + t == s;
    } else {
      TiesAppend(less, x, s, t[..|t| - 1]);
      assert (s + t)[..|s + t| - 1] == s + t[..|t| - 1];
    }
  }

  lemma {:induction false} NoTies<T>(less: (T, T) -> bool, x: T, s: seq<T>)
    requires forall y :: y in s ==> !Equivalent(less, x, y)
    ensures TiesWith(less, x, s) == []
  {
    if s != [] {
      NoTies(less, x, s[..|s| - 1]);
    }
  }

  lemma {:induction false} ConcatAppend<T>(a: seq<seq<T>>, b: seq<seq<T>>)
    ensures Concat(a + b) == Concat(a) + Concat(b)
  {
    if b == [] {
      assert a + b == a;
    } else {
      hide Concat;
      var front, last := b[..|b| - 1], b[|b| - 1];
      ConcatAppend(a, front);
      ConcatSnoc(a + front, last);
      ConcatSnoc(front, last);
      assert b == front + [last] && a + b == a + front + [last];
      assert Concat(a) + Concat(front) + last == Concat(a) + (Concat(front) + last);
    }
  }

  /** The sequences around the w-th one, whose head is pulled out. */
  lemma ConcatAround<T>(parts: seq<seq<T>>, w: nat)
    requires w < |parts| && parts[w] != []
    ensures Concat(parts) == Concat(parts[..w]) + [parts[w][0]] + parts[w][1..] + Concat(parts[w + 1..])
  {
    hide Concat;
    assert parts == parts[..w] + [parts[w]] + parts[w + 1..];
    ConcatAppend(parts[..w] + [parts[w]], parts[w + 1..]);
    ConcatSnoc(parts[..w], parts[w]);
    SplitHead(Concat(parts[..w]), parts[w]);
  }

  lemma SplitHead<T>(a: seq<T>, p: seq<T>)
    requires p != []
    ensures a + p == a + [p[0]] + p[1..]
  {
  }

  /** Moving h in front of a changes nothing when one of them is empty. */
  lemma MoveAhead<T>(o: seq<T>, h: seq<T>, a: seq<T>, t: seq<T>, b: seq<T>)
    requires h == [] || a == []
    ensures (o + h) + (a + t + b) == o + (a + h + t + b)
  {
    if h == [] {
      assert o + h == o && a + h == a;
    } else {
      assert a + t == t && a + h == h;
    }
  }

  /** What is left after taking the head of the w-th sequence, which goes when it is exhausted. */
  function Advance<T>(parts: seq<seq<T>>, w: nat): seq<seq<T>>
    requires w < |parts| && parts[w] != []
  {
    if |parts[w]| == 1 then parts[..w] + parts[w + 1..] else parts[w := parts[w][1..]]
  }

  lemma ConcatAdvance<T>(parts: seq<seq<T>>, w: nat)
    requires w < |parts| && parts[w] != []
    ensures Concat(Advance(parts, w)) == Concat(parts[..w]) + parts[w][1..] + Concat(parts[w + 1..])
  {
    hide Concat;
    if |parts[w]| == 1 {
      ConcatAppend(parts[..w], parts[w + 1..]);
      assert Concat(parts[..w]) + parts[w][1..] == Concat(parts[..w]);
    } else {
      assert parts[w := parts[w][1..]] == parts[..w] + [parts[w][1..]] + parts[w + 1..];
      ConcatAppend(parts[..w] + [parts[w][1..]], parts[w + 1..]);
      ConcatSnoc(parts[..w], parts[w][1..]);
    }
  }

  ghost predicate NoneEmpty<T>(parts: seq<seq<T>>) {
    forall k :: 0 <= k < |parts| ==> parts[k] != []
  }

  /** The first of the least heads: strictly below every earlier head, not above any later one. */
  ghost predicate FirstLeast<T>(less: (T, T) -> bool, parts: seq<seq<T>>, w: nat) {
    && w < |parts| && NoneEmpty(parts)
    && (forall k :: 0 <= k < w ==> less(parts[w][0], parts[k][0]))
    && (forall k :: w <= k < |parts| ==> !less(parts[k][0], parts[w][0]))
  }

  method MinElement<T(!new)>(less: (T, T) -> bool, parts: seq<seq<T>>) returns (w: nat)
    requires parts != [] && NoneEmpty(parts)
    ensures w < |parts|
    ensures StrictWeak(less) ==> FirstLeast(less, parts, w)
  {
    w := 0;
    for i := 1 to |parts|
      invariant w < i
      invariant StrictWeak(less) ==>
        && (forall k :: 0 <= k < w ==> less(parts[w][0], parts[k][0]))
        && (forall k :: w <= k < i ==> !less(parts[k][0], parts[w][0]))
    {
      if less(parts[i][0], parts[w][0]) {
        w := i;
      }
    }
  }

  lemma LeastOfAll<T(!new)>(less: (T, T) -> bool, parts: seq<seq<T>>, w: nat, k: nat, j: nat)
    requires StrictWeak(less) && AllSorted(less, parts) && FirstLeast(less, parts, w)
    requires k < |parts| && j < |parts[k]|
    ensures !less(parts[k][j], parts[w][0])
    ensures k < w ==> less(parts[w][0], parts[k][j])
  {
    assert j > 0 ==> !less(parts[k][j], parts[k][0]);
  }

  /** What was put out is sorted, nothing left goes before it, and ties kept their order. */
  ghost predicate MergedSoFar<T(!new)>(less: (T, T) -> bool, all: seq<seq<T>>, out: seq<T>, parts: seq<seq<T>>) {
    && Sorted(less, out) && AllSorted(less, parts)
    && (forall o, r :: o in out && r in Concat(parts) ==> !less(r, o))
    && (forall x :: TiesWith(less, x, out) + TiesWith(less, x, Concat(parts)) == TiesWith(less, x, Concat(all)))
  }

  lemma TakeHeadKeepsTies<T(!new)>(less: (T, T) -> bool, x: T, out: seq<T>, parts: seq<seq<T>>, w: nat)
    requires StrictWeak(less) && AllSorted(less, parts) && FirstLeast(less, parts, w)
    ensures TiesWith(less, x, out + [parts[w][0]]) + TiesWith(less, x, Concat(Advance(parts, w)))
         == TiesWith(less, x, out) + TiesWith(less, x, Concat(parts))
  {
    hide Concat, TiesWith;
    var h, a, tail, b := parts[w][0], Concat(parts[..w]), parts[w][1..], Concat(parts[w + 1..]);
    ConcatAround(parts, w);
    ConcatAdvance(parts, w);
    TiesAppend(less, x, out, [h]);
    TiesAppend(less, x, a + [h] + tail, b);
    TiesAppend(less, x, a + [h], tail);
    TiesAppend(less, x, a, [h]);
    TiesAppend(less, x, a + tail, b);
    TiesAppend(less, x, a, tail);
    EitherIsEmpty(less, x, parts, w);
    MoveAhead(TiesWith(less, x, out), TiesWith(less, x, [h]), TiesWith(less, x, a), TiesWith(less, x, tail), TiesWith(less, x, b));
  }

  /** If the head taken ties with x, nothing in the earlier sequences does. */
  lemma EitherIsEmpty<T(!new)>(less: (T, T) -> bool, x: T, parts: seq<seq<T>>, w: nat)
    requires StrictWeak(less) && AllSorted(less, parts) && FirstLeast(less, parts, w)
    ensures TiesWith(less, x, [parts[w][0]]) == [] || TiesWith(less, x, Concat(parts[..w])) == []
  {
    var h, a := parts[w][0], Concat(parts[..w]);
    if Equivalent(less, x, h) {
      forall y | y in a
        ensures !Equivalent(less, x, y)
      {
        ConcatMember(parts[..w], y);
        var k :| 0 <= k < w && y in parts[..w][k];
        var j :| 0 <= j < |parts[k]| && parts[k][j] == y;
        LeastOfAll(less, parts, w, k, j);
      }
      NoTies(less, x, a);
    } else {
      NoTies(less, x, [h]);
    }
  }

  lemma NothingBelowHead<T(!new)>(less: (T, T) -> bool, parts: seq<seq<T>>, w: nat, r: T)
    requires StrictWeak(less) && AllSorted(less, parts) && FirstLeast(less, parts, w) && r in Concat(parts)
    ensures !less(r, parts[w][0])
  {
    ConcatMember(parts, r);
    var k :| 0 <= k < |parts| && r in parts[k];
    var j :| 0 <= j < |parts[k]| && parts[k][j] == r;
    LeastOfAll(less, parts, w, k, j);
  }

  lemma AdvanceStaysSorted<T>(less: (T, T) -> bool, parts: seq<seq<T>>, w: nat)
    requires AllSorted(less, parts) && w < |parts| && parts[w] != []
    ensures AllSorted(less, Advance(parts, w))
  {
    assert Sorted(less, parts[w][1..]) by {
      assert Sorted(less, parts[w]);
    }
  }

  lemma AdvanceTakesAway<T>(parts: seq<seq<T>>, w: nat)
    requires w < |parts| && parts[w] != []
    ensures parts[w][0] in Concat(parts)
    ensures forall r :: r in Concat(Advance(parts, w)) ==> r in Concat(parts)
  {
    hide Concat;
    ConcatAround(parts, w);
    ConcatAdvance(parts, w);
  }

  lemma SortedSnoc<T>(less: (T, T) -> bool, s: seq<T>, x: T)
    requires Sorted(less, s) && forall y :: y in s ==> !less(x, y)
    ensures Sorted(less, s + [x])
  {
  }

  lemma TakeHead<T(!new)>(less: (T, T) -> bool, all: seq<seq<T>>, out: seq<T>, parts: seq<seq<T>>, w: nat)
    requires StrictWeak(less) && MergedSoFar(less, all, out, parts) && FirstLeast(less, parts, w)
    ensures MergedSoFar(less, all, out + [parts[w][0]], Advance(parts, w))
  {
    var h := parts[w][0];
    hide Concat, TiesWith, Sorted, AllSorted, Advance, StrictWeak;
    AdvanceTakesAway(parts, w);
    AdvanceStaysSorted(less, parts, w);
    SortedSnoc(less, out, h);
    forall o, r | o in out + [h] && r in Concat(Advance(parts, w))
      ensures !less(r, o)
    {
      if o == h {
        NothingBelowHead(less, parts, w, r);
      }
    }
    forall x
      ensures TiesWith(less, x, out + [h]) + TiesWith(less, x, Concat(Advance(parts, w))) == TiesWith(less, x, Concat(all))
    {
      TakeHeadKeepsTies(less, x, out, parts, w);
    }
  }

  lemma CountAround<T>(out: seq<T>, a: seq<T>, h: T, tail: seq<T>, b: seq<T>)
    ensures multiset(out + [h]) + multiset(a + tail + b) == multiset(out) + multiset(a + [h] + tail + b)
    ensures |a + tail + b| < |a + [h] + tail + b|
  {
  }

  lemma MergeStep<T(!new)>(less: (T, T) -> bool, all: seq<seq<T>>, out: seq<T>, parts: seq<seq<T>>, w: nat)
    requires w < |parts| && NoneEmpty(parts)
    requires multiset(out) + multiset(Concat(parts)) == multiset(Concat(all))
    requires StrictWeak(less) ==> FirstLeast(less, parts, w)
    ensures NoneEmpty(Advance(parts, w)) && |Concat(Advance(parts, w))| < |Concat(parts)|
    ensures multiset(out + [parts[w][0]]) + multiset(Concat(Advance(parts, w))) == multiset(Concat(all))
    ensures StrictWeak(less) && MergedSoFar(less, all, out, parts) ==>
      MergedSoFar(less, all, out + [parts[w][0]], Advance(parts, w))
  {
    hide Concat, MergedSoFar;
    ConcatAround(parts, w);
    ConcatAdvance(parts, w);
    CountAround(out, Concat(parts[..w]), parts[w][0], parts[w][1..], Concat(parts[w + 1..]));
    if StrictWeak(less) && MergedSoFar(less, all, out, parts) {
      TakeHead(less, all, out, parts, w);
    }
  }

  class SequenceMerger<T(!new)> {
    /** What is left of each added sequence, in the order of adding. */
    var sequences: seq<seq<T>>

    ghost predicate Valid()
      reads this
    {
      NoneEmpty(sequences)
    }

    constructor ()
      ensures Valid() && sequences == []
    {
      sequences := [];
    }

    method AddSequence(s: seq<T>)
      requires Valid()
      modifies this
      ensures Valid()
      ensures Concat(sequences) == Concat(old(sequences)) + s
      ensures sequences == if s == [] then old(sequences) else old(sequences) + [s]
    {
      if s != [] {
        sequences := sequences + [s];
        ConcatSnoc(old(sequences), s);
      }
    }

    /** Puts out every element once; with sorted sequences the result is sorted and stable: elements
        that tie keep the order of their sequences, and within a sequence their own. */
    method Merge(less: (T, T) -> bool) returns (out: seq<T>)
      requires Valid()
      modifies this
      ensures Valid() && sequences == []
      ensures multiset(out) == multiset(Concat(old(sequences)))
      ensures StrictWeak(less) && AllSorted(less, old(sequences)) ==>
        && Sorted(less, out)
        && forall x :: TiesWith(less, x, out) == TiesWith(less, x, Concat(old(sequences)))
    {
      hide Concat, TiesWith, FirstLeast, MergedSoFar, StrictWeak, AllSorted, Sorted, Advance;
      ghost var all := sequences;
      out := [];
      MergeStarts(less, all);
      while |sequences| > 1
        invariant Valid()
        invariant multiset(out) + multiset(Concat(sequences)) == multiset(Concat(all))
        invariant StrictWeak(less) && AllSorted(less, all) ==> MergedSoFar(less, all, out, sequences)
        decreases |Concat(sequences)|
      {
        var w := MinElement(less, sequences);
        MergeStep(less, all, out, sequences, w);
        out := out + [sequences[w][0]];
        sequences := Advance(sequences, w);
      }
      MergeEnds(less, all, out, sequences);
      assert out + [] == out;
      if |sequences| == 1 {
        out := out + sequences[0];
        sequences := [];
      }
    }
  }

  lemma MergeStarts<T(!new)>(less: (T, T) -> bool, all: seq<seq<T>>)
    ensures AllSorted(less, all) ==> MergedSoFar(less, all, [], all)
  {
  }

  /** The one sequence left is put out as it stands. */
  lemma MergeEnds<T(!new)>(less: (T, T) -> bool, all: seq<seq<T>>, out: seq<T>, parts: seq<seq<T>>)
    requires |parts| <= 1 && multiset(out) + multiset(Concat(parts)) == multiset(Concat(all))
    ensures multiset(out + if |parts| == 1 then parts[0] else []) == multiset(Concat(all))
    ensures MergedSoFar(less, all, out, parts) ==>
      var result := out + if |parts| == 1 then parts[0] else [];
      && Sorted(less, result)
      && forall x :: TiesWith(less, x, result) == TiesWith(less, x, Concat(all))
  {
    var rest := if |parts| == 1 then parts[0] else [];
    assert Concat(parts) == rest by {
      if |parts| == 1 {
        assert parts[..0] == [];
      }
    }
    if MergedSoFar(less, all, out, parts) {
      forall x
        ensures TiesWith(less, x, out + rest) == TiesWith(less, x, Concat(all))
      {
        TiesAppend(less, x, out, rest);
      }
      SortedAppend(less, out, rest);
    }
  }

  lemma SortedAppend<T(!new)>(less: (T, T) -> bool, s: seq<T>, t: seq<T>)
    requires Sorted(less, s) && Sorted(less, t) && forall o, r :: o in s && r in t ==> !less(r, o)
    ensures Sorted(less, s + t)
  {
    forall i, j | 0 <= i < j < |s + t|
      ensures !less((s + t)[j], (s + t)[i])
    {
      if i < |s| && |s| <= j {
        assert s[i] in s && t[j - |s|] in t;
      }
    }
  }
}
