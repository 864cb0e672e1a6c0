/** The expansion of one user's or one ad's features into the segment keys it falls under. */
module SegmentExpansion {
  import opened AdSegments
  import opened Sequences
  import Strings

  // ----- expanding by one feature

  ghost function Suffixed(s: seq<string>, value: string): (r: seq<string>)
    ensures |r| == |s|
  {
    seq(|s|, i requires 0 <= i < |s| => s[i] + (value + LINKER))
  }

  /** The copies of one string for every value but the first. */
  ghost function Copies(base: string, values: seq<string>): seq<string>
    requires values != []
  {
    seq(|values| - 1, j requires 0 <= j < |values| - 1 => base + (values[j + 1] + LINKER))
  }

  /** The strings get the first value in place; the copies for the other values follow, string by string. */
  ghost function ExpandedBy(s: seq<string>, values: seq<string>): seq<string> {
    if values == [] then s
    else Suffixed(s, values[0]) + Concat(seq(|s|, i requires 0 <= i < |s| => Copies(s[i], values)))
  }

  /** One feature value more for every string: all pairs of a string and a value, and nothing else. */
  lemma ExpandedByIsAllPairs(s: seq<string>, values: seq<string>, key: string)
    requires values != []
    ensures key in ExpandedBy(s, values) <==>
            exists i, j :: 0 <= i < |s| && 0 <= j < |values| && key == s[i] + (values[j] + LINKER)
  {
    var copies := seq(|s|, i requires 0 <= i < |s| => Copies(s[i], values));
    if i, j :| 0 <= i < |s| && 0 <= j < |values| && key == s[i] + (values[j] + LINKER) {
      if j == 0 {
        assert Suffixed(s, values[0])[i] == key;
      } else {
        assert copies[i][j - 1] == key;
        ConcatAt(copies, i, j - 1);
      }
    }
    if key in Concat(copies) {
      var i, j := InConcat(copies, key);
      assert key == s[i] + (values[j + 1] + LINKER);
    }
    if key in Suffixed(s, values[0]) {
      var i :| 0 <= i < |s| && Suffixed(s, values[0])[i] == key;
      assert key == s[i] + (values[0] + LINKER);
    }
  }

  lemma {:induction false} InConcat<T>(parts: seq<seq<T>>, x: T) returns (i: nat, j: nat)
    requires x in Concat(parts)
    ensures i < |parts| && j < |parts[i]| && parts[i][j] == x
  {
    var n := |parts| - 1;
    if x in parts[n] {
      i := n;
      j :| 0 <= j < |parts[n]| && parts[n][j] == x;
    } else {
      i, j := InConcat(parts[..n], x);
    }
  }

  lemma {:induction false} CopiesBefore(s: seq<string>, values: seq<string>, i: nat)
    requires values != [] && i <= |s|
    ensures |Concat(seq(|s|, k requires 0 <= k < |s| => Copies(s[k], values))[..i])| == (|values| - 1) * i
  {
    var copies := seq(|s|, k requires 0 <= k < |s| => Copies(s[k], values));
    ConcatLength(copies[..i], |values| - 1);
    ConcatLengthAtMost(copies[..i], |values| - 1);
  }

  /** Where the pair of the i-th string and the j-th value stands: in the string's own place for the first value,
      and else behind all strings, by string and then by value. */
  lemma PlaceOfPair(s: seq<string>, values: seq<string>, i: nat, j: nat)
    requires i < |s| && j < |values|
    ensures var at := if j == 0 then i else |s| + (|values| - 1) * i + (j - 1);
      && 0 <= at < |ExpandedBy(s, values)| == |s| + (|values| - 1) * |s|
      && ExpandedBy(s, values)[at] == s[i] + values[j] + "-"
  {
    hide Concat;
    var copies := seq(|s|, k requires 0 <= k < |s| => Copies(s[k], values));
    CopiesBefore(s, values, |s|);
    assert copies[..|s|] == copies;
    if j == 0 {
      assert Suffixed(s, values[0])[i] == s[i] + (values[0] + LINKER);
    } else {
      CopiesBefore(s, values, i);
      ConcatAt(copies, i, j - 1);
      assert copies[i][j - 1] == s[i] + (values[j] + LINKER);
    }
    assert s[i] + (values[j] + LINKER) == s[i] + values[j] + "-";
  }

  /** Where the expansion by a feature with several values stands once the first i strings are done. */
  ghost function HalfExpanded(s: seq<string>, values: seq<string>, i: nat): seq<string>
    requires values != [] && i <= |s|
  {
    Suffixed(s[..i], values[0]) + s[i..] + Concat(seq(i, k requires 0 <= k < i => Copies(s[k], values)))
  }

  lemma HalfExpandedMore(s: seq<string>, values: seq<string>, i: nat)
    requires values != [] && i < |s|
    ensures |HalfExpanded(s, values, i)| >= |s| && HalfExpanded(s, values, i)[i] == s[i]
    ensures HalfExpanded(s, values, i + 1) ==
            (HalfExpanded(s, values, i) + Copies(s[i], values))[i := s[i] + (values[0] + LINKER)]
  {
    var copies := seq(i, k requires 0 <= k < i => Copies(s[k], values));
    var more := seq(i + 1, k requires 0 <= k < i + 1 => Copies(s[k], values));
    assert more == copies + [Copies(s[i], values)];
    ConcatSnoc(copies, Copies(s[i], values));
    assert Suffixed(s[..i + 1], values[0]) == Suffixed(s[..i], values[0]) + [s[i] + (values[0] + LINKER)];
    assert s[i..] == [s[i]] + s[i + 1..];
  }

  method AppendToAll(s0: seq<string>, value: string) returns (s: seq<string>)
    ensures s == Suffixed(s0, value)
  {
    s := s0;
    for i := 0 to |s0|
      invariant |s| == |s0|
      invariant forall k :: 0 <= k < |s| ==> s[k] == if k < i then Suffixed(s0, value)[k] else s0[k]
    {
      s := s[i := s[i] + (value + LINKER)];
    }
  }

  method AppendCopies(s0: seq<string>, i: nat, values: seq<string>) returns (s: seq<string>)
    requires i < |s0| && values != []
    ensures s == s0 + Copies(s0[i], values)
  {
    s := s0;
    for j := 1 to |values|
      invariant s == s0 + Copies(s0[i], values)[..j - 1]
    {
      assert Copies(s0[i], values)[..j] == Copies(s0[i], values)[..j - 1] + [s0[i] + (values[j] + LINKER)];
      s := s + [s[i] + (values[j] + LINKER)];
    }
  }

  /** Expands every string by one feature: in place for the first value, by copies for the others. */
  method ExpandBy(s0: seq<string>, values: seq<string>) returns (s: seq<string>)
    ensures s == ExpandedBy(s0, values)
  {
    hide Concat, Copies, HalfExpanded;
    s := s0;
    if values == [] {
    } else if |values| == 1 {
      s := AppendToAll(s, values[0]);
      NoCopies(s0, values, |s0|);
    } else {
      var size := |s0|;
      NothingExpanded(s0, values);
      for i := 0 to size
        invariant s == HalfExpanded(s0, values, i)
      {
        HalfExpandedMore(s0, values, i);
        s := AppendCopies(s, i, values);
        s := s[i := s[i] + (values[0] + LINKER)];
      }
      AllExpanded(s0, values);
    }
  }

  lemma {:induction false} NoCopies(s: seq<string>, values: seq<string>, n: nat)
    requires |values| == 1 && n <= |s|
    ensures Concat(seq(n, i requires 0 <= i < n => Copies(s[i], values))) == []
  {
    if n > 0 {
      NoCopies(s, values, n - 1);
      assert seq(n, i requires 0 <= i < n => Copies(s[i], values))[..n - 1] ==
        seq(n - 1, i requires 0 <= i < n - 1 => Copies(s[i], values));
    }
  }

  lemma NothingExpanded(s: seq<string>, values: seq<string>)
    requires values != []
    ensures HalfExpanded(s, values, 0) == s
  {
  }

  lemma AllExpanded(s: seq<string>, values: seq<string>)
    requires values != []
    ensures HalfExpanded(s, values, |s|) == ExpandedBy(s, values)
  {
    assert s[..|s|] == s && s[|s|..] == [];
    assert Suffixed(s, values[0]) + [] == Suffixed(s, values[0]);
  }

  // ----- expanding by all the features

  ghost function Expanded(s: seq<string>, features: seq<Segment>): seq<string> {
    if features == [] then s
    else ExpandedBy(Expanded(s, features[..|features| - 1]), features[|features| - 1].values)
  }

  lemma {:induction false} ExpandedNotEmpty(features: seq<Segment>)
    ensures Expanded([""], features) != []
  {
    if features != [] {
      ExpandedNotEmpty(features[..|features| - 1]);
    }
  }

  method ExpandSegmentStr(s0: seq<string>, features: seq<Segment>) returns (s: seq<string>)
    ensures s == Expanded(s0, features)
  {
    s := s0;
    for i := 0 to |features|
      invariant s == Expanded(s0, features[..i])
    {
      assert features[..i + 1][..i] == features[..i];
      s := ExpandBy(s, features[i].values);
    }
    assert features[..|features|] == features;
  }

  /** One value of every feature that has any. */
  ghost predicate Choice(features: seq<Segment>, picks: seq<nat>) {
    |picks| == |features| &&
    forall i :: 0 <= i < |features| ==> features[i].values == [] || picks[i] < |features[i].values|
  }

  ghost function Picked(features: seq<Segment>, picks: seq<nat>): string
    requires Choice(features, picks)
  {
    if features == [] then ""
    else
      var n := |features| - 1;
      Picked(features[..n], picks[..n]) + if features[n].values == [] then "" else features[n].values[picks[n]] + LINKER
  }

  /** The expansion holds a key for every choice of one value per feature, and no other key. */
  lemma {:induction false} ExpandedIsEveryChoice(features: seq<Segment>, key: string)
    ensures key in Expanded([""], features) <==> exists picks :: Choice(features, picks) && Picked(features, picks) == key
  {
    if features == [] {
      assert Choice(features, []) && Picked(features, []) == "";
    } else {
      var n := |features| - 1;
      if key in Expanded([""], features) {
        var picks := ChoiceOf(features, key);
      }
      if picks :| Choice(features, picks) && Picked(features, picks) == key {
        ExpandedIsEveryChoice(features[..n], Picked(features[..n], picks[..n]));
        ExpandedHolds(features, picks);
      }
    }
  }

  lemma ExpandedHolds(features: seq<Segment>, picks: seq<nat>)
    requires features != [] && Choice(features, picks)
    requires Picked(features[..|features| - 1], picks[..|features| - 1]) in Expanded([""], features[..|features| - 1])
    ensures Picked(features, picks) in Expanded([""], features)
  {
    var n := |features| - 1;
    var front, base := Expanded([""], features[..n]), Picked(features[..n], picks[..n]);
    var values := features[n].values;
    if values == [] {
      assert base + "" == base;
    } else {
      var i :| 0 <= i < |front| && front[i] == base;
      ExpandedByIsAllPairs(front, values, front[i] + (values[picks[n]] + LINKER));
    }
  }

  lemma {:induction false} ChoiceOf(features: seq<Segment>, key: string) returns (picks: seq<nat>)
    requires key in Expanded([""], features)
    ensures Choice(features, picks) && Picked(features, picks) == key
  {
    if features == [] {
      picks := [];
    } else {
      hide ExpandedBy, Picked, Choice;
      var n := |features| - 1;
      var front, values := Expanded([""], features[..n]), features[n].values;
      if values == [] {
        NothingToExpand(front);
        var rest := ChoiceOf(features[..n], key);
        picks := rest + [0];
        PickOneMore(features, rest, 0);
      } else {
        ExpandedByIsAllPairs(front, values, key);
        var i, j: nat :| 0 <= i < |front| && 0 <= j < |values| && key == front[i] + (values[j] + LINKER);
        var rest := ChoiceOf(features[..n], front[i]);
        picks := rest + [j];
        PickOneMore(features, rest, j);
      }
    }
  }

  lemma NothingToExpand(s: seq<string>)
    ensures ExpandedBy(s, []) == s
  {
  }

  lemma PickOneMore(features: seq<Segment>, rest: seq<nat>, j: nat)
    requires features != [] && Choice(features[..|features| - 1], rest)
    requires features[|features| - 1].values == [] || j < |features[|features| - 1].values|
    ensures Choice(features, rest + [j])
    ensures features[|features| - 1].values == [] ==>
      Picked(features, rest + [j]) == Picked(features[..|features| - 1], rest)
    ensures features[|features| - 1].values != [] ==>
      Picked(features, rest + [j]) == Picked(features[..|features| - 1], rest) + (features[|features| - 1].values[j] + LINKER)
  {
    assert (rest + [j])[..|features| - 1] == rest;
    assert Picked(features[..|features| - 1], rest) + "" == Picked(features[..|features| - 1], rest);
  }

  // ----- every expanded string is an enumerated key

  /** The features name segments, and their values are values of those segments other than Unknown. */
  ghost predicate Fits(features: seq<Segment>, segments: seq<Segment>) {
    forall i :: 0 <= i < |features| ==> HasSegment(features[i], segments)
  }

  ghost predicate HasSegment(feature: Segment, segments: seq<Segment>) {
    exists k :: 0 <= k < |segments| && FitsOne(feature, segments[k])
  }

  ghost predicate FitsOne(feature: Segment, segment: Segment) {
    && feature.name == segment.name
    && forall value :: value in feature.values ==> value in segment.values && value != UNKNOWN
  }

  ghost predicate KnowUnknown(segments: seq<Segment>) {
    forall k :: 0 <= k < |segments| ==> UNKNOWN in segments[k].values
  }

  lemma FitsFront(features: seq<Segment>, segments: seq<Segment>)
    requires segments != [] && Ordered(features) && Ordered(segments) && Fits(features, segments)
    ensures features != [] && FitsOne(features[|features| - 1], segments[|segments| - 1]) ==>
              Fits(features[..|features| - 1], segments[..|segments| - 1])
    ensures features == [] || !FitsOne(features[|features| - 1], segments[|segments| - 1]) ==>
              Fits(features, segments[..|segments| - 1])
  {
    var n := |segments| - 1;
    var matched := features != [] && FitsOne(features[|features| - 1], segments[n]);
    forall i | 0 <= i < |features| && (i < |features| - 1 || !matched)
      ensures HasSegment(features[i], segments[..n])
    {
      assert HasSegment(features[i], segments);
      var k :| 0 <= k < |segments| && FitsOne(features[i], segments[k]);
      if k == n {
        OnlyTheLastReaches(features, segments, i, matched);
      }
      assert FitsOne(features[i], segments[..n][k]);
    }
  }

  /** Only the last feature by name can be the last segment by name. */
  lemma OnlyTheLastReaches(features: seq<Segment>, segments: seq<Segment>, i: nat, matched: bool)
    requires segments != [] && i < |features| && Ordered(features) && Ordered(segments) && Fits(features, segments)
    requires matched == FitsOne(features[|features| - 1], segments[|segments| - 1])
    requires i < |features| - 1 || !matched
    ensures !FitsOne(features[i], segments[|segments| - 1])
  {
    var last := |features| - 1;
    if i < last {
      assert HasSegment(features[last], segments);
      var k :| 0 <= k < |segments| && FitsOne(features[last], segments[k]);
      assert Strings.Less(features[i].name, features[last].name);
      Strings.LessAsymmetric(features[i].name, features[last].name);
      Strings.LessIrreflexive(features[i].name);
    }
  }

  /** One more segment: the combination picks a value, and Unknown spells nothing. */
  lemma KeyMore(segments: seq<Segment>, front: seq<nat>, value: string) returns (digits: seq<nat>)
    requires segments != [] && Combination(segments[..|segments| - 1], front) && value in segments[|segments| - 1].values
    ensures Combination(segments, digits)
    ensures value != UNKNOWN ==> Key(segments, digits) == Key(segments[..|segments| - 1], front) + (value + LINKER)
    ensures value == UNKNOWN ==> Key(segments, digits) == Key(segments[..|segments| - 1], front)
  {
    var n := |segments| - 1;
    var d :| 0 <= d < |segments[n].values| && segments[n].values[d] == value;
    digits := front + [d];
    assert digits[..n] == front;
    assert Key(segments[..n], front) + "" == Key(segments[..n], front);
  }

  lemma PickedMore(features: seq<Segment>, picks: seq<nat>) returns (value: string)
    requires features != [] && Choice(features, picks)
    ensures Choice(features[..|features| - 1], picks[..|features| - 1])
    ensures features[|features| - 1].values == [] ==>
      && value == UNKNOWN
      && Picked(features, picks) == Picked(features[..|features| - 1], picks[..|features| - 1])
    ensures features[|features| - 1].values != [] ==>
      && value in features[|features| - 1].values
      && Picked(features, picks) == Picked(features[..|features| - 1], picks[..|features| - 1]) + (value + LINKER)
  {
    var m := |features| - 1;
    value := if features[m].values == [] then UNKNOWN else features[m].values[picks[m]];
    assert Picked(features[..m], picks[..m]) + "" == Picked(features[..m], picks[..m]);
  }

  lemma OrderedFront(s: seq<Segment>)
    requires s != [] && Ordered(s)
    ensures Ordered(s[..|s| - 1])
  {
  }

  /** The combination a choice stands for: the chosen values, and Unknown for every other segment. */
  lemma {:induction false} ChoiceIsACombination(features: seq<Segment>, picks: seq<nat>, segments: seq<Segment>)
    returns (digits: seq<nat>)
    requires Ordered(features) && Ordered(segments) && Fits(features, segments) && KnowUnknown(segments)
    requires Choice(features, picks)
    ensures Combination(segments, digits) && Key(segments, digits) == Picked(features, picks)
    decreases |segments|
  {
    if segments == [] {
      assert features == [];
      digits := [];
    } else {
      hide Ordered, Fits, Key, Picked, Choice, Combination;
      var n := |segments| - 1;
      FitsFront(features, segments);
      OrderedFront(segments);
      if features != [] && FitsOne(features[|features| - 1], segments[n]) {
        var m := |features| - 1;
        OrderedFront(features);
        var value := PickedMore(features, picks);
        var front := ChoiceIsACombination(features[..m], picks[..m], segments[..n]);
        digits := KeyMore(segments, front, value);
      } else {
        var front := ChoiceIsACombination(features, picks, segments[..n]);
        digits := KeyMore(segments, front, UNKNOWN);
      }
    }
  }

  /** Every string the expansion builds is one of the enumerated keys. */
  lemma ExpandedIsEnumerated(features: seq<Segment>, segments: seq<Segment>, visited: seq<seq<nat>>, key: string)
    requires Ordered(features) && Ordered(segments) && Fits(features, segments) && KnowUnknown(segments)
    requires InOrder(segments, visited) && |visited| == Total(segments)
    requires key in Expanded([""], features)
    ensures key in KeyTable(segments, visited)
  {
    var picks := ChoiceOf(features, key);
    var digits := ChoiceIsACombination(features, picks, segments);
    KeyTableIsExact(segments, visited, key);
  }
}
