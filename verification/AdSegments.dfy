/** The segment keys of users and ads: the odometer that enumerates every combination of segment values,
    and the expansion that builds the keys one user or ad falls under. */
module AdSegments {
  import opened Arithmetic
  import opened Sequences
  import Strings

  const LINKER := "-"
  const UNKNOWN := "Unknown"

  type Feature = (string, string)

  /** One entry of an ordered map from names to value lists; a map is the list of its entries by name. */
  datatype Segment = Segment(name: string, values: seq<string>)

  ghost predicate Ordered(segments: seq<Segment>) {
    forall i, j :: 0 <= i < j < |segments| ==> Strings.Less(segments[i].name, segments[j].name)
  }

  ghost predicate NonEmpty(segments: seq<Segment>) {
    forall i :: 0 <= i < |segments| ==> segments[i].values != []
  }

  // ----- combinations of segment values

  /** A combination picks one value of every segment. */
  ghost predicate Combination(segments: seq<Segment>, digits: seq<nat>) {
    |digits| == |segments| && forall i :: 0 <= i < |digits| ==> digits[i] < |segments[i].values|
  }

  ghost function Total(segments: seq<Segment>): nat {
    if segments == [] then 1 else Total(segments[..|segments| - 1]) * |segments[|segments| - 1].values|
  }

  /** The combination read as a number whose last digit moves fastest. */
  ghost function Rank(segments: seq<Segment>, digits: seq<nat>): nat
    requires |digits| == |segments|
  {
    if segments == [] then 0
    else
      var n := |segments| - 1;
      Rank(segments[..n], digits[..n]) * |segments[n].values| + digits[n]
  }

  /** A front below its total and a digit below its radix make a number below the product. */
  lemma DigitFits(front: nat, total: nat, digit: nat, radix: nat)
    requires front < total && digit < radix
    ensures front * radix + digit < total * radix
  {
    NextMultiple(front, total, radix);
  }

  lemma {:induction false} RankBelowTotal(segments: seq<Segment>, digits: seq<nat>)
    requires Combination(segments, digits)
    ensures Rank(segments, digits) < Total(segments)
  {
    if segments != [] {
      var n := |segments| - 1;
      var front, total, radix := Rank(segments[..n], digits[..n]), Total(segments[..n]), |segments[n].values|;
      RankBelowTotal(segments[..n], digits[..n]);
      DigitFits(front, total, digits[n], radix);
      assert Rank(segments, digits) == front * radix + digits[n] && Total(segments) == total * radix;
    }
  }

  lemma DigitsUnique(a: nat, b: nat, c: nat, d: nat, r: nat)
    requires b < r && d < r && a * r + b == c * r + d
    ensures a == c && b == d
  {
    if a < c {
      NextMultiple(a, c, r);
    } else if c < a {
      NextMultiple(c, a, r);
    }
  }

  /** Different combinations have different ranks. */
  lemma {:induction false} RankIsInjective(segments: seq<Segment>, a: seq<nat>, b: seq<nat>)
    requires Combination(segments, a) && Combination(segments, b) && Rank(segments, a) == Rank(segments, b)
    ensures a == b
  {
    if segments != [] {
      var n := |segments| - 1;
      DigitsUnique(Rank(segments[..n], a[..n]), a[n], Rank(segments[..n], b[..n]), b[n], |segments[n].values|);
      RankIsInjective(segments[..n], a[..n], b[..n]);
      assert a == a[..n] + [a[n]] && b == b[..n] + [b[n]];
    }
  }

  /** Ranks follow the first segment that differs: the last segment's values change fastest. */
  lemma {:induction false} FirstDifferenceRanks(segments: seq<Segment>, a: seq<nat>, b: seq<nat>, i: nat)
    requires Combination(segments, a) && Combination(segments, b)
    requires i < |segments| && a[..i] == b[..i] && a[i] < b[i]
    ensures Rank(segments, a) < Rank(segments, b)
  {
    var n := |segments| - 1;
    if i < n {
      assert a[..n][..i] == a[..i] && b[..n][..i] == b[..i];
      FirstDifferenceRanks(segments[..n], a[..n], b[..n], i);
      DigitFits(Rank(segments[..n], a[..n]), Rank(segments[..n], b[..n]), a[n], |segments[n].values|);
    }
  }

  ghost function Zeros(n: nat): (r: seq<nat>)
    ensures |r| == n
  {
    seq(n, _ => 0)
  }

  lemma {:induction false} ZerosComeFirst(segments: seq<Segment>)
    requires NonEmpty(segments)
    ensures Combination(segments, Zeros(|segments|)) && Rank(segments, Zeros(|segments|)) == 0
  {
    if segments != [] {
      var n := |segments| - 1;
      ZerosComeFirst(segments[..n]);
      assert Zeros(|segments|)[..n] == Zeros(n);
    }
  }

  /** One tick of the odometer; None when every digit is at its last value. */
  ghost function Next(segments: seq<Segment>, digits: seq<nat>): (r: Option<seq<nat>>)
    requires Combination(segments, digits)
    ensures r.Some? ==> |r.value| == |digits|
  {
    if segments == [] then None
    else
      var n := |segments| - 1;
      if digits[n] + 1 < |segments[n].values| then Some(digits[n := digits[n] + 1])
      else
        match Next(segments[..n], digits[..n])
        case None => None
        case Some(front) => Some(front + [0])
  }

  lemma {:induction false} NextRank(segments: seq<Segment>, digits: seq<nat>)
    requires Combination(segments, digits)
    ensures match Next(segments, digits)
      case None => Rank(segments, digits) + 1 == Total(segments)
      case Some(next) => Combination(segments, next) && Rank(segments, next) == Rank(segments, digits) + 1
  {
    if segments != [] {
      var n := |segments| - 1;
      NextRank(segments[..n], digits[..n]);
      if digits[n] + 1 < |segments[n].values| {
        assert digits[n := digits[n] + 1][..n] == digits[..n];
      } else {
        match Next(segments[..n], digits[..n])
        case None =>
          CarryArithmetic(Rank(segments[..n], digits[..n]), |segments[n].values|);
        case Some(front) =>
          assert (front + [0])[..n] == front;
          CarryArithmetic(Rank(segments[..n], digits[..n]), |segments[n].values|);
      }
    }
  }

  lemma CarryArithmetic(a: nat, r: nat)
    requires r >= 1
    ensures a * r + (r - 1) + 1 == (a + 1) * r
  {
  }

  // ----- the key a combination spells

  ghost function Key(segments: seq<Segment>, digits: seq<nat>): string
    requires Combination(segments, digits)
  {
    if segments == [] then ""
    else
      var n := |segments| - 1;
      var value := segments[n].values[digits[n]];
      Key(segments[..n], digits[..n]) + if value == UNKNOWN then "" else value + LINKER
  }

  ghost function Data(segments: seq<Segment>, digits: seq<nat>): seq<Feature>
    requires Combination(segments, digits)
  {
    if segments == [] then []
    else
      var n := |segments| - 1;
      var value := segments[n].values[digits[n]];
      Data(segments[..n], digits[..n]) + if value == UNKNOWN then [] else [(segments[n].name, value)]
  }

  /** The key a feature list spells. */
  ghost function Spelled(features: seq<Feature>): string {
    if features == [] then ""
    else Spelled(features[..|features| - 1]) + (features[|features| - 1].1 + LINKER)
  }

  lemma SpelledMore(features: seq<Feature>, last: Feature)
    ensures Spelled(features + [last]) == Spelled(features) + (last.1 + LINKER)
    ensures Spelled(features + []) == Spelled(features) + ""
  {
    assert (features + [last])[..|features|] == features;
    assert features + [] == features;
  }

  lemma {:induction false} DataSpellsKey(segments: seq<Segment>, digits: seq<nat>)
    requires Combination(segments, digits)
    ensures Spelled(Data(segments, digits)) == Key(segments, digits)
  {
    if segments != [] {
      var n := |segments| - 1;
      DataSpellsKey(segments[..n], digits[..n]);
      SpelledMore(Data(segments[..n], digits[..n]), (segments[n].name, segments[n].values[digits[n]]));
    }
  }

  method SpellCombination(segments: seq<Segment>, digits: seq<nat>) returns (key: string, data: seq<Feature>)
    requires Combination(segments, digits)
    ensures key == Key(segments, digits) && data == Data(segments, digits)
  {
    key, data := "", [];
    for i := 0 to |segments|
      invariant key == Key(segments[..i], digits[..i]) && data == Data(segments[..i], digits[..i])
    {
      assert segments[..i + 1][..i] == segments[..i] && digits[..i + 1][..i] == digits[..i];
      var value := segments[i].values[digits[i]];
      if value != UNKNOWN {
        key := key + (value + LINKER);
        data := data + [(segments[i].name, value)];
      }
    }
    assert segments[..|segments|] == segments && digits[..|segments|] == digits;
  }

  /** The table after the first n combinations: a key spelled by several keeps the last one's features. */
  ghost function KeyTable(segments: seq<Segment>, visited: seq<seq<nat>>): map<string, seq<Feature>>
    requires forall r :: 0 <= r < |visited| ==> Combination(segments, visited[r])
  {
    if visited == [] then map[]
    else
      var last := visited[|visited| - 1];
      KeyTable(segments, visited[..|visited| - 1])[Key(segments, last) := Data(segments, last)]
  }

  /** The first |visited| combinations, in order. */
  ghost predicate InOrder(segments: seq<Segment>, visited: seq<seq<nat>>) {
    forall r :: 0 <= r < |visited| ==> Combination(segments, visited[r]) && Rank(segments, visited[r]) == r
  }

  /** A run of all ranks meets every combination, and each only once. */
  lemma EveryCombinationOnce(segments: seq<Segment>, visited: seq<seq<nat>>, digits: seq<nat>)
    requires InOrder(segments, visited) && |visited| == Total(segments) && Combination(segments, digits)
    ensures Rank(segments, digits) < |visited| && visited[Rank(segments, digits)] == digits
    ensures forall r :: 0 <= r < |visited| && visited[r] == digits ==> r == Rank(segments, digits)
  {
    RankBelowTotal(segments, digits);
    RankIsInjective(segments, visited[Rank(segments, digits)], digits);
  }

  /** All combinations, in order; without segments the odometer never starts. */
  ghost predicate Complete(segments: seq<Segment>, visited: seq<seq<nat>>) {
    InOrder(segments, visited) && |visited| == if segments == [] then 0 else Total(segments)
  }

  /** There is one such list. */
  lemma OneEnumeration(segments: seq<Segment>, a: seq<seq<nat>>, b: seq<seq<nat>>)
    requires Complete(segments, a) && Complete(segments, b)
    ensures a == b
  {
    hide Rank, Total, Combination;
    forall r | 0 <= r < |a|
      ensures a[r] == b[r]
    {
      RankIsInjective(segments, a[r], b[r]);
    }
  }

  /** The r-th combination visited is the last one that spells the key. */
  ghost predicate LastToSpell(segments: seq<Segment>, visited: seq<seq<nat>>, key: string, r: nat)
    requires forall q :: 0 <= q < |visited| ==> Combination(segments, visited[q])
  {
    && r < |visited| && Key(segments, visited[r]) == key
    && forall q :: r < q < |visited| ==> Key(segments, visited[q]) != key
  }

  lemma {:induction false} VisitedIsListed(segments: seq<Segment>, visited: seq<seq<nat>>, r: nat)
    requires forall q :: 0 <= q < |visited| ==> Combination(segments, visited[q])
    requires r < |visited|
    ensures Key(segments, visited[r]) in KeyTable(segments, visited)
  {
    hide Key, Data, Combination;
    var front := visited[..|visited| - 1];
    assert forall q :: 0 <= q < |front| ==> visited[q] == front[q];
    if r < |front| {
      VisitedIsListed(segments, front, r);
    }
  }

  lemma LastStays(segments: seq<Segment>, visited: seq<seq<nat>>, key: string, r: nat)
    requires forall q :: 0 <= q < |visited| ==> Combination(segments, visited[q])
    requires visited != [] && Key(segments, visited[|visited| - 1]) != key
    requires LastToSpell(segments, visited[..|visited| - 1], key, r)
    ensures LastToSpell(segments, visited, key, r)
  {
    hide Key, Combination;
    var front := visited[..|visited| - 1];
    forall q | r < q < |visited|
      ensures Key(segments, visited[q]) != key
    {
      assert q < |front| ==> visited[q] == front[q];
    }
  }

  /** A listed key carries the features of the last combination visited that spells it. */
  lemma {:induction false} ListedIsVisited(segments: seq<Segment>, visited: seq<seq<nat>>, key: string) returns (r: nat)
    requires forall q :: 0 <= q < |visited| ==> Combination(segments, visited[q])
    requires key in KeyTable(segments, visited)
    ensures LastToSpell(segments, visited, key, r) && KeyTable(segments, visited)[key] == Data(segments, visited[r])
  {
    hide Key, Data, Combination;
    var n := |visited| - 1;
    if Key(segments, visited[n]) == key {
      r := n;
    } else {
      assert forall q :: 0 <= q < n ==> visited[..n][q] == visited[q];
      r := ListedIsVisited(segments, visited[..n], key);
      LastStays(segments, visited, key, r);
    }
  }

  /** The enumerated keys are exactly the keys of all combinations, and each stored feature list is that of
      a combination and spells its own key. */
  lemma KeyTableIsExact(segments: seq<Segment>, visited: seq<seq<nat>>, key: string)
    requires InOrder(segments, visited) && |visited| == Total(segments)
    ensures key in KeyTable(segments, visited) <==> exists digits :: Combination(segments, digits) && Key(segments, digits) == key
    ensures key in KeyTable(segments, visited) ==>
      && Spelled(KeyTable(segments, visited)[key]) == key
      && exists digits :: Combination(segments, digits) && KeyTable(segments, visited)[key] == Data(segments, digits)
  {
    hide Key, Data, KeyTable, Rank, Total;
    if key in KeyTable(segments, visited) {
      var r := ListedIsVisited(segments, visited, key);
      DataSpellsKey(segments, visited[r]);
    }
    if digits :| Combination(segments, digits) && Key(segments, digits) == key {
      EveryCombinationOnce(segments, visited, digits);
      VisitedIsListed(segments, visited, Rank(segments, digits));
    }
  }

  /** The features name, in segment order, every segment whose picked value is not Unknown, with that value,
      and no other; at tells which segments those are. */
  ghost predicate NamesPicks(segments: seq<Segment>, digits: seq<nat>, at: seq<nat>, features: seq<Feature>)
    requires Combination(segments, digits)
  {
    && |at| == |features| && StrictlyAscending(at)
    && (forall i :: i in at <==> 0 <= i < |segments| && segments[i].values[digits[i]] != "Unknown")
    && forall j :: 0 <= j < |at| ==>
         at[j] < |segments| && features[j] == (segments[at[j]].name, segments[at[j]].values[digits[at[j]]])
  }

  lemma NamesOneMore(segments: seq<Segment>, digits: seq<nat>, at: seq<nat>, features: seq<Feature>)
    requires segments != [] && Combination(segments, digits)
    requires Combination(segments[..|segments| - 1], digits[..|segments| - 1])
      && NamesPicks(segments[..|segments| - 1], digits[..|segments| - 1], at, features)
    ensures var n := |segments| - 1;
      var value := segments[n].values[digits[n]];
      if value == "Unknown" then NamesPicks(segments, digits, at, features)
      else NamesPicks(segments, digits, at + [n], features + [(segments[n].name, value)])
  {
    var n := |segments| - 1;
    assert forall j :: 0 <= j < |at| ==> at[j] in at && at[j] < n;
    forall i
      ensures i in at + [n] <==> i in at || i == n
      ensures 0 <= i < n ==> segments[..n][i] == segments[i] && digits[..n][i] == digits[i]
    {
    }
  }

  lemma {:induction false} DataNamesPicks(segments: seq<Segment>, digits: seq<nat>) returns (at: seq<nat>)
    requires Combination(segments, digits)
    ensures NamesPicks(segments, digits, at, Data(segments, digits))
  {
    if segments == [] {
      at := [];
    } else {
      hide NamesPicks;
      var n := |segments| - 1;
      at := DataNamesPicks(segments[..n], digits[..n]);
      NamesOneMore(segments, digits, at, Data(segments[..n], digits[..n]));
      if segments[n].values[digits[n]] != "Unknown" {
        at := at + [n];
      } else {
        assert Data(segments, digits) == Data(segments[..n], digits[..n]);
      }
    }
  }

  /** A combination spells the key, its features are the ones stored, they spell the key too, and they are
      the picked values under their own segments' names. */
  ghost predicate SpelledBySome(segments: seq<Segment>, key: string, features: seq<Feature>) {
    && Spelled(features) == key
    && exists digits :: Combination(segments, digits) && Key(segments, digits) == key && Data(segments, digits) == features
  }

  /** The pair names a segment, with one of its values that is not Unknown. */
  ghost predicate OfSegment(segments: seq<Segment>, f: Feature) {
    exists i :: 0 <= i < |segments| && f.0 == segments[i].name && f.1 in segments[i].values && f.1 != "Unknown"
  }

  lemma PicksAreSegments(segments: seq<Segment>, digits: seq<nat>, at: seq<nat>, features: seq<Feature>, j: nat)
    requires Combination(segments, digits) && NamesPicks(segments, digits, at, features) && j < |features|
    ensures OfSegment(segments, features[j])
  {
    assert at[j] in at;
    assert features[j].0 == segments[at[j]].name;
  }

  lemma PickedNamesDiffer(segments: seq<Segment>, digits: seq<nat>, at: seq<nat>, features: seq<Feature>, a: nat, b: nat)
    requires Combination(segments, digits) && NamesPicks(segments, digits, at, features) && a < b < |features|
    requires Ordered(segments)
    ensures features[a].0 != features[b].0
  {
    Strings.LessIrreflexive(segments[at[a]].name);
    assert Strings.Less(segments[at[a]].name, segments[at[b]].name);
  }

  /** The stored features are the picks of a combination; every pair is a segment's, and each name comes at most
      once. */
  lemma StoredFeaturesAreSegments(segments: seq<Segment>, key: string, features: seq<Feature>)
    requires SpelledBySome(segments, key, features)
    ensures exists digits, at :: Combination(segments, digits) && NamesPicks(segments, digits, at, features)
    ensures forall f :: f in features ==> OfSegment(segments, f)
    ensures Ordered(segments) ==> forall a, b :: 0 <= a < b < |features| ==> features[a].0 != features[b].0
  {
    var digits :| Combination(segments, digits) && Key(segments, digits) == key && Data(segments, digits) == features;
    var at := DataNamesPicks(segments, digits);
    hide Key, Data, Spelled, NamesPicks, OfSegment, Ordered, Combination;
    forall f | f in features
      ensures OfSegment(segments, f)
    {
      var j :| 0 <= j < |features| && features[j] == f;
      PicksAreSegments(segments, digits, at, features, j);
    }
    if Ordered(segments) {
      forall a, b | 0 <= a < b < |features|
        ensures features[a].0 != features[b].0
      {
        PickedNamesDiffer(segments, digits, at, features, a, b);
      }
    }
  }

  lemma OneSegmentMore(segments: seq<Segment>, digits: seq<nat>, s: Segment, d: nat)
    requires Combination(segments, digits) && d < |s.values|
    ensures Combination(segments + [s], digits + [d])
    ensures s.values[d] == "Unknown" ==>
      Key(segments + [s], digits + [d]) == Key(segments, digits) && Data(segments + [s], digits + [d]) == Data(segments, digits)
    ensures s.values[d] != "Unknown" ==>
      && Key(segments + [s], digits + [d]) == Key(segments, digits) + (s.values[d] + "-")
      && Data(segments + [s], digits + [d]) == Data(segments, digits) + [(s.name, s.values[d])]
  {
    assert (segments + [s])[..|segments|] == segments && (digits + [d])[..|digits|] == digits;
    assert Key(segments, digits) + "" == Key(segments, digits) && Data(segments, digits) + [] == Data(segments, digits);
  }

  /** Two segments: the key and the features of two known values, and of one. */
  lemma KeysOfAgeAndSex()
    ensures var segments := [Segment("age", ["Unknown", "20"]), Segment("sex", ["Unknown", "m"])];
      && Combination(segments, [1, 1]) && Key(segments, [1, 1]) == "20-m-"
      && Data(segments, [1, 1]) == [("age", "20"), ("sex", "m")]
      && Combination(segments, [0, 1]) && Key(segments, [0, 1]) == "m-" && Data(segments, [0, 1]) == [("sex", "m")]
  {
    var age, sex := Segment("age", ["Unknown", "20"]), Segment("sex", ["Unknown", "m"]);
    OneSegmentMore([], [], age, 0);
    OneSegmentMore([], [], age, 1);
    OneSegmentMore([age], [0], sex, 1);
    OneSegmentMore([age], [1], sex, 1);
    assert [] + [age] == [age] && [age] + [sex] == [age, sex];
    assert [] + [0] == [0] && [] + [1] == [1] && [0] + [1] == [0, 1] && [1] + [1] == [1, 1];
    assert |"20"| != |"Unknown"| && |"m"| != |"Unknown"|;
    assert Key([], []) == "" && Data([], []) == [];
    hide Key, Data, Combination;
  }

  lemma AllKeysAreExact(segments: seq<Segment>, visited: seq<seq<nat>>)
    requires InOrder(segments, visited) && |visited| == Total(segments)
    ensures forall digits :: Combination(segments, digits) ==> Key(segments, digits) in KeyTable(segments, visited)
    ensures forall key :: key in KeyTable(segments, visited) ==> SpelledBySome(segments, key, KeyTable(segments, visited)[key])
  {
    hide Key, Data, KeyTable, Rank, Total;
    forall digits | Combination(segments, digits)
      ensures Key(segments, digits) in KeyTable(segments, visited)
    {
      KeyTableIsExact(segments, visited, Key(segments, digits));
    }
    forall key | key in KeyTable(segments, visited)
      ensures SpelledBySome(segments, key, KeyTable(segments, visited)[key])
    {
      var r := ListedIsVisited(segments, visited, key);
      DataSpellsKey(segments, visited[r]);
    }
  }

  lemma VisitMore(segments: seq<Segment>, visited: seq<seq<nat>>, counter: seq<nat>)
    requires InOrder(segments, visited) && Combination(segments, counter) && Rank(segments, counter) == |visited|
    ensures InOrder(segments, visited + [counter])
    ensures KeyTable(segments, visited + [counter]) == KeyTable(segments, visited)[Key(segments, counter) := Data(segments, counter)]
  {
    hide Combination, Rank, Key, Data;
    assert (visited + [counter])[..|visited|] == visited;
  }

  lemma NothingVisited(segments: seq<Segment>)
    ensures InOrder(segments, []) && KeyTable(segments, []) == map[]
  {
  }

  /** The enumeration of all keys, carrying from the last segment to the first. Without any segment the
      loop is not entered and no key is recorded, not even the empty one. */
  method GetAllPossibleSegStr(segments: seq<Segment>) returns (allKeys: map<string, seq<Feature>>, ghost visited: seq<seq<nat>>)
    requires NonEmpty(segments)
    ensures Complete(segments, visited)
    ensures allKeys == KeyTable(segments, visited)
    ensures segments == [] ==> allKeys == map[]
    ensures segments != [] ==>
      && (forall digits :: Combination(segments, digits) ==> Key(segments, digits) in allKeys)
      && (forall key :: key in allKeys ==> SpelledBySome(segments, key, allKeys[key]))
  {
    allKeys, visited := map[], [];
    NothingVisited(segments);
    if segments == [] {
      return;
    }
    var counter: seq<nat> := seq(|segments|, _ => 0);
    assert counter == Zeros(|segments|);
    ZerosComeFirst(segments);
    hide Combination, Rank, Total, InOrder, KeyTable, Key, Data, Next, Zeros, Spelled, SpelledBySome;
    RankBelowTotal(segments, counter);
    while true
      invariant Combination(segments, counter) && Rank(segments, counter) == |visited| < Total(segments)
      invariant InOrder(segments, visited) && allKeys == KeyTable(segments, visited)
      decreases Total(segments) - |visited|
    {
      var key, data := SpellCombination(segments, counter);
      allKeys := allKeys[key := data];
      VisitMore(segments, visited, counter);
      visited := visited + [counter];
      NextRank(segments, counter);
      var more;
      counter, more := Tick(segments, counter);
      if !more {
        break;
      }
      RankBelowTotal(segments, counter);
    }
    AllKeysAreExact(segments, visited);
  }

  /** The digits reset behind the one that moves. */
  ghost function Carried(front: Option<seq<nat>>, zeros: nat): Option<seq<nat>> {
    match front
    case None => None
    case Some(digits) => Some(digits + Zeros(zeros))
  }

  lemma NothingCarried(segments: seq<Segment>, digits: seq<nat>)
    requires Combination(segments, digits)
    ensures segments[..|segments|] == segments && digits[..|segments|] == digits
    ensures Next(segments, digits) == Carried(Next(segments[..|segments|], digits[..|segments|]), 0)
    ensures digits == digits[..|segments|] + Zeros(0)
  {
    assert segments[..|segments|] == segments && digits[..|segments|] == digits;
    match Next(segments, digits)
    case None =>
    case Some(next) => assert next + Zeros(0) == next;
  }

  lemma CarryOneMore(segments: seq<Segment>, digits: seq<nat>, position: nat, zeros: nat)
    requires Combination(segments, digits) && 0 < position <= |segments|
    requires digits[position - 1] + 1 >= |segments[position - 1].values|
    ensures Carried(Next(segments[..position], digits[..position]), zeros) ==
            Carried(Next(segments[..position - 1], digits[..position - 1]), zeros + 1)
    ensures (digits[..position] + Zeros(zeros))[position - 1 := 0] == digits[..position - 1] + Zeros(zeros + 1)
  {
    assert segments[..position][..position - 1] == segments[..position - 1];
    assert digits[..position][..position - 1] == digits[..position - 1];
    match Next(segments[..position - 1], digits[..position - 1])
    case None =>
    case Some(front) =>
      assert front + [0] + Zeros(zeros) == front + Zeros(zeros + 1);
  }

  lemma CarryStops(segments: seq<Segment>, digits: seq<nat>, position: nat, zeros: nat)
    requires Combination(segments, digits) && 0 < position <= |segments|
    requires digits[position - 1] + 1 < |segments[position - 1].values|
    ensures Carried(Next(segments[..position], digits[..position]), zeros) ==
            Some((digits[..position] + Zeros(zeros))[position - 1 := digits[position - 1] + 1])
  {
    var moved := digits[position - 1] + 1;
    assert digits[..position][position - 1 := moved] + Zeros(zeros) == (digits[..position] + Zeros(zeros))[position - 1 := moved];
  }

  /** Resets the digits at their last value from the end, and moves the first one that is not. */
  method Tick(segments: seq<Segment>, counter0: seq<nat>) returns (counter: seq<nat>, more: bool)
    requires Combination(segments, counter0)
    ensures more <==> Next(segments, counter0).Some?
    ensures more ==> counter == Next(segments, counter0).value
  {
    hide Next, Zeros;
    counter := counter0;
    var position: nat := |segments|;
    NothingCarried(segments, counter0);
    while position > 0 && counter[position - 1] >= |segments[position - 1].values| - 1
      invariant position <= |segments| && counter == counter0[..position] + Zeros(|segments| - position)
      invariant Next(segments, counter0) == Carried(Next(segments[..position], counter0[..position]), |segments| - position)
    {
      CarryOneMore(segments, counter0, position, |segments| - position);
      counter := counter[position - 1 := 0];
      position := position - 1;
    }
    more := position > 0;
    if more {
      CarryStops(segments, counter0, position, |segments| - position);
      counter := counter[position - 1 := counter[position - 1] + 1];
    } else {
      NoDigitsNoTick();
    }
  }

  lemma NoDigitsNoTick()
    ensures Next([], []) == None
  {
  }
}
