/** A user's information grouped by name, as the ordered map of features that is expanded into keys. */
module UserFeatures {
  import opened AdSegments
  import opened SegmentExpansion
  import opened Sequences
  import Strings

  /** An ordered map's entry of the name, with one value more. */
  function Pushed(features: seq<Segment>, name: string, value: string): seq<Segment> {
    if features == [] || Strings.Less(name, features[0].name) then
      [Segment(name, [value])] + features
    else if features[0].name == name then
      [Segment(name, features[0].values + [value])] + features[1..]
    else
      [features[0]] + Pushed(features[1..], name, value)
  }

  ghost function Lookup(features: seq<Segment>, name: string): seq<string> {
    if features == [] then []
    else if features[0].name == name then features[0].values
    else Lookup(features[1..], name)
  }

  ghost predicate AllAbove(features: seq<Segment>, name: string) {
    forall i :: 0 <= i < |features| ==> Strings.Less(name, features[i].name)
  }

  lemma OrderedHead(features: seq<Segment>)
    requires features != [] && Ordered(features)
    ensures AllAbove(features[1..], features[0].name) && Ordered(features[1..])
  {
  }

  lemma OrderedCons(head: Segment, rest: seq<Segment>)
    requires Ordered(rest) && AllAbove(rest, head.name)
    ensures Ordered([head] + rest)
  {
  }

  lemma {:induction false} LookupAbove(features: seq<Segment>, name: string)
    requires AllAbove(features, name)
    ensures Lookup(features, name) == []
  {
    if features != [] {
      Strings.LessIrreflexive(name);
      LookupAbove(features[1..], name);
    }
  }

  lemma AboveLess(features: seq<Segment>, low: string, name: string)
    requires AllAbove(features, name) && Strings.Less(low, name)
    ensures AllAbove(features, low)
  {
    forall i | 0 <= i < |features|
      ensures Strings.Less(low, features[i].name)
    {
      Strings.LessTransitive(low, name, features[i].name);
    }
  }

  lemma {:induction false} PushedAbove(features: seq<Segment>, name: string, value: string, low: string)
    requires AllAbove(features, low) && Strings.Less(low, name)
    ensures AllAbove(Pushed(features, name, value), low)
  {
    if features != [] && !Strings.Less(name, features[0].name) && features[0].name != name {
      PushedAbove(features[1..], name, value, low);
    }
  }

  lemma {:induction false} PushedIsOrdered(features: seq<Segment>, name: string, value: string)
    requires Ordered(features)
    ensures Ordered(Pushed(features, name, value))
  {
    if features != [] {
      OrderedHead(features);
      if Strings.Less(name, features[0].name) {
        AboveLess(features[1..], name, features[0].name);
        OrderedCons(Segment(name, [value]), features);
      } else if features[0].name == name {
        OrderedCons(Segment(name, features[0].values + [value]), features[1..]);
      } else {
        Strings.LessTotal(name, features[0].name);
        PushedIsOrdered(features[1..], name, value);
        PushedAbove(features[1..], name, value, features[0].name);
        OrderedCons(features[0], Pushed(features[1..], name, value));
      }
    }
  }

  lemma {:induction false} PushedLooksUp(features: seq<Segment>, name: string, value: string, other: string)
    requires Ordered(features)
    ensures Lookup(Pushed(features, name, value), other) ==
            Lookup(features, other) + if other == name then [value] else []
  {
    if features != [] {
      OrderedHead(features);
      if Strings.Less(name, features[0].name) {
        AboveLess(features[1..], name, features[0].name);
        LookupAbove(features, name);
        assert ([Segment(name, [value])] + features)[1..] == features;
      } else if features[0].name == name {
        assert ([Segment(name, features[0].values + [value])] + features[1..])[1..] == features[1..];
      } else {
        PushedLooksUp(features[1..], name, value, other);
        assert ([features[0]] + Pushed(features[1..], name, value))[1..] == Pushed(features[1..], name, value);
      }
    }
  }

  ghost function Grouped(userInfo: seq<Feature>): seq<Segment> {
    if userInfo == [] then []
    else
      var last := userInfo[|userInfo| - 1];
      Pushed(Grouped(userInfo[..|userInfo| - 1]), last.0, last.1)
  }

  ghost function ValuesOf(userInfo: seq<Feature>, name: string): seq<string> {
    if userInfo == [] then []
    else
      var last := userInfo[|userInfo| - 1];
      ValuesOf(userInfo[..|userInfo| - 1], name) + if last.0 == name then [last.1] else []
  }

  /** The values under a name stand in the order they came; at tells where. */
  lemma {:induction false} ValuesInOrder(userInfo: seq<Feature>, name: string) returns (at: seq<nat>)
    ensures StrictlyAscending(at) && forall i :: i in at <==> 0 <= i < |userInfo| && userInfo[i].0 == name
    ensures |at| == |ValuesOf(userInfo, name)|
    ensures forall j :: 0 <= j < |at| ==> at[j] < |userInfo| && ValuesOf(userInfo, name)[j] == userInfo[at[j]].1
  {
    at := [];
    if userInfo != [] {
      var n := |userInfo| - 1;
      at := ValuesInOrder(userInfo[..n], name);
      if userInfo[n].0 == name {
        PlaceAppended(at, n);
        at := at + [n];
      }
    }
  }

  /** Grouping lists every name once, in order, with all its values in the order they came. */
  lemma {:induction false} GroupedByName(userInfo: seq<Feature>)
    ensures Ordered(Grouped(userInfo))
    ensures forall name :: Lookup(Grouped(userInfo), name) == ValuesOf(userInfo, name)
  {
    if userInfo != [] {
      var front, last := userInfo[..|userInfo| - 1], userInfo[|userInfo| - 1];
      GroupedByName(front);
      PushedIsOrdered(Grouped(front), last.0, last.1);
      forall name
        ensures Lookup(Grouped(userInfo), name) == ValuesOf(userInfo, name)
      {
        PushedLooksUp(Grouped(front), last.0, last.1, name);
      }
    }
  }

  lemma {:induction false} LookupFinds(features: seq<Segment>, i: nat)
    requires Ordered(features) && i < |features|
    ensures Lookup(features, features[i].name) == features[i].values
  {
    if i > 0 {
      OrderedHead(features);
      Strings.LessIrreflexive(features[0].name);
      assert Strings.Less(features[0].name, features[i].name);
      LookupFinds(features[1..], i - 1);
    }
  }

  /** Every piece of information is a value, other than Unknown, of the segment it names. */
  ghost predicate Known(userInfo: seq<Feature>, segments: seq<Segment>) {
    forall i :: 0 <= i < |userInfo| ==> KnownOne(userInfo[i], segments)
  }

  ghost predicate KnownOne(info: Feature, segments: seq<Segment>) {
    info.1 != UNKNOWN && exists k :: 0 <= k < |segments| && segments[k].name == info.0 && info.1 in segments[k].values
  }

  lemma {:induction false} ValuesAreNamed(userInfo: seq<Feature>, name: string, value: string)
    requires value in ValuesOf(userInfo, name)
    ensures (name, value) in userInfo
  {
    var front := userInfo[..|userInfo| - 1];
    if value in ValuesOf(front, name) {
      ValuesAreNamed(front, name, value);
    }
  }

  lemma {:induction false} PushedNames(features: seq<Segment>, name: string, value: string)
    ensures forall i :: 0 <= i < |Pushed(features, name, value)| ==>
      Pushed(features, name, value)[i].name == name || exists j :: 0 <= j < |features| && features[j].name == Pushed(features, name, value)[i].name
  {
    if features == [] || Strings.Less(name, features[0].name) || features[0].name == name {
    } else {
      PushedNames(features[1..], name, value);
      var rest := Pushed(features[1..], name, value);
      forall i | 0 <= i < |rest| + 1
        ensures ([features[0]] + rest)[i].name == name || exists j :: 0 <= j < |features| && features[j].name == ([features[0]] + rest)[i].name
      {
        if i > 0 && rest[i - 1].name != name {
          var j :| 0 <= j < |features[1..]| && features[1..][j].name == rest[i - 1].name;
          assert features[j + 1].name == rest[i - 1].name;
        }
      }
    }
  }

  lemma {:induction false} GroupedNames(userInfo: seq<Feature>, i: nat) returns (k: nat)
    requires i < |Grouped(userInfo)|
    ensures k < |userInfo| && userInfo[k].0 == Grouped(userInfo)[i].name
  {
    var n := |userInfo| - 1;
    PushedNames(Grouped(userInfo[..n]), userInfo[n].0, userInfo[n].1);
    if Grouped(userInfo)[i].name == userInfo[n].0 {
      k := n;
    } else {
      var j: nat :| j < |Grouped(userInfo[..n])| && Grouped(userInfo[..n])[j].name == Grouped(userInfo)[i].name;
      k := GroupedNames(userInfo[..n], j);
    }
  }

  lemma OnlyOneNamed(segments: seq<Segment>, a: nat, b: nat)
    requires Ordered(segments) && a < |segments| && b < |segments| && segments[a].name == segments[b].name
    ensures a == b
  {
    Strings.LessIrreflexive(segments[a].name);
  }

  /** The grouped features of a known user fit the segments. */
  lemma KnownUserFits(userInfo: seq<Feature>, segments: seq<Segment>)
    requires Ordered(segments) && Known(userInfo, segments)
    ensures Fits(Grouped(userInfo), segments)
  {
    var features := Grouped(userInfo);
    GroupedByName(userInfo);
    forall i | 0 <= i < |features|
      ensures HasSegment(features[i], segments)
    {
      var k := GroupedNames(userInfo, i);
      LookupFinds(features, i);
      assert KnownOne(userInfo[k], segments);
      var s :| 0 <= s < |segments| && segments[s].name == userInfo[k].0 && userInfo[k].1 in segments[s].values;
      forall value | value in features[i].values
        ensures value in segments[s].values && value != UNKNOWN
      {
        ValuesAreNamed(userInfo, features[i].name, value);
        var q :| 0 <= q < |userInfo| && userInfo[q] == (features[i].name, value);
        assert KnownOne(userInfo[q], segments);
        var t :| 0 <= t < |segments| && segments[t].name == userInfo[q].0 && userInfo[q].1 in segments[t].values;
        OnlyOneNamed(segments, s, t);
      }
      assert FitsOne(features[i], segments[s]);
    }
  }

  method GetUserSegmentStr(userInfo: seq<Feature>) returns (keys: seq<string>)
    ensures keys == Expanded([""], Grouped(userInfo))
  {
    var features: seq<Segment> := [];
    for i := 0 to |userInfo|
      invariant features == Grouped(userInfo[..i])
    {
      assert userInfo[..i + 1][..i] == userInfo[..i];
      features := Pushed(features, userInfo[i].0, userInfo[i].1);
    }
    assert userInfo[..|userInfo|] == userInfo;
    keys := ExpandSegmentStr([""], features);
  }
}
