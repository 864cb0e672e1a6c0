/** Taking newly reported values into the segments before their combinations are enumerated. */
module SegmentUpdate {
  import opened AdSegments
  import opened SegmentExpansion
  import opened Sequences
  import opened UserFeatures
  import Strings

  /** A segment with the reported values it did not have, each once, in the order reported. */
  ghost function Merged(segment: Segment, reported: seq<string>): Segment {
    Segment(segment.name, segment.values + NewIn(Elements(segment.values), reported))
  }

  /** Every segment takes what was reported under its name; reports under other names are dropped. */
  ghost function MergedAll(segments: seq<Segment>, updates: seq<Segment>): (r: seq<Segment>)
    ensures |r| == |segments|
  {
    seq(|segments|, k requires 0 <= k < |segments| => Merged(segments[k], Lookup(updates, segments[k].name)))
  }

  method FindSegment(segments: seq<Segment>, name: string) returns (k: nat)
    ensures k <= |segments| && (k < |segments| ==> segments[k].name == name)
    ensures forall j :: 0 <= j < k ==> segments[j].name != name
  {
    k := 0;
    while k < |segments| && segments[k].name != name
      invariant k <= |segments| && forall j :: 0 <= j < k ==> segments[j].name != name
    {
      k := k + 1;
    }
  }

  method MergeValues(segment: Segment, reported: seq<string>) returns (r: Segment)
    ensures r == Merged(segment, reported)
  {
    var values := segment.values;
    var known := set v | v in segment.values;
    for i := 0 to |reported|
      invariant values == segment.values + NewIn(Elements(segment.values), reported[..i])
      invariant known == Elements(segment.values) + Elements(reported[..i])
    {
      NewInMore(Elements(segment.values), reported, i);
      if reported[i] !in known {
        values := values + [reported[i]];
        known := known + {reported[i]};
      }
    }
    assert reported[..|reported|] == reported;
    r := Segment(segment.name, values);
  }

  /** The reports looked at so far: one more names one segment more. */
  lemma {:induction false} LookupPrefix(updates: seq<Segment>, u: nat, name: string)
    requires Ordered(updates) && u < |updates|
    ensures Lookup(updates[..u + 1], name) == if updates[u].name == name then updates[u].values else Lookup(updates[..u], name)
  {
    var longer := updates[..u + 1];
    if u == 0 {
      assert longer[1..] == [];
    } else {
      OrderedHead(updates);
      LookupPrefix(updates[1..], u - 1, name);
      assert longer[1..] == updates[1..][..u] && updates[..u][1..] == updates[1..][..u - 1];
      Strings.LessIrreflexive(updates[0].name);
      assert Strings.Less(updates[0].name, updates[u].name);
    }
  }

  lemma NothingReported(segments: seq<Segment>)
    ensures MergedAll(segments, []) == segments
  {
    forall k | 0 <= k < |segments|
      ensures MergedAll(segments, [])[k] == segments[k]
    {
      assert segments[k].values + [] == segments[k].values;
    }
  }

  /** One report more touches the segment of its name, if there is one. */
  lemma OneMoreReport(segments: seq<Segment>, updates: seq<Segment>, u: nat, now: seq<Segment>, k: nat)
    requires Ordered(segments) && Ordered(updates) && u < |updates| && now == MergedAll(segments, updates[..u])
    requires k <= |segments| && (k < |segments| ==> segments[k].name == updates[u].name)
    requires k == |segments| ==> forall j :: 0 <= j < |segments| ==> segments[j].name != updates[u].name
    ensures k == |segments| ==> MergedAll(segments, updates[..u + 1]) == now
    ensures k < |segments| ==>
      now[k] == segments[k] && MergedAll(segments, updates[..u + 1]) == now[k := Merged(segments[k], updates[u].values)]
  {
    forall j | 0 <= j < |segments|
      ensures MergedAll(segments, updates[..u + 1])[j] == if j == k then Merged(segments[j], updates[u].values) else now[j]
    {
      LookupPrefix(updates, u, segments[j].name);
      if k < |segments| && j != k {
        Strings.LessIrreflexive(segments[k].name);
        assert segments[j].name != segments[k].name;
      }
    }
    if k < |segments| {
      NotReportedBefore(updates, u, segments[k].name);
      assert segments[k].values + [] == segments[k].values;
    }
  }

  lemma {:induction false} NotReportedBefore(updates: seq<Segment>, u: nat, name: string)
    requires Ordered(updates) && u < |updates| && updates[u].name == name
    ensures Lookup(updates[..u], name) == []
  {
    if u > 0 {
      OrderedHead(updates);
      NotReportedBefore(updates[1..], u - 1, name);
      assert updates[..u][1..] == updates[1..][..u - 1];
      Strings.LessIrreflexive(updates[0].name);
      assert Strings.Less(updates[0].name, updates[u].name);
    }
  }

  /** Takes the reports over, name by name. */
  method MergeUpdates(segments0: seq<Segment>, updates: seq<Segment>) returns (segments: seq<Segment>)
    requires Ordered(segments0) && Ordered(updates)
    ensures segments == MergedAll(segments0, updates)
  {
    hide MergedAll, Merged, Ordered, Lookup;
    segments := segments0;
    NothingReported(segments0);
    for u := 0 to |updates|
      invariant updates[..0] == [] && segments == MergedAll(segments0, updates[..u])
    {
      SameNames(segments0, updates[..u]);
      var k := FindSegment(segments, updates[u].name);
      OneMoreReport(segments0, updates, u, segments, k);
      if k == |segments| {
        continue;
      }
      var merged := MergeValues(segments[k], updates[u].values);
      segments := segments[k := merged];
    }
    assert updates[..|updates|] == updates;
  }

  lemma SameNames(segments: seq<Segment>, updates: seq<Segment>)
    ensures forall k :: 0 <= k < |segments| ==> MergedAll(segments, updates)[k].name == segments[k].name
  {
  }

  /** The segments stay a map by name with nonempty values that know Unknown, and lose no value. */
  lemma MergeKeepsSegments(segments: seq<Segment>, updates: seq<Segment>)
    ensures Ordered(segments) ==> Ordered(MergedAll(segments, updates))
    ensures NonEmpty(segments) ==> NonEmpty(MergedAll(segments, updates))
    ensures KnowUnknown(segments) ==> KnowUnknown(MergedAll(segments, updates))
    ensures forall features :: Fits(features, segments) ==> Fits(features, MergedAll(segments, updates))
  {
    var merged := MergedAll(segments, updates);
    forall features | Fits(features, segments)
      ensures Fits(features, merged)
    {
      forall i | 0 <= i < |features|
        ensures HasSegment(features[i], merged)
      {
        assert HasSegment(features[i], segments);
        var k :| 0 <= k < |segments| && FitsOne(features[i], segments[k]);
        assert FitsOne(features[i], merged[k]);
      }
    }
  }

  lemma NothingIsOrdered()
    ensures Ordered([])
  {
  }

  /** Takes the reports over; the segments stay ordered by name, with values. */
  method TakeUpdates(segments0: seq<Segment>, updates: seq<Segment>) returns (segments: seq<Segment>)
    requires Ordered(segments0) && NonEmpty(segments0) && Ordered(updates)
    ensures segments == MergedAll(segments0, updates) && Ordered(segments) && NonEmpty(segments)
  {
    hide MergedAll, Ordered, NonEmpty;
    segments := MergeUpdates(segments0, updates);
    MergeKeepsSegments(segments0, updates);
  }

  /** Values reported under a segment's name, other than Unknown, are values of the segment afterwards: an
      ad or a user whose features were reported fits the segments. */
  lemma ReportedFits(segments: seq<Segment>, updates: seq<Segment>, features: seq<Segment>)
    requires forall i :: 0 <= i < |features| ==> exists k :: 0 <= k < |segments| && segments[k].name == features[i].name
    requires forall i, value :: 0 <= i < |features| && value in features[i].values ==>
      value != UNKNOWN && value in Lookup(updates, features[i].name)
    ensures Fits(features, MergedAll(segments, updates))
  {
    var merged := MergedAll(segments, updates);
    forall i | 0 <= i < |features|
      ensures HasSegment(features[i], merged)
    {
      var k :| 0 <= k < |segments| && segments[k].name == features[i].name;
      forall value | value in features[i].values
        ensures value in merged[k].values
      {
        NewInElements(Elements(segments[k].values), Lookup(updates, segments[k].name), value);
      }
      assert FitsOne(features[i], merged[k]);
    }
  }
}
