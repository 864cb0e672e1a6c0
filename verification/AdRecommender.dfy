/** The online ad recommender: two tables of latent vectors trained one impression at a time, the index
    of ad features and the bits of the features not yet seen. */
module AdRecommendation {
  import opened FeatureIndex
  import opened LatentVectors
  import opened Sequences
  import opened StepDirection
  import BoundedQueue
  import RecommendList
  import Strings

  const SMOOTH: real := 0.02

  // ----- the keys of a step

  function UserKeys(userInfo: seq<(string, string)>): (r: seq<string>)
    ensures |r| == |userInfo|
  {
    seq(|userInfo|, i requires 0 <= i < |userInfo| => userInfo[i].0 + userInfo[i].1)
  }

  method GetUserLatentVecKeys(userInfo: seq<(string, string)>) returns (r: seq<string>)
    ensures r == UserKeys(userInfo)
    ensures |r| == |userInfo| && forall i :: 0 <= i < |r| ==> r[i] == userInfo[i].0 + userInfo[i].1
  {
    r := [];
    for i := 0 to |userInfo|
      invariant r == UserKeys(userInfo)[..i]
    {
      r := r + [userInfo[i].0 + userInfo[i].1];
    }
  }

  /** The keys whose vectors take part in the step: without a click a key seen for the first time only
      gets its vector; a key named twice takes part twice. */
  ghost function Picked(known: set<string>, keys: seq<string>, isClicked: bool): seq<string> {
    if keys == [] then
      []
    else
      var front, last := keys[..|keys| - 1], keys[|keys| - 1];
      Picked(known, front, isClicked) + if isClicked || last in known || last in front then [last] else []
  }

  lemma {:induction false} PickedAreNamed(known: set<string>, keys: seq<string>, isClicked: bool)
    ensures forall key :: key in Picked(known, keys, isClicked) ==> key in keys
    ensures isClicked ==> Picked(known, keys, isClicked) == keys
  {
    if keys != [] {
      var front, last := keys[..|keys| - 1], keys[|keys| - 1];
      PickedAreNamed(known, front, isClicked);
      assert keys == front + [last];
      assert forall key :: key in front ==> key in keys;
    }
  }

  /** Which keys take part: all of them after a click; without one those that had a vector and those the user
      names more than once. */
  lemma {:induction false} PickedExactly(known: set<string>, keys: seq<string>, isClicked: bool, key: string)
    ensures key in Picked(known, keys, isClicked) <==>
      exists i :: 0 <= i < |keys| && keys[i] == key && (isClicked || key in known || key in keys[..i])
  {
    if keys != [] {
      var n, front, last := |keys| - 1, keys[..|keys| - 1], keys[|keys| - 1];
      PickedExactly(known, front, isClicked, key);
      forall i | 0 <= i < n
        ensures keys[i] == front[i] && keys[..i] == front[..i]
      {
      }
      if key == last && (isClicked || key in known || key in front) {
        assert keys[n] == key && keys[..n] == front;
      }
    }
  }

  // ----- new vectors

  ghost predicate Digit(x: real) {
    0.0 <= x < 10.0 && x == x.Floor as real
  }

  ghost predicate Drawn(v: Vec) {
    |v| == LATENT_VEC_DIM && forall k :: 0 <= k < |v| ==> Digit(v[k])
  }

  method RandomVector() returns (v: Vec)
    ensures Drawn(v)
  {
    v := [];
    for j := 0 to LATENT_VEC_DIM
      invariant |v| == j && forall k :: 0 <= k < |v| ==> Digit(v[k])
    {
      var digit: nat :| digit < 10;
      v := v + [digit as real];
    }
  }

  /** t1 is t0 with a drawn vector for every key it did not know. */
  ghost predicate Grown(t0: map<string, Vec>, t1: map<string, Vec>, keys: seq<string>) {
    && t1.Keys == t0.Keys + Elements(keys)
    && (forall key :: key in t0 ==> t1[key] == t0[key])
    && (forall key :: key in t1 && key !in t0 ==> Drawn(t1[key]))
  }

  lemma DrawnIsWithin(v: Vec)
    requires Drawn(v)
    ensures Within(v, MAX_NORM) && forall k :: 0 <= k < |v| ==> 0.0 <= v[k] <= 9.0
  {
  }

  lemma GrownWithin(t0: map<string, Vec>, t1: map<string, Vec>, keys: seq<string>)
    requires TableWithin(t0, MAX_NORM) && Grown(t0, t1, keys)
    ensures TableWithin(t1, MAX_NORM)
  {
    forall key | key in t1
      ensures Within(t1[key], MAX_NORM)
    {
      if key !in t0 {
        DrawnIsWithin(t1[key]);
      }
    }
  }

  lemma GrownMore(t0: map<string, Vec>, t1: map<string, Vec>, keys: seq<string>, i: nat, t2: map<string, Vec>)
    requires i < |keys| && Grown(t0, t1, keys[..i])
    requires keys[i] in t1 ==> t2 == t1
    requires keys[i] !in t1 ==> t2.Keys == t1.Keys + {keys[i]} && Drawn(t2[keys[i]]) && t2 == t1[keys[i] := t2[keys[i]]]
    ensures Grown(t0, t2, keys[..i + 1])
  {
    hide Drawn;
    assert keys[..i + 1] == keys[..i] + [keys[i]];
    assert Elements(keys[..i + 1]) == Elements(keys[..i]) + {keys[i]};
  }

  method InsertIfNew(t: map<string, Vec>, key: string) returns (r: map<string, Vec>, isNew: bool)
    ensures isNew <==> key !in t
    ensures !isNew ==> r == t
    ensures isNew ==> r.Keys == t.Keys + {key} && Drawn(r[key]) && r == t[key := r[key]]
  {
    hide Drawn;
    isNew := key !in t;
    r := t;
    if isNew {
      var v := RandomVector();
      r := t[key := v];
    }
  }

  method TouchUsers(t: map<string, Vec>, keys: seq<string>, isClicked: bool) returns (r: map<string, Vec>, picked: seq<string>)
    ensures Grown(t, r, keys) && picked == Picked(t.Keys, keys, isClicked)
  {
    r, picked := t, [];
    for i := 0 to |keys|
      invariant Grown(t, r, keys[..i]) && picked == Picked(t.Keys, keys[..i], isClicked)
    {
      ghost var r0 := r;
      assert keys[..i + 1][..i] == keys[..i];
      var isNew;
      r, isNew := InsertIfNew(r, keys[i]);
      GrownMore(t, r0, keys, i, r);
      if isNew && !isClicked {
        continue;
      }
      picked := picked + [keys[i]];
    }
    assert keys[..|keys|] == keys;
  }

  // ----- the positions a step looks up

  ghost function IdsAfter(ids: map<string, nat>, keys: seq<string>): map<string, nat> {
    map key | key in ids.Keys + Elements(keys) :: IdOf(ids, key)
  }

  lemma IdsOfMore(ids: map<string, nat>, keys: seq<string>, i: nat)
    requires i < |keys|
    ensures IdsOf(ids, keys[..i + 1]) == IdsOf(ids, keys[..i]) + {IdOf(ids, keys[i])}
  {
    var a, b := keys[..i], keys[..i + 1];
    assert b == a + [keys[i]];
    forall x
      ensures x in IdsOf(ids, b) <==> x in IdsOf(ids, a) + {IdOf(ids, keys[i])}
    {
      if x in IdsOf(ids, a) {
        var k :| 0 <= k < |a| && x == IdOf(ids, a[k]);
        assert b[k] == a[k];
      }
      if x == IdOf(ids, keys[i]) {
        assert b[i] == keys[i];
      }
    }
  }

  lemma IdsAfterMore(ids: map<string, nat>, keys: seq<string>, i: nat)
    requires i < |keys|
    ensures IdsAfter(ids, keys[..i + 1]) == IdsAfter(ids, keys[..i])[keys[i] := IdOf(IdsAfter(ids, keys[..i]), keys[i])]
    ensures IdOf(IdsAfter(ids, keys[..i]), keys[i]) == IdOf(ids, keys[i])
    ensures IdsOf(ids, keys[..i + 1]) == IdsOf(ids, keys[..i]) + {IdOf(ids, keys[i])}
  {
    IdsOfMore(ids, keys, i);
    assert keys[..i + 1] == keys[..i] + [keys[i]];
    assert Elements(keys[..i + 1]) == Elements(keys[..i]) + {keys[i]};
  }

  lemma IdsOfExtended(ids: map<string, nat>, more: map<string, nat>, keys: seq<string>)
    requires forall key :: key in keys ==> key in ids && key in more && ids[key] == more[key]
    ensures IdsOf(ids, keys) == IdsOf(more, keys)
  {
    forall i | 0 <= i < |keys|
      ensures IdOf(ids, keys[i]) == IdOf(more, keys[i])
    {
      assert keys[i] in keys;
    }
  }

  // ----- the features of an ad

  ghost function Named(values: seq<string>, positions: seq<nat>): (r: seq<string>)
    requires forall p :: p in positions ==> p < |values|
    ensures |r| == |positions|
  {
    seq(|positions|, i requires 0 <= i < |positions| =>
      assert positions[i] in positions;
      values[positions[i]])
  }

  ghost predicate FeaturesListed(adFeatures: map<string, set<nat>>, n: nat) {
    forall docid, id :: docid in adFeatures && id in adFeatures[docid] ==> id < n
  }

  /** The keys an ad is trained on: its id, or the features it is listed with, by position. */
  ghost function KeysOfAd(values: seq<string>, adFeatures: map<string, set<nat>>, useAdFeature: bool, adDocid: string): seq<string>
    requires useAdFeature ==> FeaturesListed(adFeatures, |values|)
  {
    if !useAdFeature then [adDocid]
    else if adDocid in adFeatures then Named(values, Ascending(adFeatures[adDocid]))
    else []
  }

  lemma KeysOfAdAreListed(values: seq<string>, adFeatures: map<string, set<nat>>, adDocid: string)
    requires FeaturesListed(adFeatures, |values|)
    ensures forall i :: 0 <= i < |KeysOfAd(values, adFeatures, true, adDocid)| ==>
      KeysOfAd(values, adFeatures, true, adDocid)[i] in values
  {
    if adDocid in adFeatures {
      var positions := Ascending(adFeatures[adDocid]);
      forall i | 0 <= i < |positions|
        ensures positions[i] < |values|
      {
        assert positions[i] in positions;
      }
    }
  }

  /** The keys an ad is trained on are the features at its positions, or the ad itself when ads are their own
      features; an ad that was never listed has none. */
  lemma AdKeysExactly(values: seq<string>, adFeatures: map<string, set<nat>>, useAdFeature: bool, adDocid: string, key: string)
    requires useAdFeature ==> FeaturesListed(adFeatures, |values|)
    ensures key in KeysOfAd(values, adFeatures, useAdFeature, adDocid) <==>
      if useAdFeature then adDocid in adFeatures && exists p :: p in adFeatures[adDocid] && values[p] == key
      else key == adDocid
    ensures |KeysOfAd(values, adFeatures, useAdFeature, adDocid)| ==
      if !useAdFeature then 1 else if adDocid in adFeatures then |adFeatures[adDocid]| else 0
  {
    if useAdFeature && adDocid in adFeatures {
      var positions := Ascending(adFeatures[adDocid]);
      var named := Named(values, positions);
      if key in named {
        var i :| 0 <= i < |named| && named[i] == key;
        assert positions[i] in positions;
      }
      if p :| p in adFeatures[adDocid] && values[p] == key {
        var i :| 0 <= i < |positions| && positions[i] == p;
        assert named[i] == key;
      }
    }
  }

  ghost function DefaultVector(): Vec {
    seq(LATENT_VEC_DIM, _ => 1.0)
  }

  /** The index after these features were looked up in turn. */
  ghost predicate Listed(values0: seq<string>, ids0: map<string, nat>, unviewed0: set<nat>,
                         values: seq<string>, ids: map<string, nat>, unviewed: set<nat>, features: seq<string>)
  {
    && values == values0 + NewIn(ids0.Keys, features)
    && ids.Keys == ids0.Keys + Elements(features)
    && (forall key :: key in ids0 ==> ids[key] == ids0[key])
    && (forall i :: |values0| <= i < |values| ==> values[i] in ids && ids[values[i]] == i)
    && (forall b: nat :: b in unviewed <==> b in unviewed0 || (|values0| <= b < |values| && b < MAX_AD_ITEMS))
  }

  /** Every feature of the ad ends up listed, at the position that is recorded for it: exactly when each of
      them was listed before or had no position yet. */
  lemma FeaturesListedExactly(values0: seq<string>, ids0: map<string, nat>, unviewed0: set<nat>,
                              values: seq<string>, ids: map<string, nat>, unviewed: set<nat>, features: seq<string>,
                              useAdFeature: bool)
    requires Indexed(values0, ids0, useAdFeature)
    requires Listed(values0, ids0, unviewed0, values, ids, unviewed, features)
    ensures (forall f :: f in features ==> f in ids && ids[f] < |values| && values[ids[f]] == f)
      <==> forall f :: f in features && f in ids0 ==> f in values0
  {
    forall f | f in features
      ensures f in ids && (ids[f] < |values| && values[ids[f]] == f <==> (f in ids0 ==> f in values0))
    {
      assert f in Elements(features);
      OneFeatureListedExactly(values0, ids0, unviewed0, values, ids, unviewed, features, useAdFeature, f);
    }
  }

  lemma OneFeatureListedExactly(values0: seq<string>, ids0: map<string, nat>, unviewed0: set<nat>,
                                values: seq<string>, ids: map<string, nat>, unviewed: set<nat>, features: seq<string>,
                                useAdFeature: bool, f: string)
    requires Indexed(values0, ids0, useAdFeature) && f in features && f in ids
    requires Listed(values0, ids0, unviewed0, values, ids, unviewed, features)
    ensures ids[f] < |values| && values[ids[f]] == f <==> (f in ids0 ==> f in values0)
  {
    var more := NewIn(ids0.Keys, features);
    NewInElements(ids0.Keys, features, f);
    if f in values0 {
      var i :| 0 <= i < |values0| && values0[i] == f;
      assert values[i] == f && ids0[f] == i;
    } else if f in ids0 {
      forall i | 0 <= i < |values|
        ensures values[i] != f
      {
        assert i < |values0| ==> values[i] in values0;
        assert i >= |values0| ==> values[i] == more[i - |values0|] && values[i] in more;
      }
    } else {
      var j :| 0 <= j < |more| && more[j] == f;
      assert values[|values0| + j] == f;
    }
  }

  /** An ad that made an impression before it was listed is never listed: position 0, of another feature, is
      recorded for it. */
  lemma EarlyAdIsNeverListed()
    ensures var values, ids := ["a"], map["a" := 0, "x" := 0];
      && Indexed(values, ids, false) && Listed(values, ids, {}, values, ids, {}, ["x"])
      && "x" !in values && IdsOf(ids, ["x"]) == {0} && values[0] == "a"
  {
    var values, ids := ["a"], map["a" := 0, "x" := 0];
    assert values[0] == "a" && ["x"][0] == "x" && ["x"][..0] == [];
    assert NewIn(ids.Keys, ["x"]) == [];
    assert values + [] == values;
    assert IdOf(ids, ["x"][0]) == 0 && 0 in IdsOf(ids, ["x"]);
    assert ids.Keys == {"a", "x"} && Elements(["x"]) == {"x"};
  }

  lemma NothingListed(values: seq<string>, ids: map<string, nat>, unviewed: set<nat>, useAdFeature: bool,
                      adFeatures: map<string, set<nat>>, adDocid: string)
    ensures Listed(values, ids, unviewed, values, ids, unviewed, []) && IdsOf(ids, []) == {}
    ensures FeaturesListed(adFeatures, |values|) ==> FeaturesListed(adFeatures[adDocid := {}], |values|)
  {
  }

  lemma ListedMore(values0: seq<string>, ids0: map<string, nat>, unviewed0: set<nat>,
                   values1: seq<string>, ids1: map<string, nat>, unviewed1: set<nat>, features: seq<string>, i: nat,
                   values2: seq<string>, ids2: map<string, nat>, unviewed2: set<nat>)
    requires i < |features| && Listed(values0, ids0, unviewed0, values1, ids1, unviewed1, features[..i])
    requires features[i] in ids1 ==> values2 == values1 && ids2 == ids1 && unviewed2 == unviewed1
    requires features[i] !in ids1 ==>
      && values2 == values1 + [features[i]] && ids2 == ids1[features[i] := |values1|]
      && unviewed2 == if |values1| < MAX_AD_ITEMS then unviewed1 + {|values1|} else unviewed1
    ensures Listed(values0, ids0, unviewed0, values2, ids2, unviewed2, features[..i + 1])
    ensures IdsOf(ids2, features[..i]) == IdsOf(ids1, features[..i])
    ensures IdsOf(ids2, features[..i + 1]) == IdsOf(ids1, features[..i]) + {ids2[features[i]]}
  {
    assert features[..i + 1][..i] == features[..i] && features[..i + 1][i] == features[i];
    assert Elements(features[..i + 1]) == Elements(features[..i]) + {features[i]};
    IdsOfExtended(ids1, ids2, features[..i]);
    IdsOfMore(ids2, features, i);
  }

  lemma RangeListed(values0: seq<string>, values: seq<string>, useAdFeature: bool, adFeatures: map<string, set<nat>>)
    requires |values0| <= |values|
    ensures FeaturesListed(adFeatures, |values0|) ==> FeaturesListed(adFeatures, |values|)
  {
  }

  lemma AdFeatureListed(values0: seq<string>, values: seq<string>, ids: map<string, nat>, useAdFeature: bool,
                        adFeatures: map<string, set<nat>>, adDocid: string, feature: string)
    requires |values0| <= |values| && Indexed(values, ids, useAdFeature) && feature in ids && adDocid in adFeatures
    ensures useAdFeature && FeaturesListed(adFeatures, |values0|) ==>
      FeaturesListed(adFeatures[adDocid := adFeatures[adDocid] + {ids[feature]}], |values|)
  {
  }

  /** The tables after these keys were given vectors and marked viewed. */
  ghost predicate Touched(latent0: map<string, Vec>, ids0: map<string, nat>, unviewed0: set<nat>,
                          latent: map<string, Vec>, ids: map<string, nat>, unviewed: set<nat>, keys: seq<string>)
  {
    Grown(latent0, latent, keys) && ids == IdsAfter(ids0, keys) && unviewed == unviewed0 - IdsOf(ids0, keys)
  }

  lemma NothingTouched(latent: map<string, Vec>, ids: map<string, nat>, unviewed: set<nat>)
    ensures Touched(latent, ids, unviewed, latent, ids, unviewed, [])
  {
  }

  lemma OneMoreKey(t0: map<string, Vec>, t1: map<string, Vec>, key: string)
    requires key in t0 ==> t1 == t0
    requires key !in t0 ==> t1.Keys == t0.Keys + {key} && Drawn(t1[key]) && t1 == t0[key := t1[key]]
    ensures t1.Keys == t0.Keys + {key}
    ensures TableWithin(t0, MAX_NORM) ==> TableWithin(t1, MAX_NORM)
  {
    if key !in t0 {
      DrawnIsWithin(t1[key]);
    }
  }

  lemma TouchedMore(latent0: map<string, Vec>, ids0: map<string, nat>, unviewed0: set<nat>,
                    latent1: map<string, Vec>, ids1: map<string, nat>, unviewed1: set<nat>, keys: seq<string>, i: nat,
                    latent2: map<string, Vec>)
    requires i < |keys| && Touched(latent0, ids0, unviewed0, latent1, ids1, unviewed1, keys[..i])
    requires keys[i] in latent1 ==> latent2 == latent1
    requires keys[i] !in latent1 ==>
      latent2.Keys == latent1.Keys + {keys[i]} && Drawn(latent2[keys[i]]) && latent2 == latent1[keys[i] := latent2[keys[i]]]
    ensures Touched(latent0, ids0, unviewed0, latent2, ids1[keys[i] := IdOf(ids1, keys[i])],
                    unviewed1 - {IdOf(ids1, keys[i])}, keys[..i + 1])
    ensures IdOf(ids1, keys[i]) == IdOf(ids0, keys[i])
  {
    hide IdsAfter, IdsOf, IdOf, Grown, Drawn;
    GrownMore(latent0, latent1, keys, i, latent2);
    IdsAfterMore(ids0, keys, i);
  }

  /** Without a click the step goes the other way, by the ratio of clicks to the rest. */
  function StepGradient(learningRate: real, ratio: real, isClicked: bool): real {
    if isClicked then learningRate else ratio * learningRate
  }

  // ----- the scored items

  ghost function ScoreOf(t: map<string, Vec>, user: Vec, key: string): RecommendList.Item
    requires TableShaped(t) && |user| == LATENT_VEC_DIM && key in t
  {
    BoundedQueue.Item(key, Dot(user, t[key], LATENT_VEC_DIM))
  }

  /** The candidates that have a vector, in order. */
  ghost function Scored(t: map<string, Vec>, user: Vec, candidates: seq<string>): seq<RecommendList.Item>
    requires TableShaped(t) && |user| == LATENT_VEC_DIM
  {
    if candidates == [] then
      []
    else
      var front, last := candidates[..|candidates| - 1], candidates[|candidates| - 1];
      Scored(t, user, front) + if last in t then [ScoreOf(t, user, last)] else []
  }

  lemma ScoredMore(t: map<string, Vec>, user: Vec, candidates: seq<string>, i: nat)
    requires TableShaped(t) && |user| == LATENT_VEC_DIM && i < |candidates|
    ensures candidates[i] !in t ==> Scored(t, user, candidates[..i + 1]) == Scored(t, user, candidates[..i])
    ensures candidates[i] in t ==>
      Scored(t, user, candidates[..i + 1]) == Scored(t, user, candidates[..i]) + [ScoreOf(t, user, candidates[i])]
  {
    assert candidates[..i + 1][..i] == candidates[..i];
  }

  /** Each of these keys once, with its score, in some order. */
  ghost predicate AllScored(t: map<string, Vec>, user: Vec, offered: seq<RecommendList.Item>, keys: set<string>)
    requires TableShaped(t) && |user| == LATENT_VEC_DIM
  {
    && BoundedQueue.DistinctKeys(offered)
    && (forall i :: 0 <= i < |offered| ==> offered[i].key in keys && offered[i].key in t && offered[i] == ScoreOf(t, user, offered[i].key))
    && (forall key :: key in keys && key in t ==> ScoreOf(t, user, key) in offered)
  }

  lemma OneMoreScored(t: map<string, Vec>, user: Vec, offered: seq<RecommendList.Item>, keys: set<string>, item: RecommendList.Item)
    requires TableShaped(t) && |user| == LATENT_VEC_DIM && AllScored(t, user, offered, keys)
    requires item.key in t && item.key !in keys && item == ScoreOf(t, user, item.key)
    ensures AllScored(t, user, offered + [item], keys + {item.key})
  {
    hide ScoreOf;
  }

  lemma {:induction false} AllAreOffered(t: map<string, Vec>, user: Vec, offered: seq<RecommendList.Item>)
    requires TableShaped(t) && |user| == LATENT_VEC_DIM && AllScored(t, user, offered, t.Keys)
    ensures |offered| == |t|
  {
    hide ScoreOf;
    var keys := seq(|offered|, i requires 0 <= i < |offered| => offered[i].key);
    forall key
      ensures key in Elements(keys) <==> key in t.Keys
    {
      if key in keys {
        var i :| 0 <= i < |keys| && keys[i] == key;
      }
      if key in t {
        var i :| 0 <= i < |offered| && offered[i] == ScoreOf(t, user, key);
        ScoreIsOfKey(t, user, key);
        assert keys[i] == key;
      }
    }
    assert Elements(keys) == t.Keys;
    DistinctCardinality(keys);
  }

  lemma ScoreIsOfKey(t: map<string, Vec>, user: Vec, key: string)
    requires TableShaped(t) && |user| == LATENT_VEC_DIM && key in t
    ensures ScoreOf(t, user, key).key == key && ScoreOf(t, user, key).score == Dot(user, t[key], LATENT_VEC_DIM)
  {
  }

  /** Asked for the best of all ads: as many are kept as there are, up to maxReturn; each has the score of its own
      vector, and an ad that is not kept scores no higher than any that is. */
  lemma BestAreKept(t: map<string, Vec>, user: Vec, maxReturn: nat, offered: seq<RecommendList.Item>, kept: seq<RecommendList.Item>)
    requires TableShaped(t) && |user| == LATENT_VEC_DIM && AllScored(t, user, offered, t.Keys)
    requires kept == BoundedQueue.Kept(Strings.Less, maxReturn, offered)
    ensures |kept| == Min(maxReturn, |t|)
    ensures forall x :: x in kept ==> x.key in t && x.score == Dot(user, t[x.key], LATENT_VEC_DIM)
    ensures forall key, x :: key in t && (forall y :: y in kept ==> y.key != key) && x in kept ==>
      Dot(user, t[key], LATENT_VEC_DIM) <= x.score
  {
    hide BoundedQueue.Kept, ScoreOf, Dot, Strings.Less;
    AllAreOffered(t, user, offered);
    BoundedQueue.KeptAreOffered(Strings.Less, maxReturn, offered);
    BoundedQueue.KeptKeysAreDistinct(Strings.Less, maxReturn, offered);
    RecommendList.KeyOrder();
    forall x | x in kept
      ensures x.key in t && x.score == Dot(user, t[x.key], LATENT_VEC_DIM)
    {
      assert x in offered;
      ScoreIsOfKey(t, user, x.key);
    }
    forall key, x | key in t && (forall y :: y in kept ==> y.key != key) && x in kept
      ensures Dot(user, t[key], LATENT_VEC_DIM) <= x.score
    {
      ScoreIsOfKey(t, user, key);
      BoundedQueue.LeftOutIsNoGreater(Strings.Less, maxReturn, offered, ScoreOf(t, user, key), x);
    }
  }

  lemma NothingKept(capacity: nat)
    ensures BoundedQueue.Kept(Strings.Less, capacity, []) == []
  {
  }

  /** The features nobody has seen, by position. */
  ghost function Unseen(values: seq<string>, unviewed: set<nat>): (r: seq<string>)
    requires forall b :: b in unviewed ==> b < |values|
    ensures |r| == |unviewed|
  {
    Named(values, Ascending(unviewed))
  }

  lemma UnseenAreListed(values: seq<string>, unviewed: set<nat>, latent: set<string>)
    requires UnviewedAreNew(values, unviewed, latent)
    ensures forall b :: b in unviewed ==> b < |values|
    ensures forall p :: 0 <= p < |unviewed| ==>
      Ascending(unviewed)[p] in unviewed && Unseen(values, unviewed)[p] == values[Ascending(unviewed)[p]]
  {
    forall p | 0 <= p < |unviewed|
      ensures Ascending(unviewed)[p] in unviewed
    {
      assert Ascending(unviewed)[p] in Ascending(unviewed);
    }
  }

  lemma NothingUnseen(values: seq<string>, unviewed: set<nat>)
    requires forall b :: b in unviewed ==> b < |values|
    ensures unviewed == {} ==> Unseen(values, unviewed) == []
  {
  }

  lemma WithinIsShaped(t: map<string, Vec>)
    requires TableWithin(t, MAX_NORM)
    ensures TableShaped(t)
  {
  }

  /** Keys are offered once and unseen features have no vector, so the list repeats nothing. */
  lemma NothingRecommendedTwice(values: seq<string>, ids: map<string, nat>, useAdFeature: bool, unviewed: set<nat>,
                                latent: map<string, Vec>, user: Vec, maxReturn: nat, offered: seq<RecommendList.Item>)
    requires Indexed(values, ids, useAdFeature) && UnviewedAreNew(values, unviewed, latent.Keys)
    requires TableShaped(latent) && |user| == LATENT_VEC_DIM && AllScored(latent, user, offered, latent.Keys)
    ensures var kept := BoundedQueue.Kept(Strings.Less, maxReturn, offered);
      forall unseen: seq<string>, defaultScore: real :: unseen == [] || unseen == Unseen(values, unviewed) ==>
        RecommendList.DistinctItems(RecommendList.Entries(kept, unseen, defaultScore))
  {
    var kept := BoundedQueue.Kept(Strings.Less, maxReturn, offered);
    BoundedQueue.KeptKeysAreDistinct(Strings.Less, maxReturn, offered);
    ListedAreDistinct(values, ids, useAdFeature);
    UnseenAreListed(values, unviewed, latent.Keys);
    var unseen' := Unseen(values, unviewed);
    assert RecommendList.NoneHeld(kept, unseen') by {
      forall p, q | 0 <= p < |kept| && 0 <= q < |unseen'|
        ensures kept[p].key != unseen'[q]
      {
        assert kept[p] in offered;
      }
    }
    forall unseen: seq<string>, defaultScore: real | unseen == [] || unseen == unseen'
      ensures RecommendList.DistinctItems(RecommendList.Entries(kept, unseen, defaultScore))
    {
      RecommendList.NothingTwice(kept, unseen, defaultScore);
    }
  }

  /** The tables after one training step over the given keys, from tables that already know them. */
  ghost predicate Trained(users0: map<string, Vec>, userKeys: seq<string>, ads0: map<string, Vec>, adKeys: seq<string>,
                          gradient: real, norm: real, users: map<string, Vec>, ads: map<string, Vec>)
  {
    && (forall i :: 0 <= i < |userKeys| ==> userKeys[i] in users0)
    && (forall i :: 0 <= i < |adKeys| ==> adKeys[i] in ads0)
    && var us := Gathered(users0, userKeys);
    var as' := Gathered(ads0, adKeys);
    && Shaped(us) && Shaped(as')
    && NormOf(as', us, gradient, |as'|, norm)
    && users == Constrained(users0, userKeys, UsersAt(as', us, gradient, |as'|), norm)
    && ads == Constrained(ads0, adKeys, AdsAfter(as', us, gradient), norm)
  }

  class AdRecommender {
    const useAdFeature: bool
    var clickedNum: nat
    var impressionNum: nat
    var ratio: real
    var learningRate: real
    var adLatent: map<string, Vec>
    var userLatent: map<string, Vec>
    var values: seq<string>
    var ids: map<string, nat>
    var adFeatures: map<string, set<nat>>
    var unviewed: set<nat>

    /** What every run from a fresh recommender keeps. */
    ghost predicate Valid()
      reads this
    {
      && TableWithin(adLatent, MAX_NORM) && TableWithin(userLatent, MAX_NORM)
      && Indexed(values, ids, useAdFeature)
      && UnviewedAreNew(values, unviewed, adLatent.Keys)
      && adLatent.Keys <= ids.Keys
      && (useAdFeature ==> FeaturesListed(adFeatures, |values|))
      && clickedNum >= 1 && impressionNum >= clickedNum + 999
      && learningRate > 0.0 && ratio < 0.0
    }

    constructor (useAdFeature: bool)
      ensures this.useAdFeature == useAdFeature
      ensures Valid() && ViewedExactly(values, unviewed, adLatent.Keys)
      ensures adLatent == map[] && userLatent == map[] && values == [] && unviewed == {}
      ensures clickedNum == 1 && impressionNum == 1000 && learningRate == 1.0 && ratio == -1.0 / 999.0
    {
      this.useAdFeature := useAdFeature;
      clickedNum, impressionNum := 1, 1000;
      learningRate, ratio := 1.0, -1.0 / 999.0;
      adLatent, userLatent := map[], map[];
      values, ids, adFeatures, unviewed := [], map[], map[], {};
    }

    // ----- listing the features of an ad

    ghost function Expanded(adDocid: string, features: seq<string>): (r: seq<string>)
      ensures features <= r && Elements(r) == Elements(features) + if useAdFeature && features != [] then {} else {adDocid}
    {
      if !useAdFeature || features == [] then features + [adDocid] else features
    }

    /** Lists one feature; fails where the bit set has no room for it. */
    method ListFeature(feature: string) returns (ok: bool, id: nat)
      requires Valid()
      modifies this`values, this`ids, this`unviewed
      ensures Valid()
      ensures feature in old(ids) ==> ok && values == old(values) && ids == old(ids) && unviewed == old(unviewed)
      ensures feature !in old(ids) ==>
        && values == old(values) + [feature] && ids == old(ids)[feature := |old(values)|]
        && (ok <==> |old(values)| < 1048576)
        && unviewed == if ok then old(unviewed) + {|old(values)|} else old(unviewed)
      ensures id == ids[feature]
      ensures old(ViewedExactly(values, unviewed, adLatent.Keys)) ==> ViewedExactly(values, unviewed, adLatent.Keys)
    {
      hide TableWithin, Indexed, UnviewedAreNew, ViewedExactly;
      ok := true;
      if feature !in ids {
        ListKeepsIndex(values, ids, unviewed, adLatent.Keys, useAdFeature, feature);
        id := |values|;
        values := values + [feature];
        ids := ids[feature := id];
        if id < MAX_AD_ITEMS {
          unviewed := unviewed + {id};
        } else {
          ok := false;
        }
      } else {
        id := ids[feature];
      }
    }

    /** Lists the features of an ad; an ad without any, or an ad that is its own feature, lists its id.
        Fails at the first feature the bit set has no room for, after n features were looked up. */
    method UpdateAdFeatures(adDocid: string, features: seq<string>) returns (ok: bool, ghost n: nat)
      requires Valid()
      modifies this`values, this`ids, this`unviewed, this`adFeatures
      ensures Valid()
      ensures n <= |Expanded(adDocid, features)|
      ensures if ok then n == |Expanded(adDocid, features)| else 0 < n && |values| > 1048576
      ensures Listed(old(values), old(ids), old(unviewed), values, ids, unviewed, Expanded(adDocid, features)[..n])
      ensures adFeatures == old(adFeatures)[adDocid := IdsOf(ids, Expanded(adDocid, features)[..if ok then n else n - 1])]
      ensures old(ViewedExactly(values, unviewed, adLatent.Keys)) ==> ViewedExactly(values, unviewed, adLatent.Keys)
    {
      hide TableWithin, Indexed, UnviewedAreNew, ViewedExactly, Listed, NewIn, IdsOf, FeaturesListed, Elements, Distinct;
      adFeatures := adFeatures[adDocid := {}];
      var expanded := features;
      if !useAdFeature || features == [] {
        expanded := expanded + [adDocid];
      }
      NothingListed(values, ids, unviewed, useAdFeature, old(adFeatures), adDocid);
      for i := 0 to |expanded|
        invariant Valid() && expanded == Expanded(adDocid, features) && expanded[..0] == []
        invariant Listed(old(values), old(ids), old(unviewed), values, ids, unviewed, expanded[..i])
        invariant adFeatures == old(adFeatures)[adDocid := IdsOf(ids, expanded[..i])]
        invariant old(ViewedExactly(values, unviewed, adLatent.Keys)) ==> ViewedExactly(values, unviewed, adLatent.Keys)
      {
        ghost var values0, ids0, unviewed0 := values, ids, unviewed;
        var id;
        ok, id := ListFeature(expanded[i]);
        ListedMore(old(values), old(ids), old(unviewed), values0, ids0, unviewed0, expanded, i, values, ids, unviewed);
        if !ok {
          RangeListed(values0, values, useAdFeature, adFeatures);
          return false, i + 1;
        }
        AdFeatureListed(values0, values, ids, useAdFeature, adFeatures, adDocid, expanded[i]);
        adFeatures := adFeatures[adDocid := adFeatures[adDocid] + {id}];
      }
      assert expanded[..|expanded|] == expanded;
      return true, |expanded|;
    }

    // ----- the keys an ad is trained on

    method GetAdLatentVecKeys(adDocid: string) returns (r: seq<string>)
      requires useAdFeature ==> FeaturesListed(adFeatures, |values|)
      ensures r == KeysOfAd(values, adFeatures, useAdFeature, adDocid)
    {
      if !useAdFeature {
        return [adDocid];
      }
      r := [];
      if adDocid in adFeatures {
        var positions := KeysInOrder(adFeatures[adDocid]);
        for i := 0 to |positions|
          invariant r == Named(values, positions)[..i]
        {
          assert positions[i] in positions;
          r := r + [values[positions[i]]];
        }
      }
    }

    /** Gives every key of the ad a vector and marks it viewed. Fails where a key's position lies outside
        the bit set, after n keys. */
    method TouchAds(keys: seq<string>) returns (ok: bool, ghost n: nat)
      requires Valid() && (useAdFeature ==> forall i :: 0 <= i < |keys| ==> keys[i] in values)
      modifies this`adLatent, this`ids, this`unviewed
      ensures Valid()
      ensures n <= |keys| && if ok then n == |keys| else 0 < n && IdOf(old(ids), keys[n - 1]) >= MAX_AD_ITEMS
      ensures Touched(old(adLatent), old(ids), old(unviewed), adLatent, ids, unviewed, keys[..n])
    {
      hide TableWithin, Indexed, UnviewedAreNew, FeaturesListed, Touched;
      NothingTouched(adLatent, ids, unviewed);
      for i := 0 to |keys|
        invariant Valid() && keys[..0] == []
        invariant Touched(old(adLatent), old(ids), old(unviewed), adLatent, ids, unviewed, keys[..i])
      {
        ghost var latent0, ids0, unviewed0 := adLatent, ids, unviewed;
        var isNew;
        adLatent, isNew := InsertIfNew(adLatent, keys[i]);
        var id := IdOf(ids, keys[i]);
        ids := ids[keys[i] := id];
        TouchKeepsIndex(values, ids0, unviewed, latent0.Keys, useAdFeature, keys[i]);
        OneMoreKey(latent0, adLatent, keys[i]);
        TouchedMore(old(adLatent), old(ids), old(unviewed), latent0, ids0, unviewed0, keys, i, adLatent);
        if id >= MAX_AD_ITEMS {
          HighBitsAreClear(values, unviewed, latent0.Keys, id);
          return false, i + 1;
        }
        unviewed := unviewed - {id};
      }
      assert keys[..|keys|] == keys;
      return true, |keys|;
    }

    // ----- one impression

    method Train(userKeys: seq<string>, adKeys: seq<string>, gradient: real) returns (ghost norm: real)
      requires TableWithin(userLatent, MAX_NORM) && TableWithin(adLatent, MAX_NORM)
      requires forall i :: 0 <= i < |userKeys| ==> userKeys[i] in userLatent
      requires forall i :: 0 <= i < |adKeys| ==> adKeys[i] in adLatent
      modifies this`userLatent, this`adLatent
      ensures Trained(old(userLatent), userKeys, old(adLatent), adKeys, gradient, norm, userLatent, adLatent)
      ensures TableWithin(userLatent, MAX_NORM) && TableWithin(adLatent, MAX_NORM)
      ensures adLatent.Keys == old(adLatent).Keys
    {
      hide TableWithin, NormOf, UsersAt, AdAt, Constrained;
      GatheredWithin(userLatent, userKeys, MAX_NORM);
      GatheredWithin(adLatent, adKeys, MAX_NORM);
      var users0 := Gather(userLatent, userKeys);
      var ads0 := Gather(adLatent, adKeys);
      var ads, users, largest := Descend(ads0, users0, gradient);
      norm := largest;
      StepStaysWithin(userLatent, userKeys, adLatent, adKeys, gradient, norm);
      userLatent := Constrain(userLatent, userKeys, users, largest);
      assert ads == AdsAfter(ads0, users0, gradient);
      ConstrainedKeys(adLatent, adKeys, ads, largest);
      adLatent := Constrain(adLatent, adKeys, ads, largest);
    }

    method CountImpression(isClicked: bool)
      requires clickedNum >= 1 && impressionNum >= clickedNum + 999 && learningRate > 0.0 && ratio < 0.0
      modifies this`clickedNum, this`impressionNum, this`ratio, this`learningRate
      ensures impressionNum == old(impressionNum) + 1
      ensures clickedNum == old(clickedNum) + if isClicked then 1 else 0
      ensures RatesFollow(old(learningRate), old(ratio), impressionNum, clickedNum, learningRate, ratio)
      ensures learningRate > 0.0 && ratio < 0.0
    {
      impressionNum := impressionNum + 1;
      if isClicked {
        clickedNum := clickedNum + 1;
      }
      RatesKeepSigns(clickedNum, impressionNum, ratio);
      if impressionNum % 50000 == 0 {
        learningRate := 1.0 / clickedNum as real;
        ratio := -1.0 * SMOOTH * clickedNum as real / (impressionNum - clickedNum) as real + (1.0 - SMOOTH) * ratio;
      }
    }

    /** Gives every key of the impression a vector and marks the ad's features viewed. */
    method InsertKeys(userInfo: seq<(string, string)>, adDocid: string, isClicked: bool)
      returns (ok: bool, ghost n: nat, picked: seq<string>, adKeys: seq<string>)
      requires Valid()
      modifies this`userLatent, this`adLatent, this`ids, this`unviewed
      ensures Valid()
      ensures Grown(old(userLatent), userLatent, UserKeys(userInfo))
      ensures picked == Picked(old(userLatent).Keys, UserKeys(userInfo), isClicked)
      ensures forall i :: 0 <= i < |picked| ==> picked[i] in userLatent
      ensures adKeys == KeysOfAd(values, adFeatures, useAdFeature, adDocid)
      ensures n <= |adKeys| && if ok then n == |adKeys| else 0 < n && IdOf(old(ids), adKeys[n - 1]) >= MAX_AD_ITEMS
      ensures Touched(old(adLatent), old(ids), old(unviewed), adLatent, ids, unviewed, adKeys[..n])
      ensures ok ==> forall i :: 0 <= i < |adKeys| ==> adKeys[i] in adLatent
      ensures old(ViewedExactly(values, unviewed, adLatent.Keys)) ==>
        (ViewedExactly(values, unviewed, adLatent.Keys) <==> useAdFeature || adDocid in values || 0 !in old(unviewed))
    {
      hide TableWithin, Indexed, UnviewedAreNew, ViewedExactly, FeaturesListed, Grown, Picked, Touched, KeysOfAd, UserKeys, IdOf;
      var userKeys := GetUserLatentVecKeys(userInfo);
      ghost var users0, ads0, ids0, unviewed0 := userLatent, adLatent, ids, unviewed;
      userLatent, picked := TouchUsers(userLatent, userKeys, isClicked);
      GrownWithin(users0, userLatent, userKeys);
      PickedAreKnown(users0, userLatent, userKeys, isClicked);
      adKeys := GetAdLatentVecKeys(adDocid);
      if useAdFeature {
        KeysOfAdAreListed(values, adFeatures, adDocid);
      }
      ok, n := TouchAds(adKeys);
      TouchedKeepsBits(values, ids0, unviewed0, ads0, useAdFeature, adFeatures, adDocid, n, ids, unviewed, adLatent);
      if ok {
        TouchedAreKnown(ads0, ids0, unviewed0, adLatent, ids, unviewed, adKeys);
      }
    }

    /** One impression: the counters and rates move, new keys get vectors, the ad's features count as
        viewed, and both tables take one training step. Fails where the position of the n-th key of the ad
        lies outside the bit set, with the vectors inserted and no step taken. */
    method Update(userInfo: seq<(string, string)>, adDocid: string, isClicked: bool)
      returns (ok: bool, ghost n: nat, ghost users: map<string, Vec>, ghost ads: map<string, Vec>, ghost norm: real)
      requires Valid()
      modifies this`clickedNum, this`impressionNum, this`ratio, this`learningRate, this`userLatent, this`adLatent,
        this`ids, this`unviewed
      ensures Valid()
      ensures impressionNum == old(impressionNum) + 1
      ensures clickedNum == old(clickedNum) + if isClicked then 1 else 0
      ensures RatesFollow(old(learningRate), old(ratio), impressionNum, clickedNum, learningRate, ratio)
      ensures Grown(old(userLatent), users, UserKeys(userInfo))
      ensures var keys := KeysOfAd(values, adFeatures, useAdFeature, adDocid);
        && n <= |keys| && (if ok then n == |keys| else 0 < n && IdOf(old(ids), keys[n - 1]) >= MAX_AD_ITEMS)
        && Touched(old(adLatent), old(ids), old(unviewed), ads, ids, unviewed, keys[..n])
      ensures !ok ==> userLatent == users && adLatent == ads
      ensures ok ==> Trained(users, Picked(old(userLatent).Keys, UserKeys(userInfo), isClicked),
                             ads, KeysOfAd(values, adFeatures, useAdFeature, adDocid),
                             StepGradient(learningRate, ratio, isClicked), norm, userLatent, adLatent)
      ensures old(ViewedExactly(values, unviewed, adLatent.Keys)) ==>
        (ViewedExactly(values, unviewed, adLatent.Keys) <==> useAdFeature || adDocid in values || 0 !in old(unviewed))
    {
      hide TableWithin, Indexed, UnviewedAreNew, ViewedExactly, FeaturesListed, Grown, Picked, Touched, KeysOfAd,
        RatesFollow, UserKeys, IdOf, UsersAt, AdAt, StepGradient;
      CountImpression(isClicked);
      var picked, adKeys;
      ok, n, picked, adKeys := InsertKeys(userInfo, adDocid, isClicked);
      users, ads, norm := userLatent, adLatent, 0.0;
      if !ok {
        return;
      }
      var gradient := StepGradient(learningRate, ratio, isClicked);
      norm := Train(picked, adKeys, gradient);
    }

    // ----- recommending

    method OfferCandidates(queue: BoundedQueue.ScoreQueue<string>, user: Vec, candidates: seq<string>)
      requires TableShaped(adLatent) && |user| == LATENT_VEC_DIM
      requires queue.keyLess == Strings.Less && queue.items == [] && queue.Valid()
      modifies queue
      ensures queue.Valid() && queue.items == BoundedQueue.Kept(Strings.Less, queue.capacity, Scored(adLatent, user, candidates))
    {
      hide BoundedQueue.Kept, BoundedQueue.Offered, BoundedQueue.Ascending, Strings.Less;
      RecommendList.KeyOrder();
      NothingKept(queue.capacity);
      for i := 0 to |candidates|
        invariant queue.Valid()
        invariant queue.items == BoundedQueue.Kept(Strings.Less, queue.capacity, Scored(adLatent, user, candidates[..i]))
      {
        ScoredMore(adLatent, user, candidates, i);
        var key := candidates[i];
        if key !in adLatent {
          continue;
        }
        var score := Affinity(user, adLatent[key]);
        BoundedQueue.KeptOneMore(Strings.Less, queue.capacity, Scored(adLatent, user, candidates[..i]), BoundedQueue.Item(key, score));
        queue.Insert(BoundedQueue.Item(key, score));
      }
      assert candidates[..|candidates|] == candidates;
    }

    method OfferAll(queue: BoundedQueue.ScoreQueue<string>, user: Vec) returns (ghost offered: seq<RecommendList.Item>)
      requires TableShaped(adLatent) && |user| == LATENT_VEC_DIM
      requires queue.keyLess == Strings.Less && queue.items == [] && queue.Valid()
      modifies queue
      ensures queue.Valid() && queue.items == BoundedQueue.Kept(Strings.Less, queue.capacity, offered)
      ensures AllScored(adLatent, user, offered, adLatent.Keys)
    {
      hide BoundedQueue.Kept, BoundedQueue.Offered, BoundedQueue.Ascending, Strings.Less;
      RecommendList.KeyOrder();
      NothingKept(queue.capacity);
      offered := [];
      var todo := adLatent.Keys;
      while todo != {}
        invariant todo <= adLatent.Keys
        invariant queue.Valid() && queue.items == BoundedQueue.Kept(Strings.Less, queue.capacity, offered)
        invariant AllScored(adLatent, user, offered, adLatent.Keys - todo)
      {
        var key :| key in todo;
        var item := BoundedQueue.Item(key, 0.0);
        var score := Affinity(user, adLatent[key]);
        item := item.(score := score);
        BoundedQueue.KeptOneMore(Strings.Less, queue.capacity, offered, item);
        queue.Insert(item);
        OneMoreScored(adLatent, user, offered, adLatent.Keys - todo, item);
        offered := offered + [item];
        todo := todo - {key};
        assert adLatent.Keys - (todo + {key}) + {key} == adLatent.Keys - todo;
      }
      assert adLatent.Keys - todo == adLatent.Keys;
    }

    /** Empties the queue from the least item into the list from its end. */
    method TakeAll(queue: BoundedQueue.ScoreQueue<string>, hasUnviewed: bool, defaultScore: real)
      returns (items: seq<string>, scores: seq<real>)
      requires Valid() && queue.Valid()
      modifies queue
      ensures |items| == |scores| == |old(queue.items)|
      ensures var unseen := if hasUnviewed then Unseen(values, unviewed) else [];
        forall i :: 0 <= i < |items| ==>
          RecommendList.Entry(items[i], scores[i]) == RecommendList.Entries(old(queue.items), unseen, defaultScore)[i]
    {
      ghost var kept := queue.items;
      UnseenAreListed(values, unviewed, adLatent.Keys);
      ghost var unseen := if hasUnviewed then Unseen(values, unviewed) else [];
      var size := |queue.items|;
      items, scores := seq(size, _ => ""), seq(size, _ => 0.0);
      for i := size downto 0
        invariant |items| == |scores| == size
        invariant queue.Valid() && queue.items == kept[size - i..]
        invariant forall j :: i <= j < size ==>
          RecommendList.Entry(items[j], scores[j]) == RecommendList.EntryAt(kept, unseen, defaultScore, size - 1 - j)
      {
        var item := queue.Pop();
        assert item == kept[size - 1 - i];
        if hasUnviewed && item.score < defaultScore {
          var index := GetUnviewed(unviewed, size - 1 - i);
          if index != -1 && index < |values| {
            items, scores := items[i := values[index]], scores[i := defaultScore];
            continue;
          }
        }
        items, scores := items[i := item.key], scores[i := item.score];
      }
    }

    /** Offers every ad vector to the queue, or those of the candidates, and lists what it keeps; asked for
        unviewed features too, these take the places of the items scored below the default. */
    method DoRecommend(userInfo: seq<(string, string)>, maxReturn: nat, candidates: seq<string>, forUnviewed: bool)
      returns (items: seq<string>, scores: seq<real>, ghost offered: seq<RecommendList.Item>)
      requires Valid()
      ensures var user := UserVector(userLatent, UserKeys(userInfo));
        if candidates == [] then AllScored(adLatent, user, offered, adLatent.Keys)
        else offered == Scored(adLatent, user, candidates)
      ensures var kept := BoundedQueue.Kept(Strings.Less, maxReturn, offered);
        var unseen := if forUnviewed then Unseen(values, unviewed) else [];
        var entries := RecommendList.Entries(kept, unseen,
                         Dot(UserVector(userLatent, UserKeys(userInfo)), DefaultVector(), LATENT_VEC_DIM));
        && |items| == |scores| == |entries|
        && (forall i :: 0 <= i < |items| ==> RecommendList.Entry(items[i], scores[i]) == entries[i])
      ensures candidates == [] ==> Distinct(items)
    {
      var keys := GetUserLatentVecKeys(userInfo);
      WithinIsShaped(userLatent);
      WithinIsShaped(adLatent);
      var user := CombineUser(userLatent, keys);
      var hasUnviewed := forUnviewed && unviewed != {};
      var queue := new BoundedQueue.ScoreQueue(Strings.Less, maxReturn);
      if candidates == [] {
        offered := OfferAll(queue, user);
        NothingRecommendedTwice(values, ids, useAdFeature, unviewed, adLatent, user, maxReturn, offered);
      } else {
        OfferCandidates(queue, user, candidates);
        offered := Scored(adLatent, user, candidates);
      }
      var defaultScore := Affinity(user, seq(LATENT_VEC_DIM, _ => 1.0));
      assert seq(LATENT_VEC_DIM, _ => 1.0) == DefaultVector();
      NothingUnseen(values, unviewed);
      items, scores := TakeAll(queue, hasUnviewed, defaultScore);
    }
  }

  /** The rates are recomputed once every 50000 impressions. */
  ghost predicate RatesFollow(learningRate0: real, ratio0: real, impressionNum: nat, clickedNum: nat,
                              learningRate: real, ratio: real)
    requires 0 < clickedNum < impressionNum
  {
    if impressionNum % 50000 == 0 then
      && learningRate == 1.0 / clickedNum as real
      && ratio == 0.98 * ratio0 - 0.02 * clickedNum as real / (impressionNum - clickedNum) as real
    else
      learningRate == learningRate0 && ratio == ratio0
  }

  /** At every 50000th impression the rate becomes one over the number of clicks, and the ratio's distance from the
      negative ratio of clicks to other impressions shrinks to 98 percent; at other impressions both stay. */
  lemma RatioApproaches(learningRate0: real, ratio0: real, impressionNum: nat, clickedNum: nat,
                        learningRate: real, ratio: real, target: real)
    requires 0 < clickedNum < impressionNum
    requires RatesFollow(learningRate0, ratio0, impressionNum, clickedNum, learningRate, ratio)
    requires target * (impressionNum - clickedNum) as real == -(clickedNum as real)
    ensures impressionNum % 50000 == 0 ==>
      learningRate * clickedNum as real == 1.0 && ratio - target == 0.98 * (ratio0 - target)
    ensures impressionNum % 50000 != 0 ==> learningRate == learningRate0 && ratio == ratio0
  {
    var c, n := clickedNum as real, (impressionNum - clickedNum) as real;
    if impressionNum % 50000 == 0 {
      TimesQuotient(1.0, c);
      QuotientIs(0.02 * c, n, -0.02 * target);
    }
  }

  lemma QuotientIs(a: real, n: real, q: real)
    requires n > 0.0 && a == q * n
    ensures a / n == q
  {
  }

  lemma RatesKeepSigns(clickedNum: nat, impressionNum: nat, ratio0: real)
    requires 0 < clickedNum < impressionNum && ratio0 < 0.0
    ensures 1.0 / clickedNum as real > 0.0
    ensures -1.0 * SMOOTH * clickedNum as real / (impressionNum - clickedNum) as real + (1.0 - SMOOTH) * ratio0 < 0.0
  {
    var c, n := clickedNum as real, (impressionNum - clickedNum) as real;
    Divided(1.0, c);
    Divided(SMOOTH * c, n);
    assert (-1.0 * SMOOTH * c) / n == -(SMOOTH * c / n);
  }

  lemma Divided(x: real, n: real)
    requires x > 0.0 && n > 0.0
    ensures x / n > 0.0
  {
  }

  lemma TrainedIsStepped(users0: map<string, Vec>, userKeys: seq<string>, ads0: map<string, Vec>, adKey: string, gradient: real,
                         norm: real, users: map<string, Vec>, ads: map<string, Vec>)
    requires TableShaped(users0) && TableShaped(ads0) && norm <= MAX_NORM
    requires Trained(users0, userKeys, ads0, [adKey], gradient, norm, users, ads)
    ensures Stepped(users0, userKeys, ads0, adKey, gradient, users, ads)
  {
    assert [adKey][0] == adKey;
    hide UserVector, Constrained, UsersAt, AdsAfter, Stepped, NormOf;
    StepMoves(users0, userKeys, ads0, adKey, gradient, norm);
  }

  /** One impression of an ad with one vector, unscaled. The ad's score for the user as it was before changes by
      the rate times the square of the user vector after a click, and by ratio times rate times it without one;
      so a click never lowers the score, before or after the user's own step, and no click never raises it. */
  lemma ClicksDirectTheScore(users0: map<string, Vec>, userKeys: seq<string>, ads0: map<string, Vec>, adKey: string,
                             learningRate: real, ratio: real, isClicked: bool, norm: real,
                             users: map<string, Vec>, ads: map<string, Vec>)
    requires TableShaped(users0) && TableShaped(ads0) && learningRate > 0.0 && ratio < 0.0 && norm <= MAX_NORM
    requires Trained(users0, userKeys, ads0, [adKey], StepGradient(learningRate, ratio, isClicked), norm, users, ads)
    ensures TableShaped(users) && adKey in ads0 && adKey in ads && |ads0[adKey]| == |ads[adKey]| == LATENT_VEC_DIM
    ensures var u, u', ad, ad' := UserVector(users0, userKeys), UserVector(users, userKeys), ads0[adKey], ads[adKey];
      && ScoreRises(u, ad, ad', if isClicked then learningRate else ratio * learningRate, u)
      && (isClicked ==> Dot(u, ad, LATENT_VEC_DIM) <= Dot(u, ad', LATENT_VEC_DIM) <= Dot(u', ad', LATENT_VEC_DIM))
      && (!isClicked ==> Dot(u, ad, LATENT_VEC_DIM) >= Dot(u, ad', LATENT_VEC_DIM) >= Dot(u', ad', LATENT_VEC_DIM))
  {
    var gradient := StepGradient(learningRate, ratio, isClicked);
    assert gradient == if isClicked then learningRate else ratio * learningRate;
    NegativeProduct(ratio, learningRate);
    TrainedIsStepped(users0, userKeys, ads0, adKey, gradient, norm, users, ads);
    hide UserVector, Dot, Trained, Stepped, TableShaped, StepGradient, ScoreRises;
    StepMovesScore(users0, userKeys, ads0, adKey, gradient, users, ads);
    StepDirects(users0, userKeys, ads0, adKey, gradient, users, ads);
  }

  lemma NegativeProduct(a: real, b: real)
    requires a < 0.0 && b > 0.0
    ensures a * b < 0.0
  {
  }

  lemma TouchedAreKnown(latent0: map<string, Vec>, ids0: map<string, nat>, unviewed0: set<nat>,
                        latent: map<string, Vec>, ids: map<string, nat>, unviewed: set<nat>, keys: seq<string>)
    requires Touched(latent0, ids0, unviewed0, latent, ids, unviewed, keys[..|keys|])
    ensures forall i :: 0 <= i < |keys| ==> keys[i] in latent
    ensures Touched(latent0, ids0, unviewed0, latent, ids, unviewed, keys)
  {
    assert keys[..|keys|] == keys;
    assert forall i :: 0 <= i < |keys| ==> keys[i] in Elements(keys);
  }

  /** The bits stay exact exactly when features describe the ads, or the ad is listed, or the feature at 0
      had been viewed before: otherwise the unknown ad marks the feature at 0 viewed. */
  lemma TouchedKeepsBits(values: seq<string>, ids0: map<string, nat>, unviewed0: set<nat>, latent0: map<string, Vec>,
                         useAdFeature: bool, adFeatures: map<string, set<nat>>, adDocid: string, n: nat,
                         ids: map<string, nat>, unviewed: set<nat>, latent: map<string, Vec>)
    requires Indexed(values, ids0, useAdFeature) && UnviewedAreNew(values, unviewed0, latent0.Keys)
    requires useAdFeature ==> FeaturesListed(adFeatures, |values|)
    requires var keys := KeysOfAd(values, adFeatures, useAdFeature, adDocid);
      && n <= |keys| && (n == 0 ==> n == |keys|)
      && Touched(latent0, ids0, unviewed0, latent, ids, unviewed, keys[..n])
    ensures ViewedExactly(values, unviewed0, latent0.Keys) ==>
      (ViewedExactly(values, unviewed, latent.Keys) <==> useAdFeature || adDocid in values || 0 !in unviewed0)
  {
    if ViewedExactly(values, unviewed0, latent0.Keys) {
      var keys := KeysOfAd(values, adFeatures, useAdFeature, adDocid);
      TouchKeepsBitsExactly(values, ids0, unviewed0, latent0.Keys, useAdFeature, keys[..n]);
      if useAdFeature {
        KeysOfAdAreListed(values, adFeatures, adDocid);
      } else {
        assert keys[..n] == [adDocid];
        assert 0 in unviewed0 && values[0] in keys[..n] ==> adDocid in values;
        assert keys[..n][0] == adDocid;
      }
    }
  }

  /** An impression of an ad that was never listed hides the only feature from later recommendations. */
  lemma UnknownAdHidesTheFirstFeature()
    ensures var values, ids, unviewed, latent := ["a"], map["a" := 0], {0}, {};
      && Indexed(values, ids, false) && UnviewedAreNew(values, unviewed, latent) && ViewedExactly(values, unviewed, latent)
      && IdsOf(ids, ["x"]) == {0}
      && !ViewedExactly(values, unviewed - IdsOf(ids, ["x"]), latent + {"x"})
  {
    assert ["x"][0] == "x";
    assert IdOf(map["a" := 0], ["x"][0]) == 0;
    assert 0 in IdsOf(map["a" := 0], ["x"]);
    assert ["a"][0] == "a";
  }

  // ----- unviewed features run out

  ghost function ZeroVector(): Vec {
    seq(LATENT_VEC_DIM, _ => 0.0)
  }

  lemma {:induction false} DotWithZeros(v: Vec, n: nat)
    requires n <= |v| && n <= LATENT_VEC_DIM
    ensures Dot(v, ZeroVector(), n) == 0.0
  {
    if n > 0 {
      DotWithZeros(v, n - 1);
    }
  }

  lemma {:induction false} DotOfOnes(n: nat)
    requires n <= LATENT_VEC_DIM
    ensures Dot(UserVector(map[], []), DefaultVector(), n) == n as real
  {
    if n > 0 {
      DotOfOnes(n - 1);
    }
  }

  /** A state with one unviewed feature and two ads that score nothing for a user without features: both
      ads fall below the default score, and only one of them can give up its place. Two recommendations
      are then listed in ascending order. */
  lemma UnviewedFeaturesRunOut(offered: seq<RecommendList.Item>)
    requires AllScored(map["b" := ZeroVector(), "c" := ZeroVector()], UserVector(map[], []), offered, {"b", "c"})
    ensures var values, ids, unviewed := ["a", "b", "c"], map["a" := 0, "b" := 1, "c" := 2], {0};
      && Indexed(values, ids, true) && {"b", "c"} <= ids.Keys
      && UnviewedAreNew(values, unviewed, {"b", "c"}) && ViewedExactly(values, unviewed, {"b", "c"})
    ensures TableWithin(map["b" := ZeroVector(), "c" := ZeroVector()], MAX_NORM)
    ensures var kept := BoundedQueue.Kept(Strings.Less, 2, offered);
      var unseen, defaultScore := Unseen(["a", "b", "c"], {0}), Dot(UserVector(map[], []), DefaultVector(), LATENT_VEC_DIM);
      && RecommendList.RunsOut(kept, unseen, defaultScore)
      && !RecommendList.Descending(RecommendList.Entries(kept, unseen, defaultScore))
  {
    hide Dot, UserVector, BoundedQueue.Kept, Strings.Less, RecommendList.Entries, RecommendList.Descending;
    var latent, user := map["b" := ZeroVector(), "c" := ZeroVector()], UserVector(map[], []);
    var values := ["a", "b", "c"];
    assert values[0] == "a" && values[1] == "b" && values[2] == "c";
    DotWithZeros(user, LATENT_VEC_DIM);
    DotOfOnes(LATENT_VEC_DIM);
    assert ScoreOf(latent, user, "b") in offered && ScoreOf(latent, user, "c") in offered;
    var kept := BoundedQueue.Kept(Strings.Less, 2, offered);
    BoundedQueue.KeptAreOffered(Strings.Less, 2, offered);
    BoundedQueue.KeptKeysAreDistinct(Strings.Less, 2, offered);
    assert kept[1] in offered;
    RecommendList.RecommendationIsRanked(2, offered, Unseen(values, {0}), Dot(user, DefaultVector(), LATENT_VEC_DIM));
  }

  lemma HighBitsAreClear(values: seq<string>, unviewed: set<nat>, latent: set<string>, id: nat)
    requires UnviewedAreNew(values, unviewed, latent) && id >= MAX_AD_ITEMS
    ensures unviewed - {id} == unviewed
  {
  }

  lemma PickedAreKnown(t0: map<string, Vec>, t1: map<string, Vec>, keys: seq<string>, isClicked: bool)
    requires Grown(t0, t1, keys)
    ensures forall i :: 0 <= i < |Picked(t0.Keys, keys, isClicked)| ==> Picked(t0.Keys, keys, isClicked)[i] in t1
  {
    PickedAreNamed(t0.Keys, keys, isClicked);
  }
}
