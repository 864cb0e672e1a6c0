/** The recommender's feature index: the list of feature values, the map back to their positions and
    the bits of the features nobody has seen yet. */
module FeatureIndex {
  import opened Sequences

  const MAX_AD_ITEMS: nat := 1024 * 1024

  /** Every listed feature maps back to its own position. A key that is not listed may only be one the
      step over an unknown ad left behind, with position 0, when ads are their own features. */
  ghost predicate Indexed(values: seq<string>, ids: map<string, nat>, useAdFeature: bool) {
    && (forall i :: 0 <= i < |values| ==> values[i] in ids && ids[values[i]] == i)
    && (forall key :: key in ids ==>
         (ids[key] < |values| && values[ids[key]] == key) || (!useAdFeature && key !in values && ids[key] == 0))
  }

  /** A bit is set only for a listed feature without a latent vector. */
  ghost predicate UnviewedAreNew(values: seq<string>, unviewed: set<nat>, latent: set<string>) {
    forall b :: b in unviewed ==> b < |values| && b < MAX_AD_ITEMS && values[b] !in latent
  }

  /** The bit is set for every listed feature without a latent vector, and for no other. */
  ghost predicate ViewedExactly(values: seq<string>, unviewed: set<nat>, latent: set<string>) {
    forall i: nat :: i < |values| && i < MAX_AD_ITEMS ==> (i in unviewed <==> values[i] !in latent)
  }

  lemma ListedAreDistinct(values: seq<string>, ids: map<string, nat>, useAdFeature: bool)
    requires Indexed(values, ids, useAdFeature)
    ensures Distinct(values)
  {
    forall i, j | 0 <= i < j < |values|
      ensures values[i] != values[j]
    {
      assert ids[values[i]] == i && ids[values[j]] == j;
    }
  }

  // ----- a feature gets a latent vector

  /** The position std::map's operator[] finds, inserting 0 for a missing key. */
  function IdOf(ids: map<string, nat>, key: string): nat {
    if key in ids then ids[key] else 0
  }

  lemma TouchKeepsIndex(values: seq<string>, ids: map<string, nat>, unviewed: set<nat>, latent: set<string>,
                        useAdFeature: bool, key: string)
    requires Indexed(values, ids, useAdFeature) && UnviewedAreNew(values, unviewed, latent)
    requires useAdFeature ==> key in values
    ensures Indexed(values, ids[key := IdOf(ids, key)], useAdFeature)
    ensures UnviewedAreNew(values, unviewed - {IdOf(ids, key)}, latent + {key})
    ensures IdOf(ids, key) >= MAX_AD_ITEMS ==> UnviewedAreNew(values, unviewed, latent + {key})
  {
    forall b | b in unviewed && values[b] == key
      ensures b == IdOf(ids, key)
    {
      assert ids[values[b]] == b;
    }
  }

  ghost function IdsOf(ids: map<string, nat>, keys: seq<string>): set<nat> {
    set i | 0 <= i < |keys| :: IdOf(ids, keys[i])
  }

  /** Once some keys got their vectors and their positions' bits were cleared, the bits are still exact
      exactly when all the keys are listed, or the feature at 0 had been viewed before or is among the
      keys: a key that is not listed clears bit 0 although the feature there gained nothing. */
  lemma TouchKeepsBitsExactly(values: seq<string>, ids: map<string, nat>, unviewed: set<nat>, latent: set<string>,
                              useAdFeature: bool, keys: seq<string>)
    requires Indexed(values, ids, useAdFeature) && UnviewedAreNew(values, unviewed, latent)
    requires ViewedExactly(values, unviewed, latent)
    ensures ViewedExactly(values, unviewed - IdsOf(ids, keys), latent + Elements(keys)) <==>
            (forall i :: 0 <= i < |keys| ==> keys[i] in values) || 0 !in unviewed || values[0] in keys
  {
    forall i: nat | i < |values| && values[i] in keys
      ensures i in IdsOf(ids, keys)
    {
      var k :| 0 <= k < |keys| && keys[k] == values[i];
      assert IdOf(ids, keys[k]) == i;
    }
    forall i: nat | i in IdsOf(ids, keys) && i < |values| && values[i] !in keys
      ensures i == 0 && exists k :: 0 <= k < |keys| && keys[k] !in values
    {
      var k :| 0 <= k < |keys| && IdOf(ids, keys[k]) == i;
    }
    if k :| 0 <= k < |keys| && keys[k] !in values {
      assert IdOf(ids, keys[k]) == 0;
      assert 0 in IdsOf(ids, keys);
    }
    if 0 in unviewed && values[0] !in keys {
      assert values[0] !in latent;
    }
  }

  // ----- a feature is listed

  lemma ListKeepsIndex(values: seq<string>, ids: map<string, nat>, unviewed: set<nat>, latent: set<string>,
                       useAdFeature: bool, feature: string)
    requires Indexed(values, ids, useAdFeature) && UnviewedAreNew(values, unviewed, latent)
    requires latent <= ids.Keys && feature !in ids
    ensures Indexed(values + [feature], ids[feature := |values|], useAdFeature)
    ensures UnviewedAreNew(values + [feature], unviewed, latent)
    ensures |values| < MAX_AD_ITEMS ==> UnviewedAreNew(values + [feature], unviewed + {|values|}, latent)
    ensures ViewedExactly(values, unviewed, latent) ==>
              if |values| < MAX_AD_ITEMS then ViewedExactly(values + [feature], unviewed + {|values|}, latent)
              else ViewedExactly(values + [feature], unviewed, latent)
  {
    var values', ids' := values + [feature], ids[feature := |values|];
    forall i | 0 <= i < |values'|
      ensures values'[i] in ids' && ids'[values'[i]] == i
    {
      assert i < |values| ==> values[i] in ids;
    }
    forall key | key in ids'
      ensures (ids'[key] < |values'| && values'[ids'[key]] == key) || (!useAdFeature && key !in values' && ids'[key] == 0)
    {
      assert key == feature || key in ids;
    }
  }

  // ----- the index-th unviewed feature

  ghost function SmallerThan(s: set<nat>, n: nat): set<nat> {
    set x | x in s && x < n
  }

  /** The j-th key in ascending order is the one with exactly j smaller keys. */
  lemma RankOfAscending(s: set<nat>, x: nat, j: nat)
    requires x in s && |SmallerThan(s, x)| == j
    ensures j < |s| && Ascending(s)[j] == x
  {
    var r := Ascending(s);
    assert x in r;
    var i :| 0 <= i < |r| && r[i] == x;
    forall y
      ensures y in SmallerThan(s, x) <==> y in Elements(r[..i])
    {
      if y in SmallerThan(s, x) {
        assert y in r;
        var k :| 0 <= k < |r| && r[k] == y;
        assert k < i;
        assert r[..i][k] == y;
      }
      if y in r[..i] {
        var k :| 0 <= k < i && r[k] == y;
        assert r[k] in r && r[k] < r[i];
      }
    }
    assert SmallerThan(s, x) == Elements(r[..i]);
    DistinctCardinality(r[..i]);
  }

  lemma AllSmallerThan(s: set<nat>, n: nat)
    requires forall x :: x in s ==> x < n
    ensures |SmallerThan(s, n)| == |s|
  {
    assert SmallerThan(s, n) == s;
  }

  /** The scan for the index-th set bit: -1 when fewer bits are set, and otherwise that bit. */
  method GetUnviewed(unviewed: set<nat>, index: nat) returns (r: int)
    requires forall b :: b in unviewed ==> b < MAX_AD_ITEMS
    ensures r == if index >= |unviewed| then -1 else Ascending(unviewed)[index]
  {
    if index >= |unviewed| {
      return -1;
    }
    AllSmallerThan(unviewed, MAX_AD_ITEMS);
    var left := index;
    for i := 0 to MAX_AD_ITEMS
      invariant |SmallerThan(unviewed, i)| + left == index
    {
      if i in unviewed {
        if left == 0 {
          RankOfAscending(unviewed, i, index);
          return i;
        }
        left := left - 1;
        assert SmallerThan(unviewed, i + 1) == SmallerThan(unviewed, i) + {i};
      } else {
        assert SmallerThan(unviewed, i + 1) == SmallerThan(unviewed, i);
      }
    }
    assert false;
  }
}
