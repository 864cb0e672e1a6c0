/** Where a training step takes the scores: the ad moves along the combined user vector and the user's features
    along the moved ad. */
module StepDirection {
  import opened LatentVectors
  import opened Sequences

  /** v is x moved by gradient along w. */
  ghost predicate MovedAlong(v: Vec, x: Vec, gradient: real, w: Vec) {
    && |v| == |x| == |w| == LATENT_VEC_DIM
    && forall k :: 0 <= k < LATENT_VEC_DIM ==> v[k] == x[k] + gradient * w[k]
  }

  lemma Distribute(u: real, x: real, g: real, w: real)
    ensures u * (x + g * w) == u * x + g * (u * w)
  {
  }

  lemma DistributeSum(g: real, a: real, b: real)
    ensures g * (a + b) == g * a + g * b
  {
  }

  lemma {:induction false} DotMoved(u: Vec, v: Vec, x: Vec, gradient: real, w: Vec, n: nat)
    requires MovedAlong(v, x, gradient, w) && |u| == LATENT_VEC_DIM && n <= LATENT_VEC_DIM
    ensures Dot(u, v, n) == Dot(u, x, n) + gradient * Dot(u, w, n)
  {
    if n > 0 {
      DotMoved(u, v, x, gradient, w, n - 1);
      Distribute(u[n - 1], x[n - 1], gradient, w[n - 1]);
      DistributeSum(gradient, Dot(u, w, n - 1), u[n - 1] * w[n - 1]);
    }
  }

  lemma Square(x: real)
    ensures x * x >= 0.0
  {
  }

  lemma {:induction false} DotSquare(u: Vec, n: nat)
    requires n <= |u|
    ensures Dot(u, u, n) >= 0.0
  {
    if n > 0 {
      DotSquare(u, n - 1);
      Square(u[n - 1]);
    }
  }

  lemma {:induction false} DotCommutes(u: Vec, v: Vec, n: nat)
    requires n <= |u| && n <= |v|
    ensures Dot(u, v, n) == Dot(v, u, n)
  {
    if n > 0 {
      DotCommutes(u, v, n - 1);
    }
  }

  // ----- what one step did to the tables

  lemma AdMoved(users0: map<string, Vec>, userKeys: seq<string>, ad: Vec, gradient: real)
    requires TableShaped(users0) && |ad| == LATENT_VEC_DIM && forall i :: 0 <= i < |userKeys| ==> userKeys[i] in users0
    ensures Shaped(Gathered(users0, userKeys))
    ensures MovedAlong(AdAfter(ad, Gathered(users0, userKeys), gradient), ad, gradient, UserVector(users0, userKeys))
  {
    hide Mean, UserVector;
    forall k: nat | k < LATENT_VEC_DIM
      ensures UserVector(users0, userKeys)[k] == Mean(Gathered(users0, userKeys), k)
    {
      ScoredAsTrained(users0, userKeys, k);
    }
  }

  lemma {:induction false} WrittenAt(t: map<string, Vec>, keys: seq<string>, vs: seq<Vec>, i: nat)
    requires |keys| == |vs| && i < |keys|
    requires forall a, b :: 0 <= a < |keys| && 0 <= b < |keys| && keys[a] == keys[b] ==> vs[a] == vs[b]
    ensures keys[i] in WrittenBack(t, keys, vs) && WrittenBack(t, keys, vs)[keys[i]] == vs[i]
  {
    if i < |keys| - 1 {
      WrittenAt(t, keys[..|keys| - 1], vs[..|vs| - 1], i);
    }
  }

  /** One step for one ad, without scaling: the ad has moved along the user vector, every user feature along the
      moved ad, and no other vector has moved. */
  ghost predicate Stepped(users0: map<string, Vec>, userKeys: seq<string>, ads0: map<string, Vec>, adKey: string,
                          gradient: real, users: map<string, Vec>, ads: map<string, Vec>)
    requires TableShaped(users0)
  {
    && adKey in ads0 && adKey in ads && users.Keys == users0.Keys
    && MovedAlong(ads[adKey], ads0[adKey], gradient, UserVector(users0, userKeys))
    && (forall i :: 0 <= i < |userKeys| ==>
         userKeys[i] in users0 && MovedAlong(users[userKeys[i]], users0[userKeys[i]], gradient, ads[adKey]))
    && (forall key :: key in users0 && key !in userKeys ==> users[key] == users0[key])
    && ads == ads0[adKey := ads[adKey]]
  }

  lemma SteppedAd(users0: map<string, Vec>, userKeys: seq<string>, ads0: map<string, Vec>, adKey: string,
                  gradient: real, users: map<string, Vec>, ads: map<string, Vec>)
    requires TableShaped(users0) && Stepped(users0, userKeys, ads0, adKey, gradient, users, ads)
    ensures adKey in ads0 && adKey in ads && |ads0[adKey]| == |ads[adKey]| == LATENT_VEC_DIM
  {
  }

  lemma StepMoves(users0: map<string, Vec>, userKeys: seq<string>, ads0: map<string, Vec>, adKey: string, gradient: real,
                  norm: real)
    requires TableShaped(users0) && TableShaped(ads0) && adKey in ads0 && norm <= MAX_NORM
    requires forall i :: 0 <= i < |userKeys| ==> userKeys[i] in users0
    ensures var us, as' := Gathered(users0, userKeys), Gathered(ads0, [adKey]);
      && Shaped(us) && Shaped(as')
      && Stepped(users0, userKeys, ads0, adKey, gradient,
                 Constrained(users0, userKeys, UsersAt(as', us, gradient, 1), norm),
                 Constrained(ads0, [adKey], AdsAfter(as', us, gradient), norm))
  {
    var us, as' := Gathered(users0, userKeys), Gathered(ads0, [adKey]);
    AdMoved(users0, userKeys, ads0[adKey], gradient);
    var ad := AdAfter(ads0[adKey], us, gradient);
    OneAd(ads0[adKey], as', us, gradient);
    var moved := UsersAfter(us, ad, gradient);
    hide AdAfter, UserVector, UsersAt, UsersAfter, AdAt, AdsAfter, Gathered, MovedAlong;
    OneKeyWritten(ads0, adKey, ad);
    UsersWritten(users0, userKeys, ad, gradient);
  }

  lemma OneAd(ad: Vec, ads: seq<Vec>, users: seq<Vec>, gradient: real)
    requires Shaped(users) && |ad| == LATENT_VEC_DIM && ads == [ad]
    ensures Shaped(ads) && AdsAfter(ads, users, gradient) == [AdAfter(ad, users, gradient)]
    ensures UsersAt(ads, users, gradient, 1) == UsersAfter(users, AdAfter(ad, users, gradient), gradient)
  {
    hide AdAfter, UsersAfter;
    assert UsersAt(ads, users, gradient, 0) == users && ads[0] == ad;
    assert AdAt(ads, users, gradient, 0) == AdAfter(ad, users, gradient);
  }

  lemma OneKeyWritten(ads0: map<string, Vec>, adKey: string, ad: Vec)
    ensures WrittenBack(ads0, [adKey], [ad]) == ads0[adKey := ad]
  {
    assert [adKey][..0] == [] && [ad][..0] == [];
  }

  lemma UserMoved(user: Vec, ad: Vec, gradient: real)
    requires |user| == LATENT_VEC_DIM && |ad| == LATENT_VEC_DIM
    ensures MovedAlong(UserAfter(user, ad, gradient), user, gradient, ad)
  {
  }

  lemma UsersWritten(users0: map<string, Vec>, userKeys: seq<string>, ad: Vec, gradient: real)
    requires TableShaped(users0) && |ad| == LATENT_VEC_DIM && forall i :: 0 <= i < |userKeys| ==> userKeys[i] in users0
    ensures var us := Gathered(users0, userKeys);
      && Shaped(us)
      && var users := WrittenBack(users0, userKeys, UsersAfter(us, ad, gradient));
      && users.Keys == users0.Keys
      && (forall i :: 0 <= i < |userKeys| ==> MovedAlong(users[userKeys[i]], users0[userKeys[i]], gradient, ad))
      && forall key :: key in users0 && key !in userKeys ==> users[key] == users0[key]
  {
    var us := Gathered(users0, userKeys);
    var moved := UsersAfter(us, ad, gradient);
    WrittenBackKeys(users0, userKeys, moved);
    hide WrittenBack, MovedAlong, UserAfter;
    forall i | 0 <= i < |userKeys|
      ensures MovedAlong(WrittenBack(users0, userKeys, moved)[userKeys[i]], users0[userKeys[i]], gradient, ad)
    {
      WrittenAt(users0, userKeys, moved, i);
      UserMoved(us[i], ad, gradient);
    }
  }

  // ----- what it did to the scores

  /** The step one component takes along w. */
  ghost function StepAt(gradient: real, w: Vec, k: nat): real
    requires k < |w|
  {
    gradient * w[k]
  }

  lemma MovedAt(v: Vec, x: Vec, gradient: real, w: Vec, k: nat)
    requires MovedAlong(v, x, gradient, w) && k < LATENT_VEC_DIM
    ensures v[k] == x[k] + StepAt(gradient, w, k)
  {
  }

  ghost predicate RaisedBy(a: real, b: real, n: nat, step: real) {
    a == b + n as real * step
  }

  lemma RaisedOnce(a: real, b: real, n: nat, x: real, step: real)
    requires RaisedBy(a, b, n, step)
    ensures RaisedBy(a + (x + step), b + x, n + 1, step)
  {
    assert (n + 1) as real * step == n as real * step + step;
  }

  lemma {:induction false} KeySumMoved(users0: map<string, Vec>, userKeys: seq<string>, ads0: map<string, Vec>, adKey: string,
                                       gradient: real, users: map<string, Vec>, ads: map<string, Vec>, k: nat, n: nat)
    requires TableShaped(users0) && TableShaped(users) && Stepped(users0, userKeys, ads0, adKey, gradient, users, ads)
    requires k < LATENT_VEC_DIM && n <= |userKeys|
    ensures |ads[adKey]| == LATENT_VEC_DIM
    ensures RaisedBy(KeySum(users, userKeys, k, n), KeySum(users0, userKeys, k, n), n, StepAt(gradient, ads[adKey], k))
  {
    hide UserVector;
    SteppedAd(users0, userKeys, ads0, adKey, gradient, users, ads);
    if n > 0 {
      hide MovedAlong, RaisedBy, StepAt;
      KeySumMoved(users0, userKeys, ads0, adKey, gradient, users, ads, k, n - 1);
      var key := userKeys[n - 1];
      assert MovedAlong(users[key], users0[key], gradient, ads[adKey]);
      MovedAt(users[key], users0[key], gradient, ads[adKey], k);
      RaisedOnce(KeySum(users, userKeys, k, n - 1), KeySum(users0, userKeys, k, n - 1), n - 1, users0[key][k],
                 StepAt(gradient, ads[adKey], k));
    }
  }

  lemma MeanRaised(a: real, b: real, n: nat, step: real)
    requires n > 0 && RaisedBy(a, b, n, step)
    ensures a / n as real == b / n as real + step
  {
    var d := n as real;
    assert (b + d * step) / d == b / d + step;
  }

  /** The user vector has moved along the moved ad as well, if the user has any feature. */
  lemma UserVectorMoved(users0: map<string, Vec>, userKeys: seq<string>, ads0: map<string, Vec>, adKey: string,
                        gradient: real, users: map<string, Vec>, ads: map<string, Vec>)
    requires TableShaped(users0) && TableShaped(users) && Stepped(users0, userKeys, ads0, adKey, gradient, users, ads)
    requires userKeys != []
    ensures MovedAlong(UserVector(users, userKeys), UserVector(users0, userKeys), gradient, ads[adKey])
  {
    SteppedAd(users0, userKeys, ads0, adKey, gradient, users, ads);
    forall k: nat | k < LATENT_VEC_DIM
      ensures UserVector(users, userKeys)[k] == UserVector(users0, userKeys)[k] + StepAt(gradient, ads[adKey], k)
    {
      hide KeySum, Stepped, StepAt, RaisedBy;
      KeySumMoved(users0, userKeys, ads0, adKey, gradient, users, ads, k, |userKeys|);
      MeanRaised(KeySum(users, userKeys, k, |userKeys|), KeySum(users0, userKeys, k, |userKeys|), |userKeys|,
                 StepAt(gradient, ads[adKey], k));
    }
    hide KeySum, Stepped, UserVector;
  }

  lemma SteppedShapes(users0: map<string, Vec>, userKeys: seq<string>, ads0: map<string, Vec>, adKey: string,
                      gradient: real, users: map<string, Vec>, ads: map<string, Vec>)
    requires TableShaped(users0) && Stepped(users0, userKeys, ads0, adKey, gradient, users, ads)
    ensures TableShaped(users)
  {
    forall key | key in users
      ensures |users[key]| == LATENT_VEC_DIM
    {
      if key in userKeys {
        var i :| 0 <= i < |userKeys| && userKeys[i] == key;
        assert MovedAlong(users[userKeys[i]], users0[userKeys[i]], gradient, ads[adKey]);
      }
    }
  }

  /** Going from x to v raises the score for u by g times the square of w. */
  ghost predicate ScoreRises(u: Vec, x: Vec, v: Vec, g: real, w: Vec)
    requires |u| == |x| == |v| == |w| == LATENT_VEC_DIM
  {
    Dot(u, v, LATENT_VEC_DIM) - Dot(u, x, LATENT_VEC_DIM) == g * Dot(w, w, LATENT_VEC_DIM)
  }

  /** The ad's score for the old user vector u changes by gradient times u's square; for the new user vector by
      the moved ad's square besides. */
  lemma StepMovesScore(users0: map<string, Vec>, userKeys: seq<string>, ads0: map<string, Vec>, adKey: string,
                       gradient: real, users: map<string, Vec>, ads: map<string, Vec>)
    requires TableShaped(users0) && Stepped(users0, userKeys, ads0, adKey, gradient, users, ads)
    ensures TableShaped(users)
    ensures var u, u', ad, ad' := UserVector(users0, userKeys), UserVector(users, userKeys), ads0[adKey], ads[adKey];
      && |ad| == |ad'| == LATENT_VEC_DIM && ScoreRises(u, ad, ad', gradient, u)
      && (if userKeys == [] then u' == u else ScoreRises(ad', u, u', gradient, ad'))
  {
    SteppedShapes(users0, userKeys, ads0, adKey, gradient, users, ads);
    var u, u', ad, ad' := UserVector(users0, userKeys), UserVector(users, userKeys), ads0[adKey], ads[adKey];
    DotMoved(u, ad', ad, gradient, u, LATENT_VEC_DIM);
    if userKeys == [] {
      assert u' == u;
    } else {
      UserVectorMoved(users0, userKeys, ads0, adKey, gradient, users, ads);
      DotMoved(ad', u', u, gradient, ad', LATENT_VEC_DIM);
    }
  }

  lemma SignOfProduct(g: real, x: real)
    requires x >= 0.0
    ensures g >= 0.0 ==> g * x >= 0.0
    ensures g <= 0.0 ==> g * x <= 0.0
  {
  }

  lemma RiseHasSign(u: Vec, x: Vec, v: Vec, g: real, w: Vec)
    requires |u| == |x| == |v| == |w| == LATENT_VEC_DIM && ScoreRises(u, x, v, g, w)
    ensures g >= 0.0 ==> Dot(u, x, LATENT_VEC_DIM) <= Dot(u, v, LATENT_VEC_DIM)
    ensures g <= 0.0 ==> Dot(u, x, LATENT_VEC_DIM) >= Dot(u, v, LATENT_VEC_DIM)
  {
    DotSquare(w, LATENT_VEC_DIM);
    SignOfProduct(g, Dot(w, w, LATENT_VEC_DIM));
  }

  /** A step up never lowers the score the ad gets for the user, before or after the user's own step; a step down
      never raises it. */
  lemma StepDirects(users0: map<string, Vec>, userKeys: seq<string>, ads0: map<string, Vec>, adKey: string,
                    gradient: real, users: map<string, Vec>, ads: map<string, Vec>)
    requires TableShaped(users0) && Stepped(users0, userKeys, ads0, adKey, gradient, users, ads)
    ensures TableShaped(users) && adKey in ads0 && adKey in ads && |ads0[adKey]| == |ads[adKey]| == LATENT_VEC_DIM
    ensures var u, u', ad, ad' := UserVector(users0, userKeys), UserVector(users, userKeys), ads0[adKey], ads[adKey];
      && (gradient >= 0.0 ==> Dot(u, ad, LATENT_VEC_DIM) <= Dot(u, ad', LATENT_VEC_DIM) <= Dot(u', ad', LATENT_VEC_DIM))
      && (gradient <= 0.0 ==> Dot(u, ad, LATENT_VEC_DIM) >= Dot(u, ad', LATENT_VEC_DIM) >= Dot(u', ad', LATENT_VEC_DIM))
  {
    StepMovesScore(users0, userKeys, ads0, adKey, gradient, users, ads);
    var u, u', ad, ad' := UserVector(users0, userKeys), UserVector(users, userKeys), ads0[adKey], ads[adKey];
    hide Stepped, UserVector, Dot, ScoreRises, TableShaped;
    RiseHasSign(u, ad, ad', gradient, u);
    if userKeys != [] {
      RiseHasSign(ad', u, u', gradient, ad');
      DotCommutes(ad', u', LATENT_VEC_DIM);
      DotCommutes(ad', u, LATENT_VEC_DIM);
    }
  }

  // ----- an ad of several features

  ghost function MeanVector(users: seq<Vec>): (r: Vec)
    requires Shaped(users)
    ensures |r| == LATENT_VEC_DIM
  {
    seq(LATENT_VEC_DIM, k requires 0 <= k < LATENT_VEC_DIM => Mean(users, k))
  }

  /** Of several ad vectors each takes its step after the earlier ones: its score for the users as they are then
      changes by gradient times the square of their mean, and every user moves along it. */
  lemma EachAdIsDirected(ads: seq<Vec>, users: seq<Vec>, gradient: real, i: nat)
    requires Shaped(ads) && Shaped(users) && i < |ads|
    ensures var m := MeanVector(UsersAt(ads, users, gradient, i));
      && ScoreRises(m, ads[i], AdAt(ads, users, gradient, i), gradient, m)
      && forall j :: 0 <= j < |users| ==>
           MovedAlong(UsersAt(ads, users, gradient, i + 1)[j], UsersAt(ads, users, gradient, i)[j], gradient,
                      AdAt(ads, users, gradient, i))
  {
    hide Mean;
    var m := MeanVector(UsersAt(ads, users, gradient, i));
    assert MovedAlong(AdAt(ads, users, gradient, i), ads[i], gradient, m);
    DotMoved(m, AdAt(ads, users, gradient, i), ads[i], gradient, m, LATENT_VEC_DIM);
  }
}
