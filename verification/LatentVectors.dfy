/** The arithmetic of the online recommender: scores, the gradient step and the norm constraint. */
module LatentVectors {
  import opened Sequences

  const LATENT_VEC_DIM: nat := 10
  const MAX_NORM: real := 100.0

  type Vec = seq<real>

  function Abs(x: real): real {
    if x < 0.0 then -x else x
  }

  function MaxReal(a: real, b: real): real {
    if a < b then b else a
  }

  // ----- scores

  ghost function Dot(left: Vec, right: Vec, n: nat): real
    requires n <= |left| && n <= |right|
  {
    if n == 0 then 0.0 else Dot(left, right, n - 1) + left[n - 1] * right[n - 1]
  }

  method Affinity(left: Vec, right: Vec) returns (sum: real)
    requires |left| == |right|
    ensures sum == Dot(left, right, |left|)
  {
    sum := 0.0;
    for i := 0 to |left|
      invariant sum == Dot(left, right, i)
    {
      sum := sum + left[i] * right[i];
    }
  }

  // ----- tables of vectors

  ghost predicate Shaped(vs: seq<Vec>) {
    forall j :: 0 <= j < |vs| ==> |vs[j]| == LATENT_VEC_DIM
  }

  /** Every component stays within the given norm. */
  ghost predicate Within(v: Vec, norm: real) {
    |v| == LATENT_VEC_DIM && forall k :: 0 <= k < |v| ==> Abs(v[k]) <= norm
  }

  ghost predicate TableWithin(t: map<string, Vec>, norm: real) {
    forall key :: key in t ==> Within(t[key], norm)
  }

  ghost function Scaled(v: Vec, scale: real): Vec {
    seq(|v|, k requires 0 <= k < |v| => v[k] * scale)
  }

  ghost function ScaledTable(t: map<string, Vec>, scale: real): map<string, Vec> {
    map key | key in t :: Scaled(t[key], scale)
  }

  method ScaleVec(v: Vec, scale: real) returns (r: Vec)
    ensures r == Scaled(v, scale)
  {
    r := v;
    for j := 0 to |v|
      invariant |r| == |v|
      invariant forall k :: 0 <= k < |v| ==> r[k] == if k < j then Scaled(v, scale)[k] else v[k]
    {
      r := r[j := r[j] * scale];
    }
  }

  method ScaleTable(t: map<string, Vec>, scale: real) returns (r: map<string, Vec>)
    ensures r == ScaledTable(t, scale)
  {
    hide Scaled;
    r := t;
    var todo := t.Keys;
    while todo != {}
      invariant todo <= t.Keys && r.Keys == t.Keys
      invariant forall key :: key in t ==> r[key] == if key in todo then t[key] else Scaled(t[key], scale)
    {
      var key :| key in todo;
      var v := ScaleVec(t[key], scale);
      r := r[key := v];
      todo := todo - {key};
    }
  }

  lemma ScaleIntoNorm(x: real, norm: real)
    requires norm > MAX_NORM && Abs(x) <= norm
    ensures Abs(x * (MAX_NORM / norm)) <= MAX_NORM
  {
    var s := MAX_NORM / norm;
    assert s > 0.0 && norm * s == MAX_NORM;
    RealTimes(x, norm, s);
    RealTimes(-x, norm, s);
  }

  lemma RealTimes(a: real, b: real, s: real)
    requires a <= b && s > 0.0
    ensures a * s <= b * s
  {
  }

  /** Scaling by the norm constraint brings a table whose components are within norm back to MAX_NORM. */
  lemma ScaledTableWithin(t: map<string, Vec>, norm: real)
    requires norm > MAX_NORM && TableWithin(t, norm)
    ensures TableWithin(ScaledTable(t, MAX_NORM / norm), MAX_NORM)
  {
    forall key | key in t
      ensures Within(Scaled(t[key], MAX_NORM / norm), MAX_NORM)
    {
      ScaledWithin(t[key], norm);
    }
  }

  lemma ScaledWithin(v: Vec, norm: real)
    requires norm > MAX_NORM && Within(v, norm)
    ensures Within(Scaled(v, MAX_NORM / norm), MAX_NORM)
  {
    forall k | 0 <= k < |v|
      ensures Abs(v[k] * (MAX_NORM / norm)) <= MAX_NORM
    {
      ScaleIntoNorm(v[k], norm);
    }
  }

  // ----- the combined user vector

  ghost function ColumnSum(users: seq<Vec>, k: nat, n: nat): real
    requires Shaped(users) && k < LATENT_VEC_DIM && n <= |users|
  {
    if n == 0 then 0.0 else ColumnSum(users, k, n - 1) + users[n - 1][k]
  }

  /** The mean of the users' k-th components; 1 when there is no user vector. */
  ghost function Mean(users: seq<Vec>, k: nat): real
    requires Shaped(users) && k < LATENT_VEC_DIM
  {
    if |users| == 0 then 1.0 else ColumnSum(users, k, |users|) / |users| as real
  }

  method CombineAt(users: seq<Vec>, k: nat) returns (r: real)
    requires Shaped(users) && k < LATENT_VEC_DIM
    ensures r == Mean(users, k)
  {
    r := 0.0;
    for i := 0 to |users|
      invariant r == ColumnSum(users, k, i)
    {
      r := r + users[i][k];
    }
    if |users| == 0 {
      r := 1.0;
    } else {
      r := r / |users| as real;
    }
  }

  ghost predicate TableShaped(t: map<string, Vec>) {
    forall key :: key in t ==> |t[key]| == LATENT_VEC_DIM
  }

  ghost function KeySum(t: map<string, Vec>, keys: seq<string>, k: nat, n: nat): real
    requires TableShaped(t) && k < LATENT_VEC_DIM && n <= |keys|
  {
    if n == 0 then 0.0
    else KeySum(t, keys, k, n - 1) + if keys[n - 1] in t then t[keys[n - 1]][k] else 0.0
  }

  /** The vector a user is scored with: unknown keys add nothing and still count in the mean. */
  ghost function UserVector(t: map<string, Vec>, keys: seq<string>): (r: Vec)
    requires TableShaped(t)
    ensures |r| == LATENT_VEC_DIM
  {
    seq(LATENT_VEC_DIM, k requires 0 <= k < LATENT_VEC_DIM =>
      if |keys| == 0 then 1.0 else KeySum(t, keys, k, |keys|) / |keys| as real)
  }

  method CombineUser(t: map<string, Vec>, keys: seq<string>) returns (r: Vec)
    requires TableShaped(t)
    ensures |r| == 10 && r == UserVector(t, keys)
  {
    r := seq(LATENT_VEC_DIM, _ => 0.0);
    for i := 0 to |keys|
      invariant |r| == LATENT_VEC_DIM
      invariant forall c :: 0 <= c < LATENT_VEC_DIM ==> r[c] == KeySum(t, keys, c, i)
    {
      if keys[i] !in t {
        continue;
      }
      for j := 0 to LATENT_VEC_DIM
        invariant |r| == LATENT_VEC_DIM
        invariant forall c :: 0 <= c < LATENT_VEC_DIM ==> r[c] == KeySum(t, keys, c, if c < j then i + 1 else i)
      {
        r := r[j := r[j] + t[keys[i]][j]];
      }
    }
    for j := 0 to LATENT_VEC_DIM
      invariant |r| == LATENT_VEC_DIM
      invariant forall c :: 0 <= c < LATENT_VEC_DIM ==> r[c] == if c < j then UserVector(t, keys)[c] else KeySum(t, keys, c, |keys|)
    {
      if |keys| == 0 {
        r := r[j := 1.0];
      } else {
        r := r[j := r[j] / |keys| as real];
      }
    }
  }

  lemma {:induction false} KeySumOfFront(t: map<string, Vec>, keys: seq<string>, key: string, k: nat, n: nat)
    requires TableShaped(t) && k < LATENT_VEC_DIM && n <= |keys|
    ensures KeySum(t, keys + [key], k, n) == KeySum(t, keys, k, n)
  {
    if n > 0 {
      KeySumOfFront(t, keys, key, k, n - 1);
    }
  }

  lemma TimesQuotient(a: real, n: real)
    requires n > 0.0
    ensures a / n * n == a
  {
  }

  /** What one key more does to the user vector: a known key's vector enters the mean, an unknown key dilutes it,
      and the first key replaces the ones a user without keys is scored with. */
  lemma OneKeyMore(t: map<string, Vec>, keys: seq<string>, key: string, k: nat)
    requires TableShaped(t) && k < LATENT_VEC_DIM
    ensures UserVector(t, [])[k] == 1.0
    ensures UserVector(t, keys + [key])[k] * (|keys| + 1) as real ==
      (if keys == [] then 0.0 else UserVector(t, keys)[k] * |keys| as real) + if key in t then t[key][k] else 0.0
  {
    KeySumOfFront(t, keys, key, k, |keys|);
    TimesQuotient(KeySum(t, keys + [key], k, |keys| + 1), (|keys| + 1) as real);
    if keys != [] {
      TimesQuotient(KeySum(t, keys, k, |keys|), |keys| as real);
    }
  }

  ghost function Gathered(t: map<string, Vec>, keys: seq<string>): (r: seq<Vec>)
    requires forall i :: 0 <= i < |keys| ==> keys[i] in t
    ensures |r| == |keys|
  {
    seq(|keys|, i requires 0 <= i < |keys| => t[keys[i]])
  }

  method Gather(t: map<string, Vec>, keys: seq<string>) returns (r: seq<Vec>)
    requires forall i :: 0 <= i < |keys| ==> keys[i] in t
    ensures r == Gathered(t, keys)
  {
    r := [];
    for i := 0 to |keys|
      invariant r == Gathered(t, keys)[..i]
    {
      r := r + [t[keys[i]]];
    }
  }

  /** The vector a user is scored with is the one training moves the ads along, when every key is known. */
  lemma ScoredAsTrained(t: map<string, Vec>, keys: seq<string>, k: nat)
    requires TableShaped(t) && k < LATENT_VEC_DIM && forall i :: 0 <= i < |keys| ==> keys[i] in t
    ensures Shaped(Gathered(t, keys)) && UserVector(t, keys)[k] == Mean(Gathered(t, keys), k)
  {
    KeySumIsColumnSum(t, keys, k, |keys|);
  }

  lemma {:induction false} KeySumIsColumnSum(t: map<string, Vec>, keys: seq<string>, k: nat, n: nat)
    requires TableShaped(t) && k < LATENT_VEC_DIM && n <= |keys| && forall i :: 0 <= i < |keys| ==> keys[i] in t
    ensures Shaped(Gathered(t, keys)) && KeySum(t, keys, k, n) == ColumnSum(Gathered(t, keys), k, n)
  {
    if n > 0 {
      KeySumIsColumnSum(t, keys, k, n - 1);
    }
  }

  // ----- the gradient step

  ghost function AdAfter(ad: Vec, users: seq<Vec>, gradient: real): (r: Vec)
    requires Shaped(users) && |ad| == LATENT_VEC_DIM
    ensures |r| == LATENT_VEC_DIM
  {
    seq(LATENT_VEC_DIM, k requires 0 <= k < LATENT_VEC_DIM => ad[k] + gradient * Mean(users, k))
  }

  ghost function UserAfter(user: Vec, ad: Vec, gradient: real): (r: Vec)
    requires |user| == LATENT_VEC_DIM && |ad| == LATENT_VEC_DIM
    ensures |r| == LATENT_VEC_DIM
  {
    seq(LATENT_VEC_DIM, k requires 0 <= k < LATENT_VEC_DIM => user[k] + gradient * ad[k])
  }

  ghost function UsersAfter(users: seq<Vec>, ad: Vec, gradient: real): (r: seq<Vec>)
    requires Shaped(users) && |ad| == LATENT_VEC_DIM
    ensures |r| == |users| && Shaped(r)
  {
    seq(|users|, j requires 0 <= j < |users| => UserAfter(users[j], ad, gradient))
  }

  /** The users after the first i ads took their steps; each ad sees what the earlier ones left. */
  ghost function UsersAt(ads: seq<Vec>, users: seq<Vec>, gradient: real, i: nat): (r: seq<Vec>)
    requires Shaped(ads) && Shaped(users) && i <= |ads|
    ensures |r| == |users| && Shaped(r)
    decreases i, 0
  {
    if i == 0 then
      users
    else
      UsersAfter(UsersAt(ads, users, gradient, i - 1), AdAt(ads, users, gradient, i - 1), gradient)
  }

  ghost function AdAt(ads: seq<Vec>, users: seq<Vec>, gradient: real, i: nat): (r: Vec)
    requires Shaped(ads) && Shaped(users) && i < |ads|
    ensures |r| == LATENT_VEC_DIM
    decreases i, 1
  {
    AdAfter(ads[i], UsersAt(ads, users, gradient, i), gradient)
  }

  ghost predicate AllWithin(vs: seq<Vec>, norm: real) {
    forall j :: 0 <= j < |vs| ==> Within(vs[j], norm)
  }

  /** The norm is the size of one of the components. */
  ghost predicate Attained(v: Vec, norm: real) {
    exists k :: 0 <= k < |v| && norm == Abs(v[k])
  }

  ghost predicate AttainedIn(vs: seq<Vec>, norm: real) {
    exists j :: 0 <= j < |vs| && Attained(vs[j], norm)
  }

  /** norm bounds every component the first i ads wrote, and is 0 or one of them. */
  ghost predicate NormOf(ads: seq<Vec>, users: seq<Vec>, gradient: real, i: nat, norm: real)
    requires Shaped(ads) && Shaped(users) && i <= |ads|
  {
    && norm >= 0.0
    && (forall a :: 0 <= a < i ==> Within(AdAt(ads, users, gradient, a), norm))
    && (forall a :: 1 <= a <= i ==> AllWithin(UsersAt(ads, users, gradient, a), norm))
    && (norm == 0.0
        || (exists a :: 0 <= a < i && Attained(AdAt(ads, users, gradient, a), norm))
        || (exists a :: 1 <= a <= i && AttainedIn(UsersAt(ads, users, gradient, a), norm)))
  }

  /** Every user's k-th component moves along the ad's. */
  method MoveUsers(users0: seq<Vec>, k: nat, step: real, norm0: real) returns (users: seq<Vec>, norm: real)
    requires Shaped(users0) && k < LATENT_VEC_DIM
    ensures |users| == |users0| && forall j :: 0 <= j < |users| ==> users[j] == users0[j][k := users0[j][k] + step]
    ensures norm >= norm0 && forall j :: 0 <= j < |users| ==> Abs(users[j][k]) <= norm
    ensures norm == norm0 || exists j :: 0 <= j < |users| && norm == Abs(users[j][k])
  {
    users, norm := users0, norm0;
    for j := 0 to |users0|
      invariant |users| == |users0|
      invariant forall i :: 0 <= i < j ==> users[i] == users0[i][k := users0[i][k] + step]
      invariant forall i :: j <= i < |users| ==> users[i] == users0[i]
      invariant norm >= norm0 && forall i :: 0 <= i < j ==> Abs(users[i][k]) <= norm
      invariant norm == norm0 || exists i :: 0 <= i < j && norm == Abs(users[i][k])
    {
      users := users[j := users[j][k := users[j][k] + step]];
      norm := MaxReal(norm, Abs(users[j][k]));
    }
  }

  /** The first k components have taken the step, the others not yet. */
  ghost predicate SteppedTo(v: Vec, before: Vec, after: Vec, k: nat) {
    && |v| == |before| == |after| == LATENT_VEC_DIM
    && forall c :: 0 <= c < LATENT_VEC_DIM ==> v[c] == if c < k then after[c] else before[c]
  }

  ghost predicate FirstWithin(v: Vec, k: nat, norm: real) {
    |v| == LATENT_VEC_DIM && forall c :: 0 <= c < k && c < LATENT_VEC_DIM ==> Abs(v[c]) <= norm
  }

  lemma UserStep(user: Vec, user0: Vec, ad: Vec, gradient: real, k: nat, step: real, norm: real, newNorm: real)
    requires |ad| == LATENT_VEC_DIM && k < LATENT_VEC_DIM && |user0| == |user| == LATENT_VEC_DIM
    requires SteppedTo(user, user0, UserAfter(user0, ad, gradient), k) && step == gradient * ad[k]
    requires FirstWithin(user, k, norm) && norm <= newNorm && Abs(user[k] + step) <= newNorm
    ensures SteppedTo(user[k := user[k] + step], user0, UserAfter(user0, ad, gradient), k + 1)
    ensures FirstWithin(user[k := user[k] + step], k + 1, newNorm)
  {
  }

  /** Every user has taken the first k components of its step. */
  ghost predicate UsersStepped(users: seq<Vec>, users0: seq<Vec>, ad: Vec, gradient: real, k: nat, norm: real)
    requires Shaped(users0) && |ad| == LATENT_VEC_DIM
  {
    && |users| == |users0| && Shaped(users)
    && (forall j :: 0 <= j < |users| ==> SteppedTo(users[j], users0[j], UserAfter(users0[j], ad, gradient), k))
    && (forall j :: 0 <= j < |users| ==> FirstWithin(users[j], k, norm))
  }

  /** Where the step over one ad stands after k components: the ad and every user have moved in those,
      and norm is the largest component written so far. */
  ghost predicate AdStepState(ad0: Vec, users0: seq<Vec>, gradient: real, norm0: real,
                              k: nat, ad: Vec, users: seq<Vec>, norm: real)
    requires Shaped(users0) && |ad0| == LATENT_VEC_DIM
  {
    var ad' := AdAfter(ad0, users0, gradient);
    && SteppedTo(ad, ad0, ad', k) && FirstWithin(ad, k, norm) && norm >= norm0
    && UsersStepped(users, users0, ad', gradient, k, norm)
    && (norm == norm0 || Attained(ad', norm) || AttainedIn(UsersAfter(users0, ad', gradient), norm))
  }

  /** The k-th component of the combined user is not touched before the ad reads it. */
  lemma MeanUnmoved(ad0: Vec, users0: seq<Vec>, gradient: real, norm0: real,
                    k: nat, ad: Vec, users: seq<Vec>, norm: real, combined: real)
    requires Shaped(users0) && |ad0| == LATENT_VEC_DIM && k < LATENT_VEC_DIM
    requires AdStepState(ad0, users0, gradient, norm0, k, ad, users, norm)
    requires Shaped(users) && combined == Mean(users, k)
    ensures |ad| == LATENT_VEC_DIM && ad[k] + gradient * combined == AdAfter(ad0, users0, gradient)[k]
  {
    hide Mean;
    SameColumn(users, users0, k, |users|);
  }

  /** MoveUsers wrote the k-th component of every user. */
  ghost predicate Moved(users: seq<Vec>, usersNext: seq<Vec>, k: nat, step: real, norm: real)
    requires Shaped(users) && k < LATENT_VEC_DIM
  {
    && |usersNext| == |users|
    && (forall j :: 0 <= j < |users| ==> usersNext[j] == users[j][k := users[j][k] + step])
    && (forall j :: 0 <= j < |users| ==> Abs(usersNext[j][k]) <= norm)
  }

  lemma UsersStep(users0: seq<Vec>, ad: Vec, gradient: real, k: nat, users: seq<Vec>, norm: real,
                  step: real, usersNext: seq<Vec>, newNorm: real)
    requires Shaped(users0) && |ad| == LATENT_VEC_DIM && k < LATENT_VEC_DIM && step == gradient * ad[k]
    requires UsersStepped(users, users0, ad, gradient, k, norm)
    requires norm <= newNorm && Moved(users, usersNext, k, step, newNorm)
    ensures UsersStepped(usersNext, users0, ad, gradient, k + 1, newNorm)
  {
    hide SteppedTo, FirstWithin, UserAfter;
    forall j | 0 <= j < |users|
      ensures SteppedTo(usersNext[j], users0[j], UserAfter(users0[j], ad, gradient), k + 1)
      ensures FirstWithin(usersNext[j], k + 1, newNorm)
    {
      UserStep(users[j], users0[j], ad, gradient, k, step, norm, newNorm);
    }
  }

  /** A component just written is final, so a norm it sets is attained afterwards. */
  lemma UserNormAttained(users0: seq<Vec>, ad: Vec, gradient: real, k: nat, users: seq<Vec>, norm: real)
    requires Shaped(users0) && |ad| == LATENT_VEC_DIM && k < LATENT_VEC_DIM
    requires UsersStepped(users, users0, ad, gradient, k + 1, norm)
    requires exists j :: 0 <= j < |users| && norm == Abs(users[j][k])
    ensures AttainedIn(UsersAfter(users0, ad, gradient), norm)
  {
    hide UserAfter, FirstWithin;
    var j :| 0 <= j < |users| && norm == Abs(users[j][k]);
    assert SteppedTo(users[j], users0[j], UserAfter(users0[j], ad, gradient), k + 1);
    assert Attained(UsersAfter(users0, ad, gradient)[j], norm);
  }

  lemma AdComponentStep(ad0: Vec, users0: seq<Vec>, gradient: real, norm0: real,
                        k: nat, ad: Vec, users: seq<Vec>, norm: real,
                        adNorm: real, step: real, usersNext: seq<Vec>, newNorm: real)
    requires Shaped(users0) && |ad0| == LATENT_VEC_DIM && k < LATENT_VEC_DIM
    requires step == gradient * AdAfter(ad0, users0, gradient)[k]
    requires AdStepState(ad0, users0, gradient, norm0, k, ad, users, norm)
    requires |ad| == LATENT_VEC_DIM && Shaped(users)
    requires adNorm == MaxReal(norm, Abs(AdAfter(ad0, users0, gradient)[k])) <= newNorm
    requires Moved(users, usersNext, k, step, newNorm)
    requires newNorm == adNorm || exists j :: 0 <= j < |users| && newNorm == Abs(usersNext[j][k])
    ensures AdStepState(ad0, users0, gradient, norm0, k + 1, ad[k := AdAfter(ad0, users0, gradient)[k]], usersNext, newNorm)
  {
    hide Attained, AttainedIn, UserAfter, AdAfter, UsersAfter, UsersStepped, Moved;
    var ad' := AdAfter(ad0, users0, gradient);
    UsersStep(users0, ad', gradient, k, users, norm, step, usersNext, newNorm);
    if newNorm != adNorm {
      NextShaped(users, usersNext, k, step, newNorm);
      UserNormAttained(users0, ad', gradient, k, usersNext, newNorm);
    } else if adNorm != norm {
      ComponentAttained(ad', k);
    }
  }

  lemma NextShaped(users: seq<Vec>, usersNext: seq<Vec>, k: nat, step: real, norm: real)
    requires Shaped(users) && k < LATENT_VEC_DIM && Moved(users, usersNext, k, step, norm)
    ensures |usersNext| == |users| && Shaped(usersNext)
  {
  }

  lemma ComponentAttained(v: Vec, k: nat)
    requires k < |v|
    ensures Attained(v, Abs(v[k]))
  {
  }

  /** One ad's step, component by component: the ad moves along the combined user, then every user
      along the moved ad; the largest component seen is remembered. */
  method AdStep(ad0: Vec, users0: seq<Vec>, gradient: real, norm0: real)
    returns (ad: Vec, users: seq<Vec>, norm: real)
    requires Shaped(users0) && |ad0| == LATENT_VEC_DIM
    ensures ad == AdAfter(ad0, users0, gradient) && users == UsersAfter(users0, ad, gradient)
    ensures norm >= norm0 && Within(ad, norm) && AllWithin(users, norm)
    ensures norm == norm0 || Attained(ad, norm) || AttainedIn(users, norm)
  {
    hide AdStepState, AdAfter, UsersAfter, Attained, AttainedIn, Within, AllWithin, Mean, Abs;
    ad, users, norm := ad0, users0, norm0;
    AdStepStart(ad0, users0, gradient, norm0);
    for k := 0 to LATENT_VEC_DIM
      invariant Shaped(users) && AdStepState(ad0, users0, gradient, norm0, k, ad, users, norm)
    {
      var combined := CombineAt(users, k);
      MeanUnmoved(ad0, users0, gradient, norm0, k, ad, users, norm, combined);
      ghost var ad1, users1, norm1 := ad, users, norm;
      ad := ad[k := ad[k] + gradient * combined];
      norm := MaxReal(norm, Abs(ad[k]));
      ghost var adNorm := norm;
      var step := gradient * ad[k];
      users, norm := MoveUsers(users, k, step, norm);
      AdComponentStep(ad0, users0, gradient, norm0, k, ad1, users1, norm1, adNorm, step, users, norm);
    }
    AdStepEnd(ad0, users0, gradient, norm0, ad, users, norm);
  }

  lemma AdStepStart(ad0: Vec, users0: seq<Vec>, gradient: real, norm0: real)
    requires Shaped(users0) && |ad0| == LATENT_VEC_DIM
    ensures AdStepState(ad0, users0, gradient, norm0, 0, ad0, users0, norm0)
  {
    hide Attained, AttainedIn, UserAfter, AdAfter;
  }

  lemma AdStepEnd(ad0: Vec, users0: seq<Vec>, gradient: real, norm0: real, ad: Vec, users: seq<Vec>, norm: real)
    requires Shaped(users0) && |ad0| == LATENT_VEC_DIM
    requires AdStepState(ad0, users0, gradient, norm0, LATENT_VEC_DIM, ad, users, norm)
    ensures ad == AdAfter(ad0, users0, gradient) && users == UsersAfter(users0, ad, gradient)
    ensures norm >= norm0 && Within(ad, norm) && AllWithin(users, norm)
    ensures norm == norm0 || Attained(ad, norm) || AttainedIn(users, norm)
  {
    hide Attained, AttainedIn, UserAfter, AdAfter;
    assert ad == AdAfter(ad0, users0, gradient);
    forall j | 0 <= j < |users|
      ensures users[j] == UsersAfter(users0, ad, gradient)[j]
    {
      assert SteppedTo(users[j], users0[j], UsersAfter(users0, ad, gradient)[j], LATENT_VEC_DIM);
    }
  }

  lemma {:induction false} SameColumn(a: seq<Vec>, b: seq<Vec>, k: nat, n: nat)
    requires Shaped(a) && Shaped(b) && |a| == |b| && n <= |a| && k < LATENT_VEC_DIM
    requires forall j :: 0 <= j < |a| ==> a[j][k] == b[j][k]
    ensures ColumnSum(a, k, n) == ColumnSum(b, k, n)
    ensures n == |a| ==> Mean(a, k) == Mean(b, k)
  {
    if n > 0 {
      SameColumn(a, b, k, n - 1);
    }
  }

  method Descend(ads0: seq<Vec>, users0: seq<Vec>, gradient: real) returns (ads: seq<Vec>, users: seq<Vec>, norm: real)
    requires Shaped(ads0) && Shaped(users0)
    ensures |ads| == |ads0| && forall i :: 0 <= i < |ads0| ==> ads[i] == AdAt(ads0, users0, gradient, i)
    ensures users == UsersAt(ads0, users0, gradient, |ads0|)
    ensures NormOf(ads0, users0, gradient, |ads0|, norm)
  {
    ads, users, norm := ads0, users0, 0.0;
    for i := 0 to |ads0|
      invariant |ads| == |ads0| && forall a :: 0 <= a < |ads0| ==> ads[a] == if a < i then AdAt(ads0, users0, gradient, a) else ads0[a]
      invariant users == UsersAt(ads0, users0, gradient, i)
      invariant NormOf(ads0, users0, gradient, i, norm)
    {
      var ad;
      ghost var norm0 := norm;
      ad, users, norm := AdStep(ads[i], users, gradient, norm);
      ads := ads[i := ad];
      NormGrows(ads0, users0, gradient, i, norm0, norm);
    }
  }

  lemma WithinMore(v: Vec, a: real, b: real)
    requires Within(v, a) && a <= b
    ensures Within(v, b)
  {
  }

  lemma AllWithinMore(vs: seq<Vec>, a: real, b: real)
    requires AllWithin(vs, a) && a <= b
    ensures AllWithin(vs, b)
  {
    forall j | 0 <= j < |vs|
      ensures Within(vs[j], b)
    {
      WithinMore(vs[j], a, b);
    }
  }

  lemma NormGrows(ads: seq<Vec>, users: seq<Vec>, gradient: real, i: nat, norm0: real, norm: real)
    requires Shaped(ads) && Shaped(users) && i < |ads| && NormOf(ads, users, gradient, i, norm0) && norm >= norm0
    requires Within(AdAt(ads, users, gradient, i), norm) && AllWithin(UsersAt(ads, users, gradient, i + 1), norm)
    requires norm == norm0 || Attained(AdAt(ads, users, gradient, i), norm) || AttainedIn(UsersAt(ads, users, gradient, i + 1), norm)
    ensures NormOf(ads, users, gradient, i + 1, norm)
  {
    hide AdAt, UsersAt, Within, AllWithin, Attained, AttainedIn;
    forall a | 0 <= a < i
      ensures Within(AdAt(ads, users, gradient, a), norm)
    {
      WithinMore(AdAt(ads, users, gradient, a), norm0, norm);
    }
    forall a | 1 <= a <= i
      ensures AllWithin(UsersAt(ads, users, gradient, a), norm)
    {
      AllWithinMore(UsersAt(ads, users, gradient, a), norm0, norm);
    }
  }

  // ----- writing the vectors back

  /** A key named twice keeps the vector written last. */
  ghost function WrittenBack(t: map<string, Vec>, keys: seq<string>, vs: seq<Vec>): map<string, Vec>
    requires |keys| == |vs|
  {
    if keys == [] then t
    else WrittenBack(t, keys[..|keys| - 1], vs[..|vs| - 1])[keys[|keys| - 1] := vs[|vs| - 1]]
  }

  method WriteBack(t: map<string, Vec>, keys: seq<string>, vs: seq<Vec>) returns (r: map<string, Vec>)
    requires |keys| == |vs|
    ensures r == WrittenBack(t, keys, vs)
  {
    r := t;
    for i := 0 to |keys|
      invariant r == WrittenBack(t, keys[..i], vs[..i])
    {
      assert keys[..i + 1][..i] == keys[..i] && vs[..i + 1][..i] == vs[..i];
      r := r[keys[i] := vs[i]];
    }
    assert keys[..|keys|] == keys && vs[..|vs|] == vs;
  }

  lemma {:induction false} WrittenBackKeys(t: map<string, Vec>, keys: seq<string>, vs: seq<Vec>)
    requires |keys| == |vs| && forall i :: 0 <= i < |keys| ==> keys[i] in t
    ensures WrittenBack(t, keys, vs).Keys == t.Keys
    ensures forall key :: key in t && key !in keys ==> WrittenBack(t, keys, vs)[key] == t[key]
  {
    if keys != [] {
      WrittenBackKeys(t, keys[..|keys| - 1], vs[..|vs| - 1]);
    }
  }

  /** A key named twice keeps the vector written last. */
  lemma {:induction false} LastIsWritten(t: map<string, Vec>, keys: seq<string>, vs: seq<Vec>, i: nat)
    requires |keys| == |vs| && i < |keys| && keys[i] !in keys[i + 1..]
    ensures keys[i] in WrittenBack(t, keys, vs) && WrittenBack(t, keys, vs)[keys[i]] == vs[i]
  {
    var n := |keys| - 1;
    if i < n {
      assert keys[i + 1..][n - i - 1] == keys[n];
      assert keys[i + 1..][..n - i - 1] == keys[..n][i + 1..];
      LastIsWritten(t, keys[..n], vs[..n], i);
    }
  }

  lemma {:induction false} WrittenBackWithin(t: map<string, Vec>, keys: seq<string>, vs: seq<Vec>, norm: real)
    requires |keys| == |vs| && TableWithin(t, norm) && forall i :: 0 <= i < |vs| ==> Within(vs[i], norm)
    ensures TableWithin(WrittenBack(t, keys, vs), norm)
  {
    if keys != [] {
      WrittenBackWithin(t, keys[..|keys| - 1], vs[..|vs| - 1], norm);
    }
  }

  /** The table after a step: written back, and scaled down if the step's norm is too large. */
  ghost function Constrained(t: map<string, Vec>, keys: seq<string>, vs: seq<Vec>, norm: real): map<string, Vec>
    requires |keys| == |vs|
  {
    var written := WrittenBack(t, keys, vs);
    if norm > MAX_NORM then ScaledTable(written, MAX_NORM / norm) else written
  }

  /** A step too long for the norm scales every vector alike, so that none changes its direction; another one is
      written back as it is. */
  lemma ConstraintKeepsDirections(t: map<string, Vec>, keys: seq<string>, vs: seq<Vec>, norm: real, key: string, k: nat)
    requires |keys| == |vs| && key in WrittenBack(t, keys, vs) && k < |WrittenBack(t, keys, vs)[key]|
    ensures var v, w := Constrained(t, keys, vs, norm), WrittenBack(t, keys, vs);
      && v.Keys == w.Keys && |v[key]| == |w[key]|
      && if norm > 100.0 then v[key][k] * norm == w[key][k] * 100.0 else v[key] == w[key]
  {
    if norm > 100.0 {
      hide WrittenBack;
      var x := WrittenBack(t, keys, vs)[key][k];
      assert Constrained(t, keys, vs, norm)[key][k] == x * (MAX_NORM / norm);
      assert x * (MAX_NORM / norm) * norm == x * (MAX_NORM / norm * norm);
      TimesQuotient(MAX_NORM, norm);
    }
  }

  /** The norm constraint: components the step wrote are within its norm, the others within MAX_NORM;
      afterwards all of them, written or not, are within MAX_NORM. */
  lemma ConstrainedWithin(t: map<string, Vec>, keys: seq<string>, vs: seq<Vec>, norm: real)
    requires |keys| == |vs| && TableWithin(t, MAX_NORM)
    requires forall i :: 0 <= i < |vs| ==> Within(vs[i], norm) || Within(vs[i], MAX_NORM)
    ensures TableWithin(Constrained(t, keys, vs, norm), MAX_NORM)
  {
    var top := MaxReal(norm, MAX_NORM);
    forall i | 0 <= i < |vs|
      ensures Within(vs[i], top)
    {
      WithinMore(vs[i], if Within(vs[i], norm) then norm else MAX_NORM, top);
    }
    forall key | key in t
      ensures Within(t[key], top)
    {
      WithinMore(t[key], MAX_NORM, top);
    }
    WrittenBackWithin(t, keys, vs, top);
    if norm > MAX_NORM {
      ScaledTableWithin(WrittenBack(t, keys, vs), norm);
    }
  }

  /** Writing back and scaling keep the keys of the table. */
  lemma ConstrainedKeys(t: map<string, Vec>, keys: seq<string>, vs: seq<Vec>, norm: real)
    requires |keys| == |vs| && forall i :: 0 <= i < |keys| ==> keys[i] in t
    ensures Constrained(t, keys, vs, norm).Keys == t.Keys
  {
    WrittenBackKeys(t, keys, vs);
  }

  method Constrain(t: map<string, Vec>, keys: seq<string>, vs: seq<Vec>, norm: real) returns (r: map<string, Vec>)
    requires |keys| == |vs|
    ensures r == Constrained(t, keys, vs, norm)
  {
    r := WriteBack(t, keys, vs);
    if norm > MAX_NORM {
      r := ScaleTable(r, MAX_NORM / norm);
    }
  }

  /** All the ads after their steps. */
  ghost function AdsAfter(ads: seq<Vec>, users: seq<Vec>, gradient: real): (r: seq<Vec>)
    requires Shaped(ads) && Shaped(users)
    ensures |r| == |ads|
  {
    seq(|ads|, i requires 0 <= i < |ads| => AdAt(ads, users, gradient, i))
  }

  /** One training step over both tables keeps every component of every vector within MAX_NORM,
      the vectors the step did not name included. */
  lemma StepStaysWithin(userTable: map<string, Vec>, userKeys: seq<string>, adTable: map<string, Vec>,
                        adKeys: seq<string>, gradient: real, norm: real)
    requires TableWithin(userTable, MAX_NORM) && TableWithin(adTable, MAX_NORM)
    requires forall i :: 0 <= i < |userKeys| ==> userKeys[i] in userTable
    requires forall i :: 0 <= i < |adKeys| ==> adKeys[i] in adTable
    requires Shaped(Gathered(userTable, userKeys)) && Shaped(Gathered(adTable, adKeys))
    requires NormOf(Gathered(adTable, adKeys), Gathered(userTable, userKeys), gradient, |adKeys|, norm)
    ensures TableWithin(Constrained(userTable, userKeys,
              UsersAt(Gathered(adTable, adKeys), Gathered(userTable, userKeys), gradient, |adKeys|), norm), MAX_NORM)
    ensures TableWithin(Constrained(adTable, adKeys,
              AdsAfter(Gathered(adTable, adKeys), Gathered(userTable, userKeys), gradient), norm), MAX_NORM)
  {
    hide Constrained, AdAt, UsersAt, Within, TableWithin;
    var ads, users := Gathered(adTable, adKeys), Gathered(userTable, userKeys);
    assert forall i :: 0 <= i < |users| ==> Within(users[i], MAX_NORM) by {
      GatheredWithin(userTable, userKeys, MAX_NORM);
    }
    var usersAfter := UsersAt(ads, users, gradient, |adKeys|);
    if |adKeys| == 0 {
      NoAdsNoStep(ads, users, gradient);
    } else {
      assert AllWithin(UsersAt(ads, users, gradient, |adKeys|), norm);
    }
    ConstrainedWithin(userTable, userKeys, usersAfter, norm);
    ConstrainedWithin(adTable, adKeys, AdsAfter(ads, users, gradient), norm);
  }

  lemma NoAdsNoStep(ads: seq<Vec>, users: seq<Vec>, gradient: real)
    requires Shaped(ads) && Shaped(users)
    ensures UsersAt(ads, users, gradient, 0) == users
  {
  }

  lemma GatheredWithin(t: map<string, Vec>, keys: seq<string>, norm: real)
    requires TableWithin(t, norm) && forall i :: 0 <= i < |keys| ==> keys[i] in t
    ensures forall i :: 0 <= i < |keys| ==> Within(Gathered(t, keys)[i], norm)
    ensures Shaped(Gathered(t, keys))
  {
  }
}
