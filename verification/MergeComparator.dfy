/** Ranking two documents of different workers: compare their sort columns in turn, then their ids. */
module MergeComparator {
  import opened Orders
  import Strings

  datatype SortValue = Int32(n: int) | Int64(m: int) | Float(x: real) | Text(t: string)

  /** A worker's values for one sort property, one per document; reverse asks for ascending order. */
  datatype Column = Column(reverse: bool, values: seq<SortValue>)

  datatype WDocId = WDocId(worker: nat, doc: nat)

  predicate SameType(a: SortValue, b: SortValue) {
    (a.Int32? <==> b.Int32?) && (a.Int64? <==> b.Int64?) && (a.Float? <==> b.Float?) && (a.Text? <==> b.Text?)
  }

  predicate ValueLess(a: SortValue, b: SortValue)
    requires SameType(a, b)
  {
    match a
    case Int32(n) => n < b.n
    case Int64(m) => m < b.m
    case Float(x) => x < b.x
    case Text(t) => Strings.Less(t, b.t)
  }

  /** std::numeric_limits<float>::epsilon(). */
  const EPSILON: real := 1.0 / 8388608.0

  /** The comparison goes on to the next column: equal values, or floats that are close. */
  predicate Tied(a: SortValue, b: SortValue)
    requires SameType(a, b)
  {
    match a
    case Float(x) => -EPSILON <= x - b.x <= EPSILON
    case _ => a == b
  }

  /** One document of one worker, as the comparison sees it. */
  datatype Entry = Entry(columns: seq<Column>, index: nat, id: WDocId)

  ghost predicate Wellformed(e: Entry) {
    forall c :: 0 <= c < |e.columns| ==> e.index < |e.columns[c].values|
  }

  function SortValueAt(e: Entry, c: nat): SortValue
    requires c < |e.columns| && e.index < |e.columns[c].values|
  {
    e.columns[c].values[e.index]
  }

  /** Does a rank before b, looking at the columns from the i-th on? */
  ghost predicate RanksBeforeFrom(a: Entry, b: Entry, newer: (WDocId, WDocId) -> bool, i: nat)
    requires Wellformed(a) && Wellformed(b)
    decreases |a.columns| - i
  {
    if i >= |a.columns| || i >= |b.columns| then
      newer(a.id, b.id)
    else if !SameType(SortValueAt(a, i), SortValueAt(b, i)) || Tied(SortValueAt(a, i), SortValueAt(b, i)) then
      RanksBeforeFrom(a, b, newer, i + 1)
    else if a.columns[i].reverse then
      ValueLess(SortValueAt(a, i), SortValueAt(b, i))
    else
      ValueLess(SortValueAt(b, i), SortValueAt(a, i))
  }

  ghost predicate RanksBefore(a: Entry, b: Entry, newer: (WDocId, WDocId) -> bool)
    requires Wellformed(a) && Wellformed(b)
  {
    RanksBeforeFrom(a, b, newer, 0)
  }

  method GreaterThan(a: Entry, b: Entry, newer: (WDocId, WDocId) -> bool) returns (r: bool)
    requires Wellformed(a) && Wellformed(b)
    ensures r <==> RanksBefore(a, b, newer)
  {
    var i := 0;
    while i < |a.columns|
      invariant i <= |a.columns|
      invariant RanksBefore(a, b, newer) <==> RanksBeforeFrom(a, b, newer, i)
    {
      if i >= |b.columns| {
        break;
      }
      var v1, v2 := SortValueAt(a, i), SortValueAt(b, i);
      if SameType(v1, v2) && !Tied(v1, v2) {
        return if a.columns[i].reverse then ValueLess(v1, v2) else ValueLess(v2, v1);
      }
      i := i + 1;
    }
    return newer(a.id, b.id);
  }

  // ----- what decides

  /** Values of one type that differ - floats by more than 2 to the -23 - and the first is the greater one. */
  ghost predicate ClearlyGreater(a: SortValue, b: SortValue) {
    || (a.Int32? && b.Int32? && a.n > b.n)
    || (a.Int64? && b.Int64? && a.m > b.m)
    || (a.Float? && b.Float? && (a.x - b.x) * 8388608.0 > 1.0)
    || (a.Text? && b.Text? && Strings.Less(b.t, a.t))
  }

  ghost predicate Undecided(a: Entry, b: Entry, i: nat)
    requires Wellformed(a) && Wellformed(b)
  {
    i < |a.columns| && i < |b.columns| ==>
      !ClearlyGreater(SortValueAt(a, i), SortValueAt(b, i)) && !ClearlyGreater(SortValueAt(b, i), SortValueAt(a, i))
  }

  lemma TiedIsUndecided(a: SortValue, b: SortValue)
    ensures SameType(a, b) && !Tied(a, b) && ValueLess(b, a) <==> ClearlyGreater(a, b)
    ensures !SameType(a, b) || Tied(a, b) <==> !ClearlyGreater(a, b) && !ClearlyGreater(b, a)
  {
    if a.Text? && b.Text? {
      Strings.LessTotal(a.t, b.t);
      Strings.LessIrreflexive(a.t);
      if Strings.Less(a.t, b.t) {
        Strings.LessAsymmetric(a.t, b.t);
      }
    }
  }

  /** The first column in which one value is clearly greater decides: the greater one ranks first, or the smaller
      one when the first document's worker asks for ascending order. */
  lemma FirstDecidedColumnDecides(a: Entry, b: Entry, newer: (WDocId, WDocId) -> bool, i: nat)
    requires Wellformed(a) && Wellformed(b) && i < |a.columns| && i < |b.columns| && !Undecided(a, b, i)
    requires forall c: nat :: c < i ==> Undecided(a, b, c)
    ensures RanksBefore(a, b, newer) <==>
      if a.columns[i].reverse then ClearlyGreater(SortValueAt(b, i), SortValueAt(a, i))
      else ClearlyGreater(SortValueAt(a, i), SortValueAt(b, i))
  {
    PassesOver(a, b, newer, i, 0);
    TiedIsUndecided(SortValueAt(a, i), SortValueAt(b, i));
    TiedIsUndecided(SortValueAt(b, i), SortValueAt(a, i));
  }

  lemma {:induction false} PassesOver(a: Entry, b: Entry, newer: (WDocId, WDocId) -> bool, i: nat, c: nat)
    requires Wellformed(a) && Wellformed(b) && c <= i <= |a.columns| && i <= |b.columns|
    requires forall c: nat :: c < i ==> Undecided(a, b, c)
    ensures RanksBeforeFrom(a, b, newer, c) == RanksBeforeFrom(a, b, newer, i)
    decreases i - c
  {
    if c < i {
      PassesOver(a, b, newer, i, c + 1);
      assert Undecided(a, b, c);
      TiedIsUndecided(SortValueAt(a, c), SortValueAt(b, c));
    }
  }

  /** When no shared column decides, the newer id ranks first. */
  lemma UndecidedRanksByAge(a: Entry, b: Entry, newer: (WDocId, WDocId) -> bool)
    requires Wellformed(a) && Wellformed(b) && forall c: nat :: Undecided(a, b, c)
    ensures RanksBefore(a, b, newer) <==> newer(a.id, b.id)
  {
    PassesOver(a, b, newer, if |a.columns| <= |b.columns| then |a.columns| else |b.columns|, 0);
  }

  // ----- when the columns agree, this is a strict total order

  /** Both documents are ranked by the same properties: same number, direction and type of columns. */
  ghost predicate SameSchema(a: Entry, b: Entry) {
    && Wellformed(a) && Wellformed(b) && |a.columns| == |b.columns|
    && forall c :: 0 <= c < |a.columns| ==>
         a.columns[c].reverse == b.columns[c].reverse && SameType(SortValueAt(a, c), SortValueAt(b, c))
  }

  /** Floats that are close are equal. */
  ghost predicate Separated(a: Entry, b: Entry)
    requires Wellformed(a) && Wellformed(b)
  {
    forall c :: 0 <= c < |a.columns| && c < |b.columns| && SameType(SortValueAt(a, c), SortValueAt(b, c)) && Tied(SortValueAt(a, c), SortValueAt(b, c)) ==>
      SortValueAt(a, c) == SortValueAt(b, c)
  }

  lemma ValueOrder(a: SortValue, b: SortValue, c: SortValue)
    requires SameType(a, b) && SameType(b, c)
    ensures a == b || ValueLess(a, b) || ValueLess(b, a)
    ensures ValueLess(a, b) ==> a != b && !ValueLess(b, a)
    ensures ValueLess(a, b) && ValueLess(b, c) ==> ValueLess(a, c)
  {
    if a.Text? {
      Strings.LessTotal(a.t, b.t);
      Strings.LessIrreflexive(a.t);
      if ValueLess(a, b) {
        Strings.LessAsymmetric(a.t, b.t);
        if ValueLess(b, c) {
          Strings.LessTransitive(a.t, b.t, c.t);
        }
      }
    }
  }

  lemma {:induction false} OrderFrom(a: Entry, b: Entry, c: Entry, newer: (WDocId, WDocId) -> bool, i: nat)
    requires StrictTotal(newer) && SameSchema(a, b) && SameSchema(b, c) && SameSchema(a, c) && i <= |a.columns|
    requires Separated(a, b) && Separated(b, c) && Separated(a, c)
    ensures RanksBeforeFrom(a, b, newer, i) ==> !RanksBeforeFrom(b, a, newer, i)
    ensures a.id != b.id ==> RanksBeforeFrom(a, b, newer, i) || RanksBeforeFrom(b, a, newer, i)
    ensures RanksBeforeFrom(a, b, newer, i) && RanksBeforeFrom(b, c, newer, i) ==> RanksBeforeFrom(a, c, newer, i)
    decreases |a.columns| - i
  {
    if i < |a.columns| {
      OrderFrom(a, b, c, newer, i + 1);
      ValueOrder(SortValueAt(a, i), SortValueAt(b, i), SortValueAt(c, i));
      ValueOrder(SortValueAt(b, i), SortValueAt(c, i), SortValueAt(a, i));
      ValueOrder(SortValueAt(c, i), SortValueAt(b, i), SortValueAt(a, i));
    }
  }

  /** Ranked by the same properties, documents with distinct ids and separated floats are in strict total order. */
  lemma RankingIsAnOrder(a: Entry, b: Entry, c: Entry, newer: (WDocId, WDocId) -> bool)
    requires StrictTotal(newer) && SameSchema(a, b) && SameSchema(b, c) && SameSchema(a, c)
    requires Separated(a, b) && Separated(b, c) && Separated(a, c)
    ensures RanksBefore(a, b, newer) ==> !RanksBefore(b, a, newer)
    ensures a.id != b.id ==> RanksBefore(a, b, newer) || RanksBefore(b, a, newer)
    ensures RanksBefore(a, b, newer) && RanksBefore(b, c, newer) ==> RanksBefore(a, c, newer)
  {
    OrderFrom(a, b, c, newer, 0);
  }

  /** The smallest case: one worker has no data for the only sort property, and three documents rank in
      a circle. */
  lemma MissingColumnBreaksTheOrder(newer: (WDocId, WDocId) -> bool)
    requires StrictTotal(newer)
    ensures exists a: Entry, b: Entry, c: Entry ::
      && Wellformed(a) && Wellformed(b) && Wellformed(c) && a.id != b.id && b.id != c.id && a.id != c.id
      && RanksBefore(a, b, newer) && RanksBefore(b, c, newer) && RanksBefore(c, a, newer)
  {
    var first, second, third := NewestFirst(newer);
    var a := Entry([Column(false, [Int32(0)])], 0, first);
    var b := Entry([], 0, second);
    var c := Entry([Column(false, [Int32(1)])], 0, third);
    assert RanksBeforeFrom(c, a, newer, 0);
    assert RanksBefore(a, b, newer) && RanksBefore(b, c, newer) && RanksBefore(c, a, newer);
  }

  // ----- exactly when it is an order

  datatype Kind = KInt32 | KInt64 | KFloat | KText

  /** What a worker is asked to sort by: direction and type of each column. */
  datatype SortKey = SortKey(reverse: bool, kind: Kind)

  function KindOf(v: SortValue): Kind {
    match v
    case Int32(_) => KInt32
    case Int64(_) => KInt64
    case Float(_) => KFloat
    case Text(_) => KText
  }

  ghost predicate HasSchema(e: Entry, schema: seq<SortKey>) {
    && Wellformed(e) && |e.columns| == |schema|
    && forall c :: 0 <= c < |schema| ==> e.columns[c].reverse == schema[c].reverse && KindOf(SortValueAt(e, c)) == schema[c].kind
  }

  /** Three documents with distinct ids rank one way, some way, and not in a circle. */
  ghost predicate Consistent(a: Entry, b: Entry, c: Entry, newer: (WDocId, WDocId) -> bool)
    requires Wellformed(a) && Wellformed(b) && Wellformed(c)
  {
    && (RanksBefore(a, b, newer) <==> !RanksBefore(b, a, newer))
    && (RanksBefore(a, b, newer) && RanksBefore(b, c, newer) ==> RanksBefore(a, c, newer))
  }

  /** Documents of one of the two schemas, with distinct ids. */
  ghost predicate Comparable(a: Entry, b: Entry, c: Entry, s: seq<SortKey>, t: seq<SortKey>) {
    && (HasSchema(a, s) || HasSchema(a, t)) && (HasSchema(b, s) || HasSchema(b, t)) && (HasSchema(c, s) || HasSchema(c, t))
    && a.id != b.id && b.id != c.id && a.id != c.id
  }

  ghost predicate AllSeparated(a: Entry, b: Entry, c: Entry)
    requires Wellformed(a) && Wellformed(b) && Wellformed(c)
  {
    Separated(a, b) && Separated(b, a) && Separated(b, c) && Separated(a, c)
  }

  /** Ranking documents of two workers never goes wrong. */
  ghost predicate AlwaysConsistent(s: seq<SortKey>, t: seq<SortKey>, newer: (WDocId, WDocId) -> bool) {
    forall a, b, c :: Comparable(a, b, c, s, t) ==> Consistent(a, b, c, newer)
  }

  /** It does not go wrong as long as no floats are so close that they tie. */
  ghost predicate ConsistentWhenSeparated(s: seq<SortKey>, t: seq<SortKey>, newer: (WDocId, WDocId) -> bool) {
    forall a, b, c :: Comparable(a, b, c, s, t) && AllSeparated(a, b, c) ==> Consistent(a, b, c, newer)
  }

  function Plain(kind: Kind): SortValue {
    match kind
    case KInt32 => Int32(0)
    case KInt64 => Int64(0)
    case KFloat => Float(0.0)
    case KText => Text("")
  }

  function Raised(kind: Kind): SortValue {
    match kind
    case KInt32 => Int32(1)
    case KInt64 => Int64(1)
    case KFloat => Float(1.0)
    case KText => Text("a")
  }

  /** A document with plain values, save for its i-th column. */
  function Sample(schema: seq<SortKey>, i: nat, v: SortValue, id: WDocId): Entry {
    Entry(seq(|schema|, c requires 0 <= c < |schema| =>
            Column(schema[c].reverse, [if c == i then v else Plain(schema[c].kind)])), 0, id)
  }

  lemma SampleFits(schema: seq<SortKey>, i: nat, v: SortValue, id: WDocId)
    requires i < |schema| ==> KindOf(v) == schema[i].kind
    ensures HasSchema(Sample(schema, i, v, id), schema)
    ensures forall c :: 0 <= c < |schema| ==> SortValueAt(Sample(schema, i, v, id), c) == if c == i then v else Plain(schema[c].kind)
  {
  }

  /** From column i on every pair of values is passed over: the ids decide. */
  lemma {:induction false} PassedOver(a: Entry, b: Entry, newer: (WDocId, WDocId) -> bool, i: nat)
    requires Wellformed(a) && Wellformed(b)
    requires forall c :: i <= c < |a.columns| && c < |b.columns| ==>
      !SameType(SortValueAt(a, c), SortValueAt(b, c)) || Tied(SortValueAt(a, c), SortValueAt(b, c))
    ensures RanksBeforeFrom(a, b, newer, i) == newer(a.id, b.id)
    decreases |a.columns| - i
  {
    if i < |a.columns| && i < |b.columns| {
      PassedOver(a, b, newer, i + 1);
    }
  }

  /** Column i is the first that is not passed over: its values decide. */
  lemma {:induction false} DecidedAt(a: Entry, b: Entry, newer: (WDocId, WDocId) -> bool, i: nat, from: nat)
    requires Wellformed(a) && Wellformed(b) && from <= i < |a.columns| && i < |b.columns|
    requires SameType(SortValueAt(a, i), SortValueAt(b, i)) && !Tied(SortValueAt(a, i), SortValueAt(b, i))
    requires forall c :: from <= c < i ==> !SameType(SortValueAt(a, c), SortValueAt(b, c)) || Tied(SortValueAt(a, c), SortValueAt(b, c))
    ensures RanksBeforeFrom(a, b, newer, from) <==>
      if a.columns[i].reverse then ValueLess(SortValueAt(a, i), SortValueAt(b, i)) else ValueLess(SortValueAt(b, i), SortValueAt(a, i))
    decreases i - from
  {
    if from < i {
      DecidedAt(a, b, newer, i, from + 1);
    }
  }

  lemma PlainIsLess(kind: Kind)
    ensures SameType(Plain(kind), Raised(kind)) && ValueLess(Plain(kind), Raised(kind)) && !ValueLess(Raised(kind), Plain(kind))
    ensures !Tied(Plain(kind), Raised(kind)) && !Tied(Raised(kind), Plain(kind))
    ensures KindOf(Plain(kind)) == KindOf(Raised(kind)) == kind
  {
    assert Strings.Less("", "a") && !Strings.Less("a", "");
  }

  /** Three ids, newest first. */
  lemma NewestFirst(newer: (WDocId, WDocId) -> bool) returns (x: WDocId, y: WDocId, z: WDocId)
    requires StrictTotal(newer)
    ensures newer(x, y) && newer(y, z) && newer(x, z) && x != y && y != z && x != z
  {
    var a, b, c := WDocId(0, 0), WDocId(0, 1), WDocId(0, 2);
    var (p, q) := if newer(a, b) then (a, b) else (b, a);
    if newer(q, c) {
      x, y, z := p, q, c;
    } else if newer(p, c) {
      x, y, z := p, c, q;
    } else {
      x, y, z := c, p, q;
    }
  }

  /** Against a plain document without column i, or with another type there, only the ids count. */
  lemma OnlyIdsCount(s: seq<SortKey>, t: seq<SortKey>, i: nat, a: Entry, b: Entry, newer: (WDocId, WDocId) -> bool)
    requires i < |s| && (i < |t| ==> s[i].kind != t[i].kind)
    requires HasSchema(a, s) && forall c :: 0 <= c < |s| && c != i ==> SortValueAt(a, c) == Plain(s[c].kind)
    requires HasSchema(b, t) && forall c :: 0 <= c < |t| ==> SortValueAt(b, c) == Plain(t[c].kind)
    ensures RanksBefore(a, b, newer) == newer(a.id, b.id) && RanksBefore(b, a, newer) == newer(b.id, a.id)
  {
    PassedOver(a, b, newer, 0);
    PassedOver(b, a, newer, 0);
  }

  /** The value that ranks behind, and the one that ranks ahead. */
  function Behind(key: SortKey): SortValue {
    if key.reverse then Raised(key.kind) else Plain(key.kind)
  }

  function AheadOf(key: SortKey): SortValue {
    if key.reverse then Plain(key.kind) else Raised(key.kind)
  }

  /** Of two samples of one schema the one with the value ahead ranks ahead, whatever their ids. */
  lemma ColumnDecides(s: seq<SortKey>, i: nat, x: WDocId, z: WDocId, newer: (WDocId, WDocId) -> bool)
    requires i < |s|
    ensures HasSchema(Sample(s, i, Behind(s[i]), x), s) && HasSchema(Sample(s, i, AheadOf(s[i]), z), s)
    ensures !RanksBefore(Sample(s, i, Behind(s[i]), x), Sample(s, i, AheadOf(s[i]), z), newer)
  {
    PlainIsLess(s[i].kind);
    SampleFits(s, i, Behind(s[i]), x);
    SampleFits(s, i, AheadOf(s[i]), z);
    DecidedAt(Sample(s, i, Behind(s[i]), x), Sample(s, i, AheadOf(s[i]), z), newer, i, 0);
  }

  ghost predicate PlainOrRaised(e: Entry)
    requires Wellformed(e)
  {
    forall c :: 0 <= c < |e.columns| ==> SortValueAt(e, c) == Plain(KindOf(SortValueAt(e, c))) || SortValueAt(e, c) == Raised(KindOf(SortValueAt(e, c)))
  }

  lemma PlainOrRaisedSeparated(a: Entry, b: Entry)
    requires Wellformed(a) && Wellformed(b) && PlainOrRaised(a) && PlainOrRaised(b)
    ensures Separated(a, b)
  {
  }

  lemma SampleIsPlainOrRaised(schema: seq<SortKey>, i: nat, v: SortValue, id: WDocId)
    requires i < |schema| ==> v == Plain(schema[i].kind) || v == Raised(schema[i].kind)
    ensures HasSchema(Sample(schema, i, v, id), schema) && PlainOrRaised(Sample(schema, i, v, id))
  {
    SampleFits(schema, i, v, id);
  }

  /** Two columns of one type asked for in different directions: two documents both rank ahead of each
      other, or neither does. */
  lemma DirectionsDiffer(s: seq<SortKey>, t: seq<SortKey>, i: nat, newer: (WDocId, WDocId) -> bool)
    returns (a: Entry, b: Entry, c: Entry)
    requires StrictTotal(newer) && i < |s| && i < |t| && s[..i] == t[..i]
    requires s[i].kind == t[i].kind && s[i].reverse != t[i].reverse
    ensures Comparable(a, b, c, s, t) && AllSeparated(a, b, c) && !Consistent(a, b, c, newer)
  {
    var x, y, z := NewestFirst(newer);
    var kind := s[i].kind;
    PlainIsLess(kind);
    a, b, c := Sample(s, i, Plain(kind), x), Sample(t, i, Raised(kind), y), Sample(s, i, Plain(kind), z);
    SampleFits(s, i, Plain(kind), x);
    SampleFits(t, i, Raised(kind), y);
    SampleIsPlainOrRaised(s, i, Plain(kind), x);
    SampleIsPlainOrRaised(t, i, Raised(kind), y);
    SampleIsPlainOrRaised(s, i, Plain(kind), z);
    forall j | 0 <= j < i
      ensures s[j] == t[j]
    {
      assert s[..i][j] == t[..i][j];
    }
    DecidedAt(a, b, newer, i, 0);
    DecidedAt(b, a, newer, i, 0);
    PlainOrRaisedSeparated(a, b);
    PlainOrRaisedSeparated(b, a);
    PlainOrRaisedSeparated(b, c);
    PlainOrRaisedSeparated(a, c);
  }

  /** A column that the other worker does not have at its place, or has with another type: two documents
      of the one worker are told apart by it, and a third one ranks between them by its id alone. */
  lemma ColumnMissed(s: seq<SortKey>, t: seq<SortKey>, i: nat, newer: (WDocId, WDocId) -> bool)
    returns (a: Entry, b: Entry, c: Entry)
    requires StrictTotal(newer) && i < |s| && i <= |t| && s[..i] == t[..i]
    requires i < |t| ==> s[i].kind != t[i].kind
    ensures Comparable(a, b, c, s, t) && AllSeparated(a, b, c) && !Consistent(a, b, c, newer)
  {
    var x, y, z := NewestFirst(newer);
    a, b, c := Sample(s, i, Behind(s[i]), x), Sample(t, |t|, Behind(s[i]), y), Sample(s, i, AheadOf(s[i]), z);
    SampleIsPlainOrRaised(s, i, Behind(s[i]), x);
    SampleIsPlainOrRaised(t, |t|, Behind(s[i]), y);
    SampleIsPlainOrRaised(s, i, AheadOf(s[i]), z);
    SampleFits(s, i, Behind(s[i]), x);
    SampleFits(t, |t|, Behind(s[i]), y);
    SampleFits(s, i, AheadOf(s[i]), z);
    ColumnDecides(s, i, x, z, newer);
    OnlyIdsCount(s, t, i, a, b, newer);
    OnlyIdsCount(s, t, i, c, b, newer);
    hide RanksBefore, PlainOrRaised, HasSchema, Separated, StrictTotal, Plain, Raised, Behind, AheadOf;
    PlainOrRaisedSeparated(a, b);
    PlainOrRaisedSeparated(b, a);
    PlainOrRaisedSeparated(b, c);
    PlainOrRaisedSeparated(a, c);
  }

  /** Where two different schemas first differ. */
  lemma {:induction false} FirstDifference(s: seq<SortKey>, t: seq<SortKey>, from: nat) returns (i: nat)
    requires s != t && from <= |s| && from <= |t| && s[..from] == t[..from]
    ensures i <= |s| && i <= |t| && s[..i] == t[..i]
    ensures (i < |s| || i < |t|) && (i < |s| && i < |t| ==> s[i] != t[i])
    decreases |s| - from
  {
    if from == |s| || from == |t| {
      assert s[..|s|] == s && t[..|t|] == t;
      i := from;
    } else if s[from] != t[from] {
      i := from;
    } else {
      assert s[..from + 1] == s[..from] + [s[from]] && t[..from + 1] == t[..from] + [t[from]];
      i := FirstDifference(s, t, from + 1);
    }
  }

  lemma DifferentSchemasGoWrong(s: seq<SortKey>, t: seq<SortKey>, newer: (WDocId, WDocId) -> bool)
    returns (a: Entry, b: Entry, c: Entry)
    requires StrictTotal(newer) && s != t
    ensures Comparable(a, b, c, s, t) && AllSeparated(a, b, c) && !Consistent(a, b, c, newer)
  {
    hide Comparable, AllSeparated, Consistent;
    var i := FirstDifference(s, t, 0);
    if i < |s| && i < |t| && s[i].kind == t[i].kind {
      a, b, c := DirectionsDiffer(s, t, i, newer);
    } else if i < |s| {
      a, b, c := ColumnMissed(s, t, i, newer);
    } else {
      a, b, c := ColumnMissed(t, s, i, newer);
      SchemasSwap(a, b, c, s, t);
    }
  }

  lemma SchemasSwap(a: Entry, b: Entry, c: Entry, s: seq<SortKey>, t: seq<SortKey>)
    ensures Comparable(a, b, c, s, t) <==> Comparable(a, b, c, t, s)
  {
  }

  lemma SameSchemasAreOrdered(s: seq<SortKey>, a: Entry, b: Entry, c: Entry, newer: (WDocId, WDocId) -> bool)
    requires StrictTotal(newer) && Comparable(a, b, c, s, s) && AllSeparated(a, b, c)
    ensures Consistent(a, b, c, newer)
  {
    RankingIsAnOrder(a, b, c, newer);
  }

  /** As long as no floats tie without being equal, the ranking is an order on the documents of two
      workers exactly when they sort by the same columns: number, types and directions. */
  lemma SeparatedOrderExactlyForEqualSchemas(s: seq<SortKey>, t: seq<SortKey>, newer: (WDocId, WDocId) -> bool)
    requires StrictTotal(newer)
    ensures ConsistentWhenSeparated(s, t, newer) <==> s == t
  {
    hide AllSeparated, Consistent;
    if s != t {
      var a, b, c := DifferentSchemasGoWrong(s, t, newer);
      assert !ConsistentWhenSeparated(s, t, newer);
    } else {
      forall a, b, c | Comparable(a, b, c, s, t) && AllSeparated(a, b, c)
        ensures Consistent(a, b, c, newer)
      {
        SameSchemasAreOrdered(s, a, b, c, newer);
      }
    }
  }

  /** Three floats each close to the next, the outer two not close: ids rank the neighbours, the value
      the outer two. */
  lemma CloseFloatsGoWrong(s: seq<SortKey>, i: nat, newer: (WDocId, WDocId) -> bool) returns (a: Entry, b: Entry, c: Entry)
    requires StrictTotal(newer) && i < |s| && s[i].kind == KFloat
    ensures Comparable(a, b, c, s, s) && !Consistent(a, b, c, newer)
  {
    var x, y, z := NewestFirst(newer);
    var low, high := Float(if s[i].reverse then 2.0 * EPSILON else 0.0), Float(if s[i].reverse then 0.0 else 2.0 * EPSILON);
    a, b, c := Sample(s, i, low, x), Sample(s, i, Float(EPSILON), y), Sample(s, i, high, z);
    SampleFits(s, i, low, x);
    SampleFits(s, i, Float(EPSILON), y);
    SampleFits(s, i, high, z);
    PassedOver(a, b, newer, 0);
    PassedOver(b, c, newer, 0);
    DecidedAt(c, a, newer, i, 0);
    DecidedAt(a, c, newer, i, 0);
  }

  ghost predicate NoFloats(s: seq<SortKey>) {
    forall i :: 0 <= i < |s| ==> s[i].kind != KFloat
  }

  lemma WithoutFloatsSeparated(s: seq<SortKey>, a: Entry, b: Entry)
    requires NoFloats(s) && HasSchema(a, s) && HasSchema(b, s)
    ensures Separated(a, b)
  {
    assert forall c :: 0 <= c < |s| ==> !SortValueAt(a, c).Float?;
  }

  /** Whatever the documents, the ranking is an order exactly when both workers sort by the same
      columns and none of them holds floats. */
  lemma OrderExactlyForEqualSchemasWithoutFloats(s: seq<SortKey>, t: seq<SortKey>, newer: (WDocId, WDocId) -> bool)
    requires StrictTotal(newer)
    ensures AlwaysConsistent(s, t, newer) <==> s == t && NoFloats(s)
  {
    hide Consistent;
    if s != t {
      var a, b, c := DifferentSchemasGoWrong(s, t, newer);
      assert !AlwaysConsistent(s, t, newer);
    } else if !NoFloats(s) {
      var i: nat :| i < |s| && s[i].kind == KFloat;
      var a, b, c := CloseFloatsGoWrong(s, i, newer);
      assert !AlwaysConsistent(s, t, newer);
    } else {
      forall a, b, c | Comparable(a, b, c, s, t)
        ensures Consistent(a, b, c, newer)
      {
        WithoutFloatsSeparated(s, a, b);
        WithoutFloatsSeparated(s, b, a);
        WithoutFloatsSeparated(s, b, c);
        WithoutFloatsSeparated(s, a, c);
        SameSchemasAreOrdered(s, a, b, c, newer);
      }
    }
  }
}
