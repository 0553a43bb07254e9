/** From anomaly scores to a banded score: sorted populations, percentiles by binary search,
    lexicographic composite keys, and the 300-850 score with its buckets and confidence.
    Exact reals stand for floats; the forests' outputs are inputs. */
module Scoring {
  import opened Common
  import opened Statistics

  // ----- Counting -----

  function CountIf<T>(s: seq<T>, p: T -> bool): nat {
    if s == [] then 0 else CountIf(s[..|s| - 1], p) + if p(s[|s| - 1]) then 1 else 0
  }

  lemma {:induction false} CountIfBounds<T>(s: seq<T>, p: T -> bool, q: T -> bool)
    requires forall x :: x in s && p(x) ==> q(x)
    ensures CountIf(s, p) <= CountIf(s, q) <= |s|
  {
    if s != [] {
      var front, last := s[..|s| - 1], s[|s| - 1];
      assert s == front + [last];
      CountIfBounds(front, p, q);
    }
  }

  lemma {:induction false} CountIfConcat<T>(a: seq<T>, b: seq<T>, p: T -> bool)
    ensures CountIf(a + b, p) == CountIf(a, p) + CountIf(b, p)
  {
    if b == [] {
      assert a + b == a;
    } else {
      assert (a + b)[..|a + b| - 1] == a + b[..|b| - 1];
      CountIfConcat(a, b[..|b| - 1], p);
    }
  }

  lemma {:induction false} CountIfAll<T>(s: seq<T>, p: T -> bool)
    requires forall i :: 0 <= i < |s| ==> p(s[i])
    ensures CountIf(s, p) == |s|
  {
    if s != [] {
      CountIfAll(s[..|s| - 1], p);
    }
  }

  lemma {:induction false} CountIfNone<T>(s: seq<T>, p: T -> bool)
    requires forall i :: 0 <= i < |s| ==> !p(s[i])
    ensures CountIf(s, p) == 0
  {
    if s != [] {
      CountIfNone(s[..|s| - 1], p);
    }
  }

  // ----- Orders -----

  /** A strict total order, as Python compares floats and tuples of floats. */
  ghost predicate Total<T(!new)>(lt: (T, T) -> bool) {
    && (forall x :: !lt(x, x))
    && (forall x, y, z :: lt(x, y) && lt(y, z) ==> lt(x, z))
    && (forall x, y :: lt(x, y) || lt(y, x) || x == y)
  }

  ghost predicate Sorted<T>(s: seq<T>, lt: (T, T) -> bool) {
    forall i, j :: 0 <= i < j < |s| ==> !lt(s[j], s[i])
  }

  function AtMost<T>(lt: (T, T) -> bool, x: T): T -> bool {
    y => !lt(x, y)
  }

  /** How many of the population are at or below `x`. */
  function Rank<T>(s: seq<T>, lt: (T, T) -> bool, x: T): nat {
    CountIf(s, AtMost(lt, x))
  }

  /** `bisect_right`: on a sorted population it finds the number of elements at or below `x`. */
  method BisectRight<T(!new)>(s: seq<T>, x: T, lt: (T, T) -> bool) returns (lo: nat)
    requires Total(lt) && Sorted(s, lt)
    ensures lo == Rank(s, lt, x) <= |s|
  {
    var hi: nat := |s|;
    lo := 0;
    while lo < hi
      invariant 0 <= lo <= hi <= |s|
      invariant forall k :: 0 <= k < lo ==> !lt(x, s[k])
      invariant forall k :: hi <= k < |s| ==> lt(x, s[k])
    {
      var mid := (lo + hi) / 2;
      if lt(x, s[mid]) {
        hi := mid;
      } else {
        lo := mid + 1;
      }
    }
    CountIfConcat(s[..lo], s[lo..], AtMost(lt, x));
    assert s == s[..lo] + s[lo..];
    CountIfAll(s[..lo], AtMost(lt, x));
    CountIfNone(s[lo..], AtMost(lt, x));
  }

  /** The fraction of the population at or below `x`; 0.0 of an empty population. */
  function Fraction<T>(s: seq<T>, lt: (T, T) -> bool, x: T): (f: real)
    ensures 0.0 <= f <= 1.0
  {
    CountIfBounds(s, AtMost(lt, x), AtMost(lt, x));
    if s == [] then 0.0
    else
      InUnit(Rank(s, lt, x) as real, |s| as real);
      Rank(s, lt, x) as real / |s| as real
  }

  method Percentile<T(!new)>(s: seq<T>, x: T, lt: (T, T) -> bool) returns (p: real)
    requires Total(lt) && Sorted(s, lt)
    ensures p == Fraction(s, lt, x)
  {
    if s == [] { return 0.0; }
    var n := BisectRight(s, x, lt);
    return n as real / |s| as real;
  }

  lemma FractionMonotone<T(!new)>(s: seq<T>, lt: (T, T) -> bool, x: T, y: T)
    requires Total(lt) && !lt(y, x)
    ensures Fraction(s, lt, x) <= Fraction(s, lt, y)
  {
    forall z | z in s && AtMost(lt, x)(z) ensures AtMost(lt, y)(z) {
      assert lt(y, z) && !lt(x, z) ==> lt(y, x) || y == x || lt(x, y);
    }
    CountIfBounds(s, AtMost(lt, x), AtMost(lt, y));
    if s != [] {
      QuotientMonotone(Rank(s, lt, x) as real, Rank(s, lt, y) as real, |s| as real);
    }
  }

  lemma QuotientMonotone(a: real, b: real, n: real)
    requires a <= b && n > 0.0
    ensures a / n <= b / n
  {
    assert (b - a) / n >= 0.0;
  }

  // ----- Sorting -----

  function Insert<T>(s: seq<T>, x: T, lt: (T, T) -> bool): seq<T> {
    if s == [] || !lt(x, s[|s| - 1]) then s + [x] else Insert(s[..|s| - 1], x, lt) + [s[|s| - 1]]
  }

  /** Stands for the library sort. */
  function Sort<T>(s: seq<T>, lt: (T, T) -> bool): seq<T> {
    if s == [] then [] else Insert(Sort(s[..|s| - 1], lt), s[|s| - 1], lt)
  }

  lemma {:induction false} InsertHolds<T>(s: seq<T>, x: T, lt: (T, T) -> bool)
    ensures multiset(Insert(s, x, lt)) == multiset(s) + multiset{x}
    ensures forall y :: y in Insert(s, x, lt) ==> y == x || y in s
  {
    if !(s == [] || !lt(x, s[|s| - 1])) {
      InsertHolds(s[..|s| - 1], x, lt);
      assert s == s[..|s| - 1] + [s[|s| - 1]];
    }
  }

  lemma {:induction false} InsertSorts<T(!new)>(s: seq<T>, x: T, lt: (T, T) -> bool)
    requires Total(lt) && Sorted(s, lt)
    ensures Sorted(Insert(s, x, lt), lt)
  {
    if !(s == [] || !lt(x, s[|s| - 1])) {
      var front, last := s[..|s| - 1], s[|s| - 1];
      InsertSorts(front, x, lt);
      InsertHolds(front, x, lt);
      forall y | y in Insert(front, x, lt) ensures !lt(last, y) {
        if y in front {
          var i :| 0 <= i < |front| && front[i] == y;
          assert s[i] == y;
        }
      }
    } else {
      forall i | 0 <= i < |s| ensures !lt(x, s[i]) {
        assert !lt(s[|s| - 1], s[i]) || i == |s| - 1;
      }
    }
  }

  lemma {:induction false} SortSorts<T(!new)>(s: seq<T>, lt: (T, T) -> bool)
    requires Total(lt)
    ensures Sorted(Sort(s, lt), lt) && multiset(Sort(s, lt)) == multiset(s)
  {
    if s != [] {
      var front, last := s[..|s| - 1], s[|s| - 1];
      assert s == front + [last];
      SortSorts(front, lt);
      InsertSorts(Sort(front, lt), last, lt);
      InsertHolds(Sort(front, lt), last, lt);
    }
  }

  lemma {:induction false} CountIfInsert<T>(s: seq<T>, x: T, lt: (T, T) -> bool, p: T -> bool)
    ensures CountIf(Insert(s, x, lt), p) == CountIf(s, p) + if p(x) then 1 else 0
    ensures |Insert(s, x, lt)| == |s| + 1
  {
    if s == [] || !lt(x, s[|s| - 1]) {
      assert (s + [x])[..|s|] == s;
    } else {
      var front, last := s[..|s| - 1], s[|s| - 1];
      CountIfInsert(front, x, lt, p);
      assert Insert(s, x, lt)[..|s|] == Insert(front, x, lt);
    }
  }

  /** Sorting changes no count, so a percentile is taken in the population as given. */
  lemma {:induction false} SortKeepsCounts<T>(s: seq<T>, lt: (T, T) -> bool, p: T -> bool)
    ensures CountIf(Sort(s, lt), p) == CountIf(s, p) && |Sort(s, lt)| == |s|
  {
    if s != [] {
      SortKeepsCounts(s[..|s| - 1], lt, p);
      CountIfInsert(Sort(s[..|s| - 1], lt), s[|s| - 1], lt, p);
    }
  }

  // ----- How many rank low -----

  lemma {:induction false} Greatest<T(!new)>(s: seq<T>, lt: (T, T) -> bool, p: T -> bool) returns (m: T)
    requires Total(lt) && exists x :: x in s && p(x)
    ensures m in s && p(m) && forall x :: x in s && p(x) ==> !lt(m, x)
  {
    var front, last := s[..|s| - 1], s[|s| - 1];
    assert s == front + [last];
    if exists x :: x in front && p(x) {
      m := Greatest(front, lt, p);
      if p(last) && lt(m, last) { m := last; }
    } else {
      m := last;
    }
  }

  function RankAtMost<T>(s: seq<T>, lt: (T, T) -> bool, k: nat): T -> bool {
    x => Rank(s, lt, x) <= k
  }

  /** However many ties, at most `k` members of a population rank `k` or lower. */
  lemma FewRankLow<T(!new)>(s: seq<T>, lt: (T, T) -> bool, k: nat)
    requires Total(lt)
    ensures CountIf(s, RankAtMost(s, lt, k)) <= k
  {
    var p := RankAtMost(s, lt, k);
    if exists x :: x in s && p(x) {
      var m := Greatest(s, lt, p);
      CountIfBounds(s, p, AtMost(lt, m));
    } else {
      CountIfNone(s, p);
    }
  }

  // ----- Score, bucket, confidence -----

  const SCORE_MIN: int := 300
  const SCORE_MAX: int := 850

  /** Python's `round`: to the nearest integer, a tie to the even one. */
  function RoundHalfEven(x: real): (n: int)
    ensures n as real - 0.5 <= x <= n as real + 0.5
    ensures x == n as real - 0.5 || x == n as real + 0.5 ==> n % 2 == 0
  {
    var floor := x.Floor;
    var rest := x - floor as real;
    if rest < 0.5 || (rest == 0.5 && floor % 2 == 0) then floor else floor + 1
  }

  /** None where the source raises. */
  function ScoreFromPercentile(p: real): (score: Option<int>)
    ensures score.Some? <==> 0.0 <= p <= 1.0
    ensures score.Some? ==> SCORE_MIN <= score.value <= SCORE_MAX
  {
    if !(0.0 <= p <= 1.0) then None
    else
      Some(RoundHalfEven(Clamped(p)))
  }

  function Clamped(p: real): (score: real)
    ensures SCORE_MIN as real <= score <= SCORE_MAX as real
  {
    var score := SCORE_MAX as real - p * (SCORE_MAX - SCORE_MIN) as real;
    var low := if score > SCORE_MIN as real then score else SCORE_MIN as real;
    if low < SCORE_MAX as real then low else SCORE_MAX as real
  }

  const BANDS: seq<(int, nat)> := [(740, 0), (670, 1), (580, 2), (500, 3), (SCORE_MIN, 4)]

  /** The first band whose threshold the score reaches; 0 is VERY_LOW risk, 4 VERY_HIGH. */
  function BandFrom(score: int, i: nat): (bucket: nat)
    requires i <= |BANDS|
    ensures bucket <= 4
    decreases |BANDS| - i
  {
    if i == |BANDS| then 4 else if score >= BANDS[i].0 then BANDS[i].1 else BandFrom(score, i + 1)
  }

  function BucketFromScore(score: int): (bucket: nat)
    ensures bucket <= 4
  {
    BandFrom(score, 0)
  }

  function LowerOf(bucket: nat): int {
    if bucket == 0 then 740 else if bucket == 1 then 670 else if bucket == 2 then 580 else if bucket == 3 then 500 else SCORE_MIN
  }

  function UpperOf(bucket: nat): int {
    if bucket == 0 then SCORE_MAX else if bucket == 1 then 739 else if bucket == 2 then 669 else if bucket == 3 then 579 else 499
  }

  function Abs(x: real): real { if x < 0.0 then -x else x }

  function ConfidenceFromScore(score: int): (confidence: Option<real>)
    ensures confidence.Some? <==> SCORE_MIN <= score <= SCORE_MAX
    ensures confidence.Some? ==> 0.0 <= confidence.value <= 1.0
  {
    if !(SCORE_MIN <= score <= SCORE_MAX) then None
    else
      var bucket := BucketFromScore(score);
      var lower, upper := LowerOf(bucket), UpperOf(bucket);
      var span := upper - lower;
      var confidence :=
        if span <= 0 then 1.0
        else if bucket == 0 then (score - lower) as real / span as real
        else if bucket == 4 then (upper - score) as real / span as real
        else 1.0 - Abs(score as real - (lower + upper) as real / 2.0) / (span as real / 2.0);
      Some(if confidence < 0.0 then 0.0 else if confidence > 1.0 then 1.0 else confidence)
  }

  /** The bands cover the score range without gap or overlap. */
  lemma BandsPartition(score: int, bucket: nat)
    requires SCORE_MIN <= score <= SCORE_MAX && bucket <= 4
    ensures BucketFromScore(score) == bucket <==> LowerOf(bucket) <= score <= UpperOf(bucket)
  {
    Bands(score);
  }

  lemma Bands(score: int)
    ensures BucketFromScore(score) == if score >= 740 then 0 else if score >= 670 then 1 else if score >= 580 then 2 else if score >= 500 then 3 else 4
  {
    assert BandFrom(score, 4) == 4;
    assert BandFrom(score, 3) == if score >= 500 then 3 else 4;
    assert BandFrom(score, 2) == if score >= 580 then 2 else BandFrom(score, 3);
    assert BandFrom(score, 1) == if score >= 670 then 1 else BandFrom(score, 2);
  }

  /** How far a score lies from the cutoffs it shares with its neighbours. */
  function Depth(score: int): int {
    var bucket := BucketFromScore(score);
    if bucket == 0 then score - LowerOf(0)
    else if bucket == 4 then UpperOf(4) - score
    else if score - LowerOf(bucket) < UpperOf(bucket) - score then score - LowerOf(bucket) else UpperOf(bucket) - score
  }

  /** The distance at which a band's confidence is full. */
  function Reach(bucket: nat): real {
    if bucket == 0 || bucket == 4 then (UpperOf(bucket) - LowerOf(bucket)) as real
    else (UpperOf(bucket) - LowerOf(bucket)) as real / 2.0
  }

  /** Confidence is exactly the depth in the band over the band's reach: zero at a cutoff, rising with
      depth, and the clamp never bites. */
  lemma ConfidenceIsDepth(score: int)
    requires SCORE_MIN <= score <= SCORE_MAX
    ensures ConfidenceFromScore(score) == Some(Depth(score) as real / Reach(BucketFromScore(score)))
  {
    Bands(score);
    var bucket := BucketFromScore(score);
    InUnit(Depth(score) as real, Reach(bucket));
    if bucket == 1 || bucket == 2 || bucket == 3 {
      Tent(score as real, LowerOf(bucket) as real, UpperOf(bucket) as real);
      assert (LowerOf(bucket) + UpperOf(bucket)) as real == LowerOf(bucket) as real + UpperOf(bucket) as real;
    }
  }

  lemma InUnit(part: real, whole: real)
    requires 0.0 <= part <= whole && whole > 0.0
    ensures 0.0 <= part / whole <= 1.0
  {
    var share := part / whole;
    assert share * whole == part;
    assert share < 0.0 ==> share * whole < 0.0;
    assert share > 1.0 ==> (share - 1.0) * whole > 0.0;
  }

  /** One minus the relative distance from the middle is the relative distance from the nearer end. */
  lemma Tent(x: real, lower: real, upper: real)
    requires lower <= x <= upper && lower < upper
    ensures var half := (upper - lower) / 2.0;
            1.0 - Abs(x - (lower + upper) / 2.0) / half == (if x - lower < upper - x then x - lower else upper - x) / half
  {
    var half := (upper - lower) / 2.0;
    var depth := if x - lower < upper - x then x - lower else upper - x;
    assert Abs(x - (lower + upper) / 2.0) == half - depth;
    Complement(depth, half);
  }

  lemma Complement(part: real, whole: real)
    requires whole > 0.0
    ensures (whole - part) / whole == 1.0 - part / whole
  {
    var rest, share := (whole - part) / whole, part / whole;
    assert rest * whole == whole - part && share * whole == part;
    assert (1.0 - share) * whole == whole - share * whole;
    Cancel(rest, 1.0 - share, whole);
  }

  lemma Cancel(a: real, b: real, k: real)
    requires k > 0.0 && a * k == b * k
    ensures a == b
  {
    assert a < b ==> (b - a) * k > 0.0;
    assert a > b ==> (a - b) * k > 0.0;
  }

  lemma RoundMonotone(x: real, y: real)
    requires x <= y
    ensures RoundHalfEven(x) <= RoundHalfEven(y)
  {
  }

  /** A higher percentile never gets a higher score or a safer bucket. */
  lemma RiskierIsNotSafer(p: real, q: real)
    requires 0.0 <= p <= q <= 1.0
    ensures ScoreFromPercentile(p).value >= ScoreFromPercentile(q).value
    ensures BucketFromScore(ScoreFromPercentile(p).value) <= BucketFromScore(ScoreFromPercentile(q).value)
  {
    var span := (SCORE_MAX - SCORE_MIN) as real;
    assert p * span <= q * span;
    RoundMonotone(Clamped(q), Clamped(p));
    Bands(ScoreFromPercentile(p).value);
    Bands(ScoreFromPercentile(q).value);
  }

  /** A tie rounds up to an even threshold, and every band starts at an even score. */
  lemma ReachesEven(p: real, threshold: int)
    requires 0.0 <= p <= 1.0 && SCORE_MIN < threshold <= SCORE_MAX && threshold % 2 == 0
    ensures ScoreFromPercentile(p).value >= threshold <==> 550.0 * p <= (SCORE_MAX - threshold) as real + 0.5
  {
    var span := (SCORE_MAX - SCORE_MIN) as real;
    assert span == 550.0;
    assert p * span == 550.0 * p;
    assert SCORE_MIN as real <= SCORE_MAX as real - p * span <= SCORE_MAX as real;
  }

  /** The largest percentile, in 1100ths, that still gets a bucket this safe. */
  function Quota(bucket: nat): nat {
    if bucket == 0 then 221 else if bucket == 1 then 361 else if bucket == 2 then 541 else if bucket == 3 then 701 else 1100
  }

  /** The exact percentile cutoffs of the buckets, ties included. */
  lemma BucketByPercentile(p: real, bucket: nat)
    requires 0.0 <= p <= 1.0 && bucket <= 4
    ensures BucketFromScore(ScoreFromPercentile(p).value) <= bucket <==> p <= Quota(bucket) as real / 1100.0
  {
    Bands(ScoreFromPercentile(p).value);
    if bucket < 4 {
      ReachesEven(p, LowerOf(bucket));
      assert p <= Quota(bucket) as real / 1100.0 <==> 550.0 * p <= Quota(bucket) as real / 2.0;
    }
  }

  // ----- The fitted population -----

  /** What the forests and the rules say of one wallet: overall anomaly, anomaly by feature family,
      and the mean rule penalty. */
  datatype Row = Row(main: real, families: seq<real>, penalty: real)

  datatype Key = Key(main: real, mean: real, max: real, penalty: real)

  predicate RealLt(x: real, y: real) { x < y }

  /** Python's tuple comparison. */
  predicate KeyLt(a: Key, b: Key) {
    if a.main != b.main then a.main < b.main
    else if a.mean != b.mean then a.mean < b.mean
    else if a.max != b.max then a.max < b.max
    else a.penalty < b.penalty
  }

  lemma Orders()
    ensures Total(RealLt) && Total(KeyLt)
  {
  }

  ghost predicate Shaped(rows: seq<Row>, families: nat) {
    forall r :: r in rows ==> |r.families| == families
  }

  function Mains(rows: seq<Row>): seq<real> {
    seq(|rows|, i requires 0 <= i < |rows| => rows[i].main)
  }

  function Column(rows: seq<Row>, families: nat, f: nat): seq<real>
    requires f < families && Shaped(rows, families)
  {
    seq(|rows|, i requires 0 <= i < |rows| => rows[i].families[f])
  }

  /** The largest value, 0.0 of none; percentiles are never negative. */
  function MaxOf(values: seq<real>): real {
    if values == [] then 0.0
    else
      var m := MaxOf(values[..|values| - 1]);
      if values[|values| - 1] > m then values[|values| - 1] else m
  }

  function FamilyFractions(rows: seq<Row>, families: nat, row: Row): (r: seq<real>)
    requires Shaped(rows, families) && |row.families| == families
    ensures |r| == families && forall f :: 0 <= f < families ==> 0.0 <= r[f] <= 1.0
  {
    seq(families, f requires 0 <= f < families => Fraction(Column(rows, families, f), RealLt, row.families[f]))
  }

  /** The composite key of a wallet against a population. */
  function KeyFor(rows: seq<Row>, families: nat, row: Row): Key
    requires Shaped(rows, families) && |row.families| == families
  {
    var fractions := FamilyFractions(rows, families, row);
    Key(Fraction(Mains(rows), RealLt, row.main), Mean(fractions), MaxOf(fractions), row.penalty)
  }

  function Keys(rows: seq<Row>, families: nat): seq<Key>
    requires Shaped(rows, families)
  {
    seq(|rows|, i requires 0 <= i < |rows| => KeyFor(rows, families, rows[i]))
  }

  /** The risk percentile of a wallet: its composite key among the population's. */
  function RiskOf(rows: seq<Row>, families: nat, row: Row): (p: real)
    requires Shaped(rows, families) && |row.families| == families
    ensures 0.0 <= p <= 1.0
  {
    Fraction(Keys(rows, families), KeyLt, KeyFor(rows, families, row))
  }

  datatype Scored = Unfitted | Scored(percentile: real, score: int, bucket: nat, confidence: real)

  class FullModel {
    var fitted: bool
    var main: seq<real>
    var columns: seq<seq<real>>
    var keys: seq<Key>

    constructor ()
      ensures !fitted
    {
      fitted, main, columns := false, [0.0, 1.0], [];
      keys := [Key(0.0, 0.0, 0.0, 0.0), Key(1.0, 1.0, 1.0, 1.0)];
    }

    /** The stored score lists are the population's, sorted. */
    ghost predicate Sorts(rows: seq<Row>, families: nat)
      reads this
    {
      && Shaped(rows, families)
      && main == Sort(Mains(rows), RealLt)
      && |columns| == families && (forall f :: 0 <= f < families ==> columns[f] == Sort(Column(rows, families, f), RealLt))
    }

    ghost predicate FittedOn(rows: seq<Row>, families: nat)
      reads this
    {
      fitted && Sorts(rows, families) && keys == Sort(Keys(rows, families), KeyLt)
    }

    /** Percentiles of one row against the sorted lists. */
    method KeyOfRow(ghost rows: seq<Row>, families: nat, row: Row) returns (key: Key)
      requires Sorts(rows, families) && |row.families| == families
      ensures key == KeyFor(rows, families, row)
    {
      var first := RealPercentile(Mains(rows), main, row.main);
      var fractions := FamilyPercentiles(rows, families, columns, row.families);
      assert FamilyFractions(rows, families, row) == fractions;
      key := Key(first, Mean(fractions), MaxOf(fractions), row.penalty);
    }

    method TrainingKeys(rows: seq<Row>, families: nat) returns (unsorted: seq<Key>)
      requires Sorts(rows, families)
      ensures unsorted == Keys(rows, families)
    {
      unsorted := [];
      for i := 0 to |rows|
        invariant |unsorted| == i && forall k :: 0 <= k < i ==> unsorted[k] == Keys(rows, families)[k]
      {
        var key := KeyOfRow(rows, families, rows[i]);
        unsorted := unsorted + [key];
      }
    }

    method Fit(rows: seq<Row>, families: nat)
      requires Shaped(rows, families)
      modifies this
      ensures FittedOn(rows, families)
    {
      main := Sort(Mains(rows), RealLt);
      columns := seq(families, f requires 0 <= f < families => Sort(Column(rows, families, f), RealLt));
      var unsorted := TrainingKeys(rows, families);
      keys := Sort(unsorted, KeyLt);
      fitted := true;
    }

    /** One row of `score_batch`: it never raises once fitted. */
    method Score(ghost rows: seq<Row>, families: nat, row: Row) returns (s: Scored)
      requires fitted ==> FittedOn(rows, families) && |row.families| == families
      ensures s.Unfitted? <==> !fitted
      ensures s.Scored? ==> s.percentile == RiskOf(rows, families, row) && Some(s.score) == ScoreFromPercentile(s.percentile)
      ensures s.Scored? ==> s.bucket == BucketFromScore(s.score) && Some(s.confidence) == ConfidenceFromScore(s.score)
    {
      if !fitted { return Unfitted; }
      var key := KeyOfRow(rows, families, row);
      var p := TuplePercentile(Keys(rows, families), keys, key);
      var score := ScoreFromPercentile(p).value;
      s := Scored(p, score, BucketFromScore(score), ConfidenceFromScore(score).value);
    }
  }

  method RealPercentile(ghost population: seq<real>, values: seq<real>, x: real) returns (p: real)
    requires values == Sort(population, RealLt)
    ensures p == Fraction(population, RealLt, x)
  {
    Orders();
    SortedFraction(population, RealLt, x);
    p := Percentile(values, x, RealLt);
  }

  method FamilyPercentiles(ghost rows: seq<Row>, families: nat, columns: seq<seq<real>>, values: seq<real>) returns (fractions: seq<real>)
    requires Shaped(rows, families) && |values| == families == |columns|
    requires forall f :: 0 <= f < families ==> columns[f] == Sort(Column(rows, families, f), RealLt)
    ensures |fractions| == families
    ensures forall f :: 0 <= f < families ==> fractions[f] == Fraction(Column(rows, families, f), RealLt, values[f])
  {
    fractions := [];
    for f := 0 to families
      invariant |fractions| == f
      invariant forall g :: 0 <= g < f ==> fractions[g] == Fraction(Column(rows, families, g), RealLt, values[g])
    {
      var p := RealPercentile(Column(rows, families, f), columns[f], values[f]);
      fractions := fractions + [p];
    }
  }

  method TuplePercentile(ghost population: seq<Key>, keys: seq<Key>, x: Key) returns (p: real)
    requires keys == Sort(population, KeyLt)
    ensures p == Fraction(population, KeyLt, x)
  {
    Orders();
    SortedFraction(population, KeyLt, x);
    p := Percentile(keys, x, KeyLt);
  }

  lemma SortedFraction<T(!new)>(s: seq<T>, lt: (T, T) -> bool, x: T)
    requires Total(lt)
    ensures Sorted(Sort(s, lt), lt) && Fraction(Sort(s, lt), lt, x) == Fraction(s, lt, x)
  {
    SortSorts(s, lt);
    SortKeepsCounts(s, lt, AtMost(lt, x));
  }

  // ----- Riskier rows, riskier scores -----

  ghost predicate AtLeastAsRisky(a: Row, b: Row) {
    && b.main >= a.main && b.penalty >= a.penalty
    && |a.families| == |b.families|
    && forall f :: 0 <= f < |a.families| ==> b.families[f] >= a.families[f]
  }

  lemma {:induction false} PointwiseMonotone(a: seq<real>, b: seq<real>)
    requires |a| == |b| && forall i :: 0 <= i < |a| ==> a[i] <= b[i]
    ensures Sum(a) <= Sum(b) && MaxOf(a) <= MaxOf(b)
  {
    if a != [] {
      PointwiseMonotone(a[..|a| - 1], b[..|b| - 1]);
    }
  }

  /** A lexicographically riskier key never ranks lower. */
  lemma RiskierKeyRanksHigher(keys: seq<Key>, a: Key, b: Key)
    requires !KeyLt(b, a)
    ensures Fraction(keys, KeyLt, a) <= Fraction(keys, KeyLt, b)
  {
    Orders();
    FractionMonotone(keys, KeyLt, a, b);
  }

  /** A wallet at least as anomalous in every score and at least as penalised never gets a better
      percentile, score or bucket. */
  lemma RiskierRowIsNotSafer(rows: seq<Row>, families: nat, a: Row, b: Row)
    requires Shaped(rows, families) && |a.families| == families && AtLeastAsRisky(a, b)
    ensures var p, q := RiskOf(rows, families, a), RiskOf(rows, families, b);
            && p <= q
            && ScoreFromPercentile(p).value >= ScoreFromPercentile(q).value
            && BucketFromScore(ScoreFromPercentile(p).value) <= BucketFromScore(ScoreFromPercentile(q).value)
  {
    Orders();
    FractionMonotone(Mains(rows), RealLt, a.main, b.main);
    var fa, fb := FamilyFractions(rows, families, a), FamilyFractions(rows, families, b);
    forall f | 0 <= f < families ensures fa[f] <= fb[f] {
      FractionMonotone(Column(rows, families, f), RealLt, a.families[f], b.families[f]);
    }
    PointwiseMonotone(fa, fb);
    if families > 0 {
      QuotientMonotone(Sum(fa), Sum(fb), families as real);
    }
    RiskierKeyRanksHigher(Keys(rows, families), KeyFor(rows, families, a), KeyFor(rows, families, b));
    RiskierIsNotSafer(RiskOf(rows, families, a), RiskOf(rows, families, b));
  }

  // ----- What the risk percentile reads, and in which order -----

  lemma {:induction false} CountIfStrict<T>(s: seq<T>, p: T -> bool, q: T -> bool, w: T)
    requires (forall x :: x in s && p(x) ==> q(x)) && w in s && q(w) && !p(w)
    ensures CountIf(s, p) < CountIf(s, q)
  {
    var front, last := s[..|s| - 1], s[|s| - 1];
    assert s == front + [last];
    CountIfBounds(front, p, q);
    if w in front {
      CountIfStrict(front, p, q, w);
    }
  }

  lemma QuotientStrict(a: real, b: real, n: real)
    requires a < b && n > 0.0
    ensures a / n < b / n
  {
    assert (b - a) / n > 0.0;
  }

  /** Below a member of the population, the fraction is strictly smaller than the member's. */
  lemma FractionStrict<T(!new)>(s: seq<T>, lt: (T, T) -> bool, x: T, y: T)
    requires Total(lt) && y in s && lt(x, y)
    ensures Fraction(s, lt, x) < Fraction(s, lt, y)
  {
    forall z | z in s && AtMost(lt, x)(z) ensures AtMost(lt, y)(z) {
      assert lt(y, z) && !lt(x, z) ==> lt(y, x) || y == x || lt(x, y);
    }
    CountIfStrict(s, AtMost(lt, x), AtMost(lt, y), y);
    QuotientStrict(Rank(s, lt, x) as real, Rank(s, lt, y) as real, |s| as real);
  }

  /** The indices of the members that are not above `x`. */
  function NotAbove<T>(s: seq<T>, lt: (T, T) -> bool, x: T): set<nat> {
    set i: nat | i < |s| && !lt(x, s[i])
  }

  lemma {:induction false} RankIsSize<T(!new)>(s: seq<T>, lt: (T, T) -> bool, x: T)
    ensures Rank(s, lt, x) == |NotAbove(s, lt, x)|
  {
    if s != [] {
      var last, front := |s| - 1, s[..|s| - 1];
      RankIsSize(front, lt, x);
      assert NotAbove(s, lt, x) == NotAbove(front, lt, x) + if lt(x, s[last]) then {} else {last};
    } else {
      assert NotAbove(s, lt, x) == {};
    }
  }

  /** The fraction counts the members that are not above, of all members; so it is 1 for the greatest. */
  lemma FractionIsShare<T(!new)>(s: seq<T>, lt: (T, T) -> bool, x: T)
    requires s != []
    ensures Fraction(s, lt, x) * |s| as real == |NotAbove(s, lt, x)| as real
    ensures (forall y :: y in s ==> !lt(x, y)) ==> Fraction(s, lt, x) == 1.0
  {
    RankIsSize(s, lt, x);
    if forall y :: y in s ==> !lt(x, y) {
      CountIfAll(s, AtMost(lt, x));
    }
  }

  lemma {:induction false} MaxOfIsMax(values: seq<real>)
    requires forall i :: 0 <= i < |values| ==> values[i] >= 0.0
    ensures forall i :: 0 <= i < |values| ==> values[i] <= MaxOf(values)
    ensures values != [] ==> MaxOf(values) in values
  {
    if values != [] {
      var front, last := values[..|values| - 1], values[|values| - 1];
      MaxOfIsMax(front);
      assert values == front + [last];
    }
  }

  /** Which of two rows is ranked first: main anomaly percentile, then the mean of the family percentiles,
      then the largest of them, then the rule penalty. */
  ghost predicate RanksBelow(rows: seq<Row>, families: nat, a: Row, b: Row)
    requires Shaped(rows, families) && |a.families| == |b.families| == families
  {
    var (pa, pb) := (Fraction(Mains(rows), RealLt, a.main), Fraction(Mains(rows), RealLt, b.main));
    var (fa, fb) := (FamilyFractions(rows, families, a), FamilyFractions(rows, families, b));
    || pa < pb
    || (pa == pb && Mean(fa) < Mean(fb))
    || (pa == pb && Mean(fa) == Mean(fb) && MaxOf(fa) < MaxOf(fb))
    || (pa == pb && Mean(fa) == Mean(fb) && MaxOf(fa) == MaxOf(fb) && a.penalty < b.penalty)
  }

  lemma RanksBelowIffKeyLt(rows: seq<Row>, families: nat, a: Row, b: Row)
    requires Shaped(rows, families) && |a.families| == |b.families| == families
    ensures RanksBelow(rows, families, a, b) <==> KeyLt(KeyFor(rows, families, a), KeyFor(rows, families, b))
  {
  }

  /** A wallet's risk percentile is strictly below a population member's exactly when the wallet ranks
      below it in that order. */
  lemma RiskBelowIff(rows: seq<Row>, families: nat, row: Row, j: nat)
    requires Shaped(rows, families) && |row.families| == families && j < |rows|
    ensures RiskOf(rows, families, row) < RiskOf(rows, families, rows[j]) <==> RanksBelow(rows, families, row, rows[j])
  {
    var keys, x, y := Keys(rows, families), KeyFor(rows, families, row), KeyFor(rows, families, rows[j]);
    Orders();
    RanksBelowIffKeyLt(rows, families, row, rows[j]);
    assert keys[j] == y && y in keys;
    if KeyLt(x, y) {
      FractionStrict(keys, KeyLt, x, y);
    } else {
      FractionMonotone(keys, KeyLt, y, x);
    }
  }

  /** In particular the main anomaly score comes first: less anomalous than a member there is less risky
      than that member, whatever the families and the penalty say. */
  lemma MainAnomalyDecides(rows: seq<Row>, families: nat, row: Row, j: nat)
    requires Shaped(rows, families) && |row.families| == families && j < |rows|
    requires row.main < rows[j].main
    ensures RiskOf(rows, families, row) < RiskOf(rows, families, rows[j])
  {
    Orders();
    assert Mains(rows)[j] == rows[j].main;
    FractionStrict(Mains(rows), RealLt, row.main, rows[j].main);
    RiskBelowIff(rows, families, row, j);
  }

  /** The penalty decides only between rows alike in all else. */
  lemma PenaltyDecidesLast(rows: seq<Row>, families: nat, row: Row, j: nat)
    requires Shaped(rows, families) && |row.families| == families && j < |rows|
    requires row.main == rows[j].main && row.families == rows[j].families
    ensures RiskOf(rows, families, row) < RiskOf(rows, families, rows[j]) <==> row.penalty < rows[j].penalty
  {
    RiskBelowIff(rows, families, row, j);
  }

  /** The score is the integer nearest to 850 - 550 p, a tie going to the even one. */
  lemma ScoreIsLinear(p: real)
    requires 0.0 <= p <= 1.0
    ensures var score := ScoreFromPercentile(p).value;
            && score as real - 0.5 <= 850.0 - 550.0 * p <= score as real + 0.5
            && (850.0 - 550.0 * p == score as real - 0.5 || 850.0 - 550.0 * p == score as real + 0.5 ==> score % 2 == 0)
  {
    assert (SCORE_MAX - SCORE_MIN) as real == 550.0;
    assert p * 550.0 == 550.0 * p;
    assert Clamped(p) == 850.0 - 550.0 * p;
  }

  // ----- How many wallets a bucket can hold -----

  function BucketOf(keys: seq<Key>, key: Key): nat {
    BucketFromScore(ScoreFromPercentile(Fraction(keys, KeyLt, key)).value)
  }

  function AsSafeAs(keys: seq<Key>, bucket: nat): Key -> bool {
    key => BucketOf(keys, key) <= bucket
  }

  /** Of `n` population wallets, ties and all, at most 221/1100 of n are VERY_LOW risk, at most 361/1100
      LOW or better, at most 541/1100 MEDIUM or better and at most 701/1100 HIGH or better. */
  lemma BucketQuota(keys: seq<Key>, bucket: nat)
    requires bucket <= 4
    ensures 1100 * CountIf(keys, AsSafeAs(keys, bucket)) <= Quota(bucket) * |keys|
  {
    var n, q := |keys|, Quota(bucket);
    var k := q * n / 1100;
    forall key | key in keys && AsSafeAs(keys, bucket)(key) ensures RankAtMost(keys, KeyLt, k)(key) {
      BucketByPercentile(Fraction(keys, KeyLt, key), bucket);
      RankFromQuota(Rank(keys, KeyLt, key), n, q);
    }
    Orders();
    FewRankLow(keys, KeyLt, k);
    CountIfBounds(keys, AsSafeAs(keys, bucket), RankAtMost(keys, KeyLt, k));
  }

  lemma RankFromQuota(rank: nat, n: nat, q: nat)
    requires n > 0 && rank as real / n as real <= q as real / 1100.0
    ensures rank <= q * n / 1100
  {
    var left, right := rank as real / n as real, q as real / 1100.0;
    assert left * n as real == rank as real && right * 1100.0 == q as real;
    assert left * n as real <= right * n as real;
    assert 1100.0 * (right * n as real) == q as real * n as real;
    assert (1100 * rank) as real <= (q * n) as real;
  }
}
