/** Ranking features by how well they separate the risk buckets: the between-group and within-group
    sums of squares of a feature, and the choice of the top features. */
module Separation {
  import Scoring
  import opened Statistics

  /** A training row's value of one feature and its risk bucket. */
  datatype Sample = Sample(value: real, bucket: int)

  function TotalOf(values: seq<real>, f: real -> real): real {
    if values == [] then 0.0 else TotalOf(values[..|values| - 1], f) + f(values[|values| - 1])
  }

  function SquareFrom(center: real): real -> real {
    (x: real) => (x - center) * (x - center)
  }

  /** The sum of squared distances from `center`. */
  function Spread(values: seq<real>, center: real): real {
    TotalOf(values, SquareFrom(center))
  }

  lemma Distribute(k: real, a: real, b: real)
    ensures k * (a + b) == k * a + k * b
  {
  }

  lemma {:induction false} DriftIsSum(values: seq<real>, m: real)
    ensures TotalOf(values, Minus(m)) == Sum(values) - m * |values| as real
  {
    if values != [] {
      DriftIsSum(values[..|values| - 1], m);
      Distribute(m, (|values| - 1) as real, 1.0);
    }
  }

  lemma {:induction false} Combine(values: seq<real>, f: real -> real, g: real -> real, e: real -> real, k: real, q: real)
    requires forall x :: f(x) == g(x) + k * e(x) + q
    ensures TotalOf(values, f) == TotalOf(values, g) + k * TotalOf(values, e) + q * |values| as real
  {
    if values != [] {
      var front, x := values[..|values| - 1], values[|values| - 1];
      Combine(front, f, g, e, k, q);
      Distribute(k, TotalOf(front, e), e(x));
      Distribute(q, |front| as real, 1.0);
      assert f(x) == g(x) + k * e(x) + q;
    }
  }

  lemma SquareMoved(x: real, m: real, c: real)
    ensures (x - c) * (x - c) == (x - m) * (x - m) + 2.0 * (m - c) * (x - m) + (m - c) * (m - c)
  {
    var a, d := x - m, m - c;
    assert x - c == a + d;
    assert (a + d) * (a + d) == a * a + 2.0 * d * a + d * d;
  }

  /** A group's part of the between sum: its size times the squared distance of its mean from `center`. */
  function Moved(values: seq<real>, center: real): (r: real)
    ensures r >= 0.0
  {
    SquareFrom(center)(Mean(values)) * |values| as real
  }

  function Minus(center: real): real -> real {
    (x: real) => x - center
  }

  lemma SquareFromMoved(m: real, c: real, k: real, q: real)
    requires k == 2.0 * (m - c) && q == SquareFrom(c)(m)
    ensures forall x :: SquareFrom(c)(x) == SquareFrom(m)(x) + k * Minus(m)(x) + q
  {
    forall x ensures SquareFrom(c)(x) == SquareFrom(m)(x) + k * Minus(m)(x) + q {
      SquareMoved(x, m, c);
    }
  }

  lemma SpreadMoved(values: seq<real>, m: real, c: real, k: real, q: real)
    requires forall x :: SquareFrom(c)(x) == SquareFrom(m)(x) + k * Minus(m)(x) + q
    ensures Spread(values, c) == Spread(values, m) + k * TotalOf(values, Minus(m)) + q * |values| as real
  {
    Combine(values, SquareFrom(c), SquareFrom(m), Minus(m), k, q);
  }

  /** The spread about any point is the spread about the mean plus the cost of moving there. */
  lemma SpreadAboutMean(values: seq<real>, c: real)
    ensures Spread(values, c) == Spread(values, Mean(values)) + Moved(values, c)
  {
    if values != [] {
      var m, k := Mean(values), 2.0 * (Mean(values) - c);
      SquareFromMoved(m, c, k, SquareFrom(c)(m));
      SpreadMoved(values, m, c, k, SquareFrom(c)(m));
      MeanHasNoDrift(values);
      Times(k);
    }
  }

  lemma Times(k: real)
    ensures k * 0.0 == 0.0
  {
  }

  lemma MeanHasNoDrift(values: seq<real>)
    requires values != []
    ensures TotalOf(values, Minus(Mean(values))) == 0.0
  {
    DriftIsSum(values, Mean(values));
  }

  /** The values of the samples whose bucket is in `s`: a boolean mask. */
  function Masked(samples: seq<Sample>, s: set<int>): seq<real> {
    if samples == [] then []
    else
      var last := samples[|samples| - 1];
      Masked(samples[..|samples| - 1], s) + if last.bucket in s then [last.value] else []
  }

  lemma SpreadAppend(values: seq<real>, x: real, c: real)
    ensures Spread(values + [x], c) == Spread(values, c) + SquareFrom(c)(x)
  {
    assert (values + [x])[..|values|] == values;
  }

  lemma {:induction false} MaskSplits(samples: seq<Sample>, s: set<int>, bucket: int, c: real)
    requires bucket !in s
    ensures Spread(Masked(samples, s + {bucket}), c) == Spread(Masked(samples, s), c) + Spread(Masked(samples, {bucket}), c)
  {
    if samples != [] {
      var front, last := samples[..|samples| - 1], samples[|samples| - 1];
      MaskSplits(front, s, bucket, c);
      MaskStep(samples, s, c);
      MaskStep(samples, {bucket}, c);
      MaskStep(samples, s + {bucket}, c);
    }
  }

  lemma MaskStep(samples: seq<Sample>, s: set<int>, c: real)
    requires samples != []
    ensures Spread(Masked(samples, s), c) == Spread(Masked(samples[..|samples| - 1], s), c)
                                             + if samples[|samples| - 1].bucket in s then SquareFrom(c)(samples[|samples| - 1].value) else 0.0
  {
    var front, last := samples[..|samples| - 1], samples[|samples| - 1];
    if last.bucket in s {
      SpreadAppend(Masked(front, s), last.value, c);
    } else {
      assert Masked(samples, s) == Masked(front, s);
    }
  }

  function Values(samples: seq<Sample>): seq<real> {
    if samples == [] then [] else Values(samples[..|samples| - 1]) + [samples[|samples| - 1].value]
  }

  ghost function BucketsOf(samples: seq<Sample>): set<int> {
    set x | x in samples :: x.bucket
  }

  lemma {:induction false} MaskOfAll(samples: seq<Sample>, s: set<int>)
    ensures BucketsOf(samples) <= s ==> Masked(samples, s) == Values(samples)
  {
    if samples != [] {
      var front, last := samples[..|samples| - 1], samples[|samples| - 1];
      assert samples == front + [last];
      MaskOfAll(front, s);
      assert BucketsOf(samples) <= s ==> BucketsOf(front) <= s && last.bucket in s;
    }
  }

  lemma {:induction false} MaskOfNone(samples: seq<Sample>)
    ensures Masked(samples, {}) == []
  {
    if samples != [] {
      MaskOfNone(samples[..|samples| - 1]);
    }
  }

  /** Each value's squared distance from a center that depends on its bucket. */
  function Scatter(samples: seq<Sample>, s: set<int>, centers: int -> real): real {
    if samples == [] then 0.0
    else
      var last := samples[|samples| - 1];
      Scatter(samples[..|samples| - 1], s, centers) + if last.bucket in s then SquareFrom(centers(last.bucket))(last.value) else 0.0
  }

  function GroupMeans(samples: seq<Sample>): int -> real {
    (bucket: int) => Mean(Masked(samples, {bucket}))
  }

  lemma {:induction false} ScatterSplits(samples: seq<Sample>, s: set<int>, bucket: int, centers: int -> real)
    requires bucket !in s
    ensures Scatter(samples, s + {bucket}, centers)
            == Scatter(samples, s, centers) + Spread(Masked(samples, {bucket}), centers(bucket))
  {
    if samples != [] {
      ScatterSplits(samples[..|samples| - 1], s, bucket, centers);
      MaskStep(samples, {bucket}, centers(bucket));
    }
  }

  lemma {:induction false} ScatterOfNone(samples: seq<Sample>, centers: int -> real)
    ensures Scatter(samples, {}, centers) == 0.0
  {
    if samples != [] {
      ScatterOfNone(samples[..|samples| - 1], centers);
    }
  }

  /** The distinct buckets. */
  method Unique(samples: seq<Sample>) returns (unique: seq<int>)
    ensures forall b :: b in unique <==> b in BucketsOf(samples)
    ensures forall i, j :: 0 <= i < j < |unique| ==> unique[i] != unique[j]
  {
    unique := [];
    for i := 0 to |samples|
      invariant forall b :: b in unique <==> b in BucketsOf(samples[..i])
      invariant forall i, j :: 0 <= i < j < |unique| ==> unique[i] != unique[j]
    {
      assert samples[..i + 1] == samples[..i] + [samples[i]];
      assert BucketsOf(samples[..i + 1]) == BucketsOf(samples[..i]) + {samples[i].bucket};
      if samples[i].bucket !in unique {
        unique := unique + [samples[i].bucket];
      }
    }
    assert samples[..|samples|] == samples;
  }

  ghost function SetOf(s: seq<int>): set<int> {
    set x | x in s
  }

  /** Progress of the group loop: the groups seen so far account for their whole spread. */
  ghost predicate Split(samples: seq<Sample>, done: set<int>, between: real, within: real) {
    && between >= 0.0
    && within == Scatter(samples, done, GroupMeans(samples))
    && between + within == Spread(Masked(samples, done), Mean(Values(samples)))
  }

  method AddGroup(samples: seq<Sample>, ghost done: set<int>, bucket: int, overall: real, between: real, within: real)
    returns (between': real, within': real)
    requires bucket !in done && overall == Mean(Values(samples)) && Split(samples, done, between, within)
    ensures Split(samples, done + {bucket}, between', within')
  {
    between', within' := between, within;
    var group := Masked(samples, {bucket});
    MaskSplits(samples, done, bucket, overall);
    ScatterSplits(samples, done, bucket, GroupMeans(samples));
    if group != [] {
      SpreadAboutMean(group, overall);
      between', within' := between + Moved(group, overall), within + Spread(group, Mean(group));
    }
  }

  lemma SplitStart(samples: seq<Sample>)
    ensures Split(samples, {}, 0.0, 0.0)
  {
    MaskOfNone(samples);
    ScatterOfNone(samples, GroupMeans(samples));
  }

  lemma SplitEnd(samples: seq<Sample>, between: real, within: real)
    requires Split(samples, BucketsOf(samples), between, within)
    ensures between >= 0.0 && between + within == Spread(Values(samples), Mean(Values(samples)))
    ensures within == Within(samples)
  {
    MaskOfAll(samples, BucketsOf(samples));
  }

  /** One feature's sums: within is every value's squared distance from its own group's mean, and with
      the between sum it accounts for the whole spread about the overall mean, exactly. */
  method BetweenWithin(samples: seq<Sample>) returns (between: real, within: real)
    ensures between >= 0.0 && between + within == Spread(Values(samples), Mean(Values(samples)))
    ensures within == Within(samples)
  {
    var overall := Mean(Values(samples));
    var unique := Unique(samples);
    between, within := 0.0, 0.0;
    SplitStart(samples);
    assert SetOf(unique[..0]) == {};
    for i := 0 to |unique|
      invariant Split(samples, SetOf(unique[..i]), between, within)
    {
      assert SetOf(unique[..i + 1]) == SetOf(unique[..i]) + {unique[i]};
      between, within := AddGroup(samples, SetOf(unique[..i]), unique[i], overall, between, within);
    }
    assert unique[..|unique|] == unique;
    assert SetOf(unique) == BucketsOf(samples);
    SplitEnd(samples, between, within);
  }

  // ----- Ranking and selection -----

  const EPS: real := 0.000000000001

  /** Every value's squared distance from its own group's mean. */
  ghost function Within(samples: seq<Sample>): (r: real)
    ensures r >= 0.0
  {
    ScatterIsNonNegative(samples, BucketsOf(samples), GroupMeans(samples));
    Scatter(samples, BucketsOf(samples), GroupMeans(samples))
  }

  /** The between part. */
  ghost function Between(samples: seq<Sample>): real {
    Spread(Values(samples), Mean(Values(samples))) - Within(samples)
  }

  /** How strongly a feature separates the buckets: the part of its spread that lies between the
      groups over the part within them, guarded against a zero divisor. */
  ghost function Score(samples: seq<Sample>): real {
    Between(samples) / (Within(samples) + EPS)
  }

  function Product(x: real, y: real): real {
    x * y
  }

  lemma QuotientOrder(a: real, b: real, c: real, d: real)
    requires c > 0.0 && d > 0.0
    ensures a / c < b / d <==> Product(a, d) < Product(b, c)
  {
    var x, y := a / c, b / d;
    assert x * c == a && y * d == b;
    assert a * d == x * (c * d) && b * c == y * (c * d);
    assert c * d > 0.0;
    assert (y - x) * (c * d) == b * c - a * d;
    assert y > x ==> (y - x) * (c * d) > 0.0;
    assert y <= x ==> (x - y) * (c * d) >= 0.0;
  }

  /** A feature scores higher exactly when its between part is larger in proportion to its guarded within
      part; */
  lemma ScoresHigherIff(a: seq<Sample>, b: seq<Sample>)
    ensures Score(a) < Score(b) <==> Product(Between(a), Within(b) + EPS) < Product(Between(b), Within(a) + EPS)
  {
    QuotientOrder(Between(a), Between(b), Within(a) + EPS, Within(b) + EPS);
  }

  /** so with equal spread inside the groups, exactly when there is more between them. */
  lemma MoreBetweenScoresHigher(a: seq<Sample>, b: seq<Sample>)
    requires Within(a) == Within(b)
    ensures Score(a) < Score(b) <==> Between(a) < Between(b)
  {
    ScoresHigherIff(a, b);
    SameDivisors(Between(a), Between(b), Within(a) + EPS, Within(b) + EPS, Score(a), Score(b));
  }

  lemma SameDivisors(p: real, q: real, c: real, d: real, x: real, y: real)
    requires c == d > 0.0 && (x < y <==> Product(p, d) < Product(q, c))
    ensures x < y <==> p < q
  {
    SameDivisor(p, q, c);
  }

  lemma SameDivisor(x: real, y: real, k: real)
    requires k > 0.0
    ensures Product(x, k) < Product(y, k) <==> x < y
  {
    assert y * k - x * k == (y - x) * k;
    assert y > x ==> (y - x) * k > 0.0;
    assert y <= x ==> (x - y) * k >= 0.0;
  }

  lemma {:induction false} ScatterIsNonNegative(samples: seq<Sample>, s: set<int>, centers: int -> real)
    ensures Scatter(samples, s, centers) >= 0.0
  {
    if samples != [] {
      ScatterIsNonNegative(samples[..|samples| - 1], s, centers);
    }
  }

  function ScoreAt(scores: seq<real>, i: int): real {
    if 0 <= i < |scores| then scores[i] else 0.0
  }

  /** The order of `argsort`; equal scores keep their index order. */
  function Lower(scores: seq<real>): (int, int) -> bool {
    (i: int, j: int) => ScoreAt(scores, i) < ScoreAt(scores, j) || (ScoreAt(scores, i) == ScoreAt(scores, j) && i < j)
  }

  function IntLt(): (int, int) -> bool {
    (i: int, j: int) => i < j
  }

  function Range(n: nat): (r: seq<int>)
    ensures |r| == n && forall i :: 0 <= i < n ==> r[i] == i
  {
    seq(n, i => i)
  }

  lemma RangeHolds(n: nat)
    ensures forall x :: x in Range(n) <==> 0 <= x < n
  {
    forall x | 0 <= x < n ensures x in Range(n) {
      assert Range(n)[x] == x;
    }
  }

  function Reversed(s: seq<int>): (r: seq<int>)
    ensures |r| == |s| && forall i :: 0 <= i < |s| ==> r[i] == s[|s| - 1 - i]
  {
    seq(|s|, i requires 0 <= i < |s| => s[|s| - 1 - i])
  }

  /** Every feature once, best first. */
  ghost predicate IsRanking(scores: seq<real>, ranked: seq<int>) {
    && |ranked| == |scores|
    && (forall i :: i in ranked <==> 0 <= i < |scores|)
    && (forall i, j :: 0 <= i < j < |ranked| ==> ranked[i] != ranked[j])
    && (forall i, j :: 0 <= i < j < |ranked| ==> ScoreAt(scores, ranked[i]) >= ScoreAt(scores, ranked[j]))
  }

  lemma DistinctByMultiset(s: seq<int>, distinct: seq<int>)
    requires multiset(s) == multiset(distinct)
    requires forall i, j :: 0 <= i < j < |distinct| ==> distinct[i] != distinct[j]
    ensures forall i, j :: 0 <= i < j < |s| ==> s[i] != s[j]
    ensures |s| == |distinct| && forall x :: x in s <==> x in distinct
  {
    assert |multiset(s)| == |s| && |multiset(distinct)| == |distinct|;
    forall x ensures x in s <==> x in distinct {
      assert x in s <==> x in multiset(s);
      assert x in distinct <==> x in multiset(distinct);
    }
    forall i, j | 0 <= i < j < |s| ensures s[i] != s[j] {
      AtMostOnce(distinct, s[i]);
      Twice(s, i, j);
    }
  }

  lemma Twice(s: seq<int>, i: nat, j: nat)
    requires i < j < |s|
    ensures s[i] == s[j] ==> multiset(s)[s[i]] >= 2
  {
    assert s == s[..i] + [s[i]] + s[i + 1..j] + [s[j]] + s[j + 1..];
  }

  lemma {:induction false} AtMostOnce(s: seq<int>, x: int)
    requires forall i, j :: 0 <= i < j < |s| ==> s[i] != s[j]
    ensures multiset(s)[x] <= 1
  {
    if s != [] {
      var front, last := s[..|s| - 1], s[|s| - 1];
      assert s == front + [last];
      AtMostOnce(front, x);
      if x == last {
        assert x !in front;
        assert x !in multiset(front);
      }
    }
  }

  lemma LowerIsTotal(scores: seq<real>)
    ensures Scoring.Total(Lower(scores))
  {
  }

  lemma SortedAscends(scores: seq<real>, s: seq<int>)
    requires Scoring.Sorted(s, Lower(scores))
    ensures forall i, j :: 0 <= i < j < |s| ==> ScoreAt(scores, s[i]) <= ScoreAt(scores, s[j])
  {
    forall i, j | 0 <= i < j < |s| ensures ScoreAt(scores, s[i]) <= ScoreAt(scores, s[j]) {
      assert !Lower(scores)(s[j], s[i]);
    }
  }

  lemma SortPermutes(s: seq<int>, lt: (int, int) -> bool)
    requires Scoring.Total(lt)
    ensures Scoring.Sorted(Scoring.Sort(s, lt), lt) && multiset(Scoring.Sort(s, lt)) == multiset(s)
  {
    Scoring.SortSorts(s, lt);
  }

  /** `argsort` reversed. */
  method Rank(scores: seq<real>) returns (ranked: seq<int>)
    ensures IsRanking(scores, ranked)
  {
    var ascending := Scoring.Sort(Range(|scores|), Lower(scores));
    assert Scoring.Sorted(ascending, Lower(scores)) && multiset(ascending) == multiset(Range(|scores|)) by {
      LowerIsTotal(scores);
      SortPermutes(Range(|scores|), Lower(scores));
    }
    SortedAscends(scores, ascending);
    DistinctByMultiset(ascending, Range(|scores|));
    ranked := Reversed(ascending);
    ReversedHolds(ascending);
    RangeHolds(|scores|);
  }

  lemma ReversedHolds(s: seq<int>)
    ensures forall x :: x in Reversed(s) <==> x in s
  {
    forall x | x in s ensures x in Reversed(s) {
      var i :| 0 <= i < |s| && s[i] == x;
      assert Reversed(s)[|s| - 1 - i] == x;
    }
  }

  method ScoreFeature(samples: seq<Sample>) returns (score: real)
    ensures score == Score(samples)
  {
    var between, within := BetweenWithin(samples);
    score := between / (within + EPS);
  }

  ghost function Scores(columns: seq<seq<Sample>>): (r: seq<real>)
    ensures |r| == |columns|
  {
    if columns == [] then [] else Scores(columns[..|columns| - 1]) + [Score(columns[|columns| - 1])]
  }

  method ScoreAll(columns: seq<seq<Sample>>) returns (scores: seq<real>)
    ensures scores == Scores(columns)
  {
    scores := [];
    for f := 0 to |columns|
      invariant scores == Scores(columns[..f])
    {
      assert columns[..f + 1][..f] == columns[..f];
      var score := ScoreFeature(columns[f]);
      scores := scores + [score];
    }
    assert columns[..|columns|] == columns;
  }

  /** `rank_features_by_separation`, one column of samples per feature. */
  method RankFeatures(columns: seq<seq<Sample>>) returns (ranked: seq<int>)
    ensures IsRanking(Scores(columns), ranked)
  {
    var scores := ScoreAll(columns);
    ranked := Rank(scores);
  }

  /** The `k` best features in column order: no feature left out beats one that was taken. */
  method SelectTop(ghost scores: seq<real>, ranked: seq<int>, k: nat) returns (selected: seq<int>)
    requires IsRanking(scores, ranked)
    ensures |selected| == if k < |scores| then k else |scores|
    ensures forall i, j :: 0 <= i < j < |selected| ==> selected[i] < selected[j]
    ensures forall i :: i in selected ==> 0 <= i < |scores|
    ensures forall i, j :: i in selected && 0 <= j < |scores| && j !in selected ==> ScoreAt(scores, i) >= ScoreAt(scores, j)
  {
    var n := if k < |ranked| then k else |ranked|;
    var top := ranked[..n];
    selected := Scoring.Sort(top, IntLt());
    Scoring.SortSorts(top, IntLt());
    DistinctByMultiset(selected, top);
    assert forall i :: i in top ==> i in ranked;
    forall c | 0 <= c < n ensures ranked[c] in selected {
      assert top[c] == ranked[c];
    }
    forall i, j | i in selected && 0 <= j < |scores| && j !in selected ensures ScoreAt(scores, i) >= ScoreAt(scores, j) {
      assert j in ranked;
      var a, b :| 0 <= a < n && top[a] == i && 0 <= b < |ranked| && ranked[b] == j;
    }
    forall i, j | 0 <= i < j < |selected| ensures selected[i] < selected[j] {
      assert !IntLt()(selected[j], selected[i]);
    }
  }
}
