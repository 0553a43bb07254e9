/** The distilled forest.  Trees are arrays walked by index; the guest's `predict` and the exporter's
    `predict_from_exported_artifact` are two loops over them.  Both are proved against the forest
    read as ordinary decision trees, over exact reals. */
module Forest {
  import opened Statistics

  // ----- Arrays and trees -----

  datatype TreeData = TreeData(
    left: seq<int>,
    right: seq<int>,
    feature: seq<int>,
    threshold: seq<real>,
    leafValues: seq<seq<real>>)

  predicate IsLeaf(t: TreeData, node: nat)
    requires node < |t.left| == |t.right|
  {
    t.left[node] == -1 && t.right[node] == -1
  }

  /** The columns have one length; a split's children lie after it and inside the arrays, and its
      feature inside the vector; a leaf row has one non-negative value per class. */
  ghost predicate WellFormed(t: TreeData, inputDim: nat, nClasses: nat) {
    && 0 < |t.left| == |t.right| == |t.feature| == |t.threshold| == |t.leafValues|
    && (forall i :: 0 <= i < |t.left| && !IsLeaf(t, i) ==>
          && i < t.left[i] < |t.left| && i < t.right[i] < |t.left|
          && 0 <= t.feature[i] < inputDim)
    && (forall i :: 0 <= i < |t.left| && IsLeaf(t, i) ==>
          |t.leafValues[i]| == nClasses && forall c :: 0 <= c < nClasses ==> t.leafValues[i][c] >= 0.0)
  }

  datatype Tree = Leaf(values: seq<real>) | Split(feature: nat, threshold: real, low: Tree, high: Tree)

  function Decode(t: TreeData, inputDim: nat, nClasses: nat, node: nat): Tree
    requires WellFormed(t, inputDim, nClasses) && node < |t.left|
    decreases |t.left| - node
  {
    if IsLeaf(t, node) then Leaf(t.leafValues[node])
    else Split(t.feature[node], t.threshold[node],
               Decode(t, inputDim, nClasses, t.left[node]), Decode(t, inputDim, nClasses, t.right[node]))
  }

  function Eval(tree: Tree, x: seq<real>): seq<real> {
    match tree
    case Leaf(values) => values
    case Split(f, threshold, low, high) =>
      if f < |x| && x[f] <= threshold then Eval(low, x) else Eval(high, x)
  }

  /** The leaf the decoded tree gives to `x`. */
  function LeafFor(t: TreeData, nClasses: nat, x: seq<real>): (leaf: seq<real>)
    requires WellFormed(t, |x|, nClasses)
    ensures |leaf| == nClasses && forall c :: 0 <= c < nClasses ==> leaf[c] >= 0.0
  {
    EvalGivesLeaf(t, nClasses, x, 0);
    Eval(Decode(t, |x|, nClasses, 0), x)
  }

  /** Evaluation ends at the row of some leaf, so it has one non-negative value per class. */
  lemma {:induction false} EvalGivesLeaf(t: TreeData, nClasses: nat, x: seq<real>, node: nat)
    requires WellFormed(t, |x|, nClasses) && node < |t.left|
    ensures exists i :: 0 <= i < |t.left| && IsLeaf(t, i) && Eval(Decode(t, |x|, nClasses, node), x) == t.leafValues[i]
    decreases |t.left| - node
  {
    if !IsLeaf(t, node) {
      EvalGivesLeaf(t, nClasses, x, t.left[node]);
      EvalGivesLeaf(t, nClasses, x, t.right[node]);
    }
  }

  /** The walk terminates and ends at the leaf of the decoded tree. */
  method Traverse(t: TreeData, nClasses: nat, x: seq<real>) returns (leaf: seq<real>)
    requires WellFormed(t, |x|, nClasses)
    ensures leaf == LeafFor(t, nClasses, x)
  {
    var node := 0;
    while true
      invariant 0 <= node < |t.left|
      invariant Eval(Decode(t, |x|, nClasses, node), x) == LeafFor(t, nClasses, x)
      decreases |t.left| - node
    {
      var left, right := t.left[node], t.right[node];
      if left == -1 && right == -1 {
        return t.leafValues[node];
      }
      node := if x[t.feature[node]] <= t.threshold[node] then left else right;
    }
  }

  // ----- Vectors -----

  function Plus(a: seq<real>, b: seq<real>): (c: seq<real>)
    requires |a| == |b|
    ensures |c| == |a|
  {
    seq(|a|, i requires 0 <= i < |a| => a[i] + b[i])
  }

  function Over(a: seq<real>, d: real): (c: seq<real>)
    requires d != 0.0
    ensures |c| == |a|
  {
    seq(|a|, i requires 0 <= i < |a| => a[i] / d)
  }

  function Zeros(n: nat): (v: seq<real>)
    ensures |v| == n
  {
    seq(n, _ => 0.0)
  }

  lemma {:induction false} SumPlus(a: seq<real>, b: seq<real>)
    requires |a| == |b|
    ensures Sum(Plus(a, b)) == Sum(a) + Sum(b)
  {
    if a != [] {
      SumPlus(a[..|a| - 1], b[..|b| - 1]);
      assert Plus(a, b)[..|a| - 1] == Plus(a[..|a| - 1], b[..|b| - 1]);
    }
  }

  lemma {:induction false} SumOver(a: seq<real>, d: real)
    requires d != 0.0
    ensures Sum(Over(a, d)) == Sum(a) / d
  {
    if a != [] {
      SumOver(a[..|a| - 1], d);
      assert Over(a, d)[..|a| - 1] == Over(a[..|a| - 1], d);
    }
  }

  lemma {:induction false} SumZeros(n: nat)
    ensures Sum(Zeros(n)) == 0.0
  {
    if n > 0 {
      SumZeros(n - 1);
      assert Zeros(n)[..n - 1] == Zeros(n - 1);
    }
  }

  // ----- The vote -----

  ghost predicate ForestOk(trees: seq<TreeData>, x: seq<real>, nClasses: nat) {
    |trees| > 0 && nClasses > 0 && forall t :: t in trees ==> WellFormed(t, |x|, nClasses)
  }

  /** No tree sends `x` to a leaf without class mass. */
  ghost predicate HasMass(trees: seq<TreeData>, x: seq<real>, nClasses: nat)
    requires forall t :: t in trees ==> WellFormed(t, |x|, nClasses)
  {
    forall t :: t in trees ==> Sum(LeafFor(t, nClasses, x)) > 0.0
  }

  /** The sum of the trees' normalized leaves. */
  ghost function Votes(trees: seq<TreeData>, x: seq<real>, nClasses: nat): (v: seq<real>)
    requires (forall t :: t in trees ==> WellFormed(t, |x|, nClasses)) && HasMass(trees, x, nClasses)
    ensures |v| == nClasses
  {
    if trees == [] then Zeros(nClasses)
    else
      var leaf := LeafFor(trees[|trees| - 1], nClasses, x);
      Plus(Votes(trees[..|trees| - 1], x, nClasses), Over(leaf, Sum(leaf)))
  }

  /** The averaged class probabilities. */
  ghost function Probabilities(trees: seq<TreeData>, x: seq<real>, nClasses: nat): (p: seq<real>)
    requires ForestOk(trees, x, nClasses) && HasMass(trees, x, nClasses)
    ensures |p| == nClasses
  {
    Over(Votes(trees, x, nClasses), |trees| as real)
  }

  /** The least index of a maximal entry. */
  ghost predicate IsArgmax(p: seq<real>, b: nat) {
    && b < |p|
    && (forall c :: 0 <= c < |p| ==> p[c] <= p[b])
    && (forall c :: 0 <= c < b ==> p[c] < p[b])
  }

  function Clamp(x: real, lo: real, hi: real): real {
    if x < lo then lo else if x > hi then hi else x
  }

  function ConfidenceToBps(confidence: real): (bps: nat)
    ensures bps <= 10000
  {
    var rounded := (Clamp(confidence, 0.0, 1.0) * 10000.0 + 0.5).Floor;
    if rounded < 0 then 0 else if rounded > 10000 then 10000 else rounded
  }

  datatype Prediction = Prediction(bucket: nat, confidence: real, bps: nat)

  /** The answer both implementations must give. */
  ghost predicate Predicts(trees: seq<TreeData>, x: seq<real>, nClasses: nat, r: Prediction)
    requires ForestOk(trees, x, nClasses) && HasMass(trees, x, nClasses)
  {
    var p := Probabilities(trees, x, nClasses);
    IsArgmax(p, r.bucket) && r.confidence == p[r.bucket] && r.bps == ConfidenceToBps(r.confidence)
  }

  lemma PredictionIsUnique(trees: seq<TreeData>, x: seq<real>, nClasses: nat, r: Prediction, r': Prediction)
    requires ForestOk(trees, x, nClasses) && HasMass(trees, x, nClasses)
    requires Predicts(trees, x, nClasses, r) && Predicts(trees, x, nClasses, r')
    ensures r == r'
  {
    var p := Probabilities(trees, x, nClasses);
    assert p[r.bucket] <= p[r'.bucket] && p[r'.bucket] <= p[r.bucket];
  }

  // ----- The guest -----

  method Total(leaf: seq<real>) returns (total: real)
    ensures total == Sum(leaf)
  {
    total := 0.0;
    for i := 0 to |leaf|
      invariant total == Sum(leaf[..i])
    {
      assert leaf[..i + 1][..i] == leaf[..i];
      total := total + leaf[i];
    }
    assert leaf[..|leaf|] == leaf;
  }

  method AddNormalized(probs: array<real>, leaf: seq<real>, total: real)
    requires probs.Length == |leaf| && total != 0.0
    modifies probs
    ensures probs[..] == Plus(old(probs[..]), Over(leaf, total))
  {
    for c := 0 to probs.Length
      invariant forall d :: 0 <= d < c ==> probs[d] == old(probs[d]) + leaf[d] / total
      invariant forall d :: c <= d < probs.Length ==> probs[d] == old(probs[d])
    {
      probs[c] := probs[c] + leaf[c] / total;
    }
  }

  method DivideAll(probs: array<real>, n: real)
    requires n != 0.0
    modifies probs
    ensures probs[..] == Over(old(probs[..]), n)
  {
    for c := 0 to probs.Length
      invariant forall d :: 0 <= d < c ==> probs[d] == old(probs[d]) / n
      invariant forall d :: c <= d < probs.Length ==> probs[d] == old(probs[d])
    {
      probs[c] := probs[c] / n;
    }
  }

  method FirstMaximum(probs: array<real>) returns (bucket: nat)
    requires probs.Length > 0
    ensures IsArgmax(probs[..], bucket)
  {
    bucket := 0;
    for c := 1 to probs.Length
      invariant 0 <= bucket < c
      invariant forall d :: 0 <= d < c ==> probs[d] <= probs[bucket]
      invariant forall d :: 0 <= d < bucket ==> probs[d] < probs[bucket]
    {
      if probs[c] > probs[bucket] {
        bucket := c;
      }
    }
  }

  /** A prediction, or a leaf without class mass: the guest's debug assertion, the exporter's exception. */
  datatype Result = Predicted(r: Prediction) | ZeroMassError

  /** One tree's share; false is the debug assertion, before anything is added. */
  method AddVote(probs: array<real>, t: TreeData, nClasses: nat, x: seq<real>) returns (ok: bool)
    requires WellFormed(t, |x|, nClasses) && probs.Length == nClasses
    modifies probs
    ensures ok <==> Sum(LeafFor(t, nClasses, x)) > 0.0
    ensures probs[..] == if ok then Plus(old(probs[..]), Over(LeafFor(t, nClasses, x), Sum(LeafFor(t, nClasses, x)))) else old(probs[..])
  {
    var leaf := Traverse(t, nClasses, x);
    var total := Total(leaf);
    ok := total > 0.0;
    if ok {
      AddNormalized(probs, leaf, total);
    }
  }

  /** The votes of the first `k` trees, all with mass. */
  ghost predicate VotesOf(trees: seq<TreeData>, k: nat, x: seq<real>, nClasses: nat, votes: seq<real>)
    requires k <= |trees| && ForestOk(trees, x, nClasses)
  {
    HasMass(trees[..k], x, nClasses) && votes == Votes(trees[..k], x, nClasses)
  }

  lemma NextVote(trees: seq<TreeData>, k: nat, x: seq<real>, nClasses: nat, votes: seq<real>)
    requires ForestOk(trees, x, nClasses) && k < |trees| && VotesOf(trees, k, x, nClasses, votes)
    requires Sum(LeafFor(trees[k], nClasses, x)) > 0.0
    ensures |votes| == nClasses
    ensures VotesOf(trees, k + 1, x, nClasses, Plus(votes, Over(LeafFor(trees[k], nClasses, x), Sum(LeafFor(trees[k], nClasses, x)))))
  {
    assert trees[..k + 1] == trees[..k] + [trees[k]];
    assert trees[..k + 1][..k] == trees[..k];
  }

  lemma AllVotes(trees: seq<TreeData>, x: seq<real>, nClasses: nat, votes: seq<real>)
    requires ForestOk(trees, x, nClasses) && VotesOf(trees, |trees|, x, nClasses, votes)
    ensures HasMass(trees, x, nClasses) && Over(votes, |trees| as real) == Probabilities(trees, x, nClasses)
  {
    assert trees[..|trees|] == trees;
  }

  method GuestPredict(trees: seq<TreeData>, nEstimators: nat, nClasses: nat, x: seq<real>) returns (r: Result)
    requires ForestOk(trees, x, nClasses) && nEstimators == |trees|
    ensures r.ZeroMassError? <==> !HasMass(trees, x, nClasses)
    ensures r.Predicted? ==> Predicts(trees, x, nClasses, r.r)
  {
    var probs := new real[nClasses](_ => 0.0);
    assert probs[..] == Votes(trees[..0], x, nClasses);
    for k := 0 to |trees|
      invariant VotesOf(trees, k, x, nClasses, probs[..])
    {
      ghost var votes := probs[..];
      var ok := AddVote(probs, trees[k], nClasses, x);
      if !ok {
        assert trees[k] in trees;
        return ZeroMassError;
      }
      NextVote(trees, k, x, nClasses, votes);
    }
    AllVotes(trees, x, nClasses, probs[..]);
    DivideAll(probs, nEstimators as real);
    var bucket := FirstMaximum(probs);
    return Predicted(Prediction(bucket, probs[bucket], ConfidenceToBps(probs[bucket])));
  }

  // ----- The exporter's reference -----

  /** `np.argmax`: the first occurrence of the maximum. */
  function Argmax(p: seq<real>): (b: nat)
    requires |p| > 0
    ensures IsArgmax(p, b)
  {
    var last := |p| - 1;
    if last == 0 then 0
    else
      var b := Argmax(p[..last]);
      if p[last] > p[b] then last else b
  }

  /** It raises exactly when some tree sends the vector to a leaf without mass. */
  method ExportedPredict(trees: seq<TreeData>, nEstimators: nat, nClasses: nat, x: seq<real>) returns (r: Result)
    requires ForestOk(trees, x, nClasses) && nEstimators == |trees|
    ensures r.ZeroMassError? <==> !HasMass(trees, x, nClasses)
    ensures r.Predicted? ==> Predicts(trees, x, nClasses, r.r)
  {
    var probs := Zeros(nClasses);
    assert probs == Votes(trees[..0], x, nClasses);
    for k := 0 to |trees|
      invariant VotesOf(trees, k, x, nClasses, probs)
    {
      var leaf := Traverse(trees[k], nClasses, x);
      var total := Total(leaf);
      if total <= 0.0 {
        assert trees[k] in trees;
        return ZeroMassError;
      }
      NextVote(trees, k, x, nClasses, probs);
      probs := Plus(probs, Over(leaf, total));
    }
    AllVotes(trees, x, nClasses, probs);
    probs := Over(probs, nEstimators as real);
    var bucket := Argmax(probs);
    return Predicted(Prediction(bucket, probs[bucket], ConfidenceToBps(probs[bucket])));
  }

  /** For every forest and vector both fail, exactly when some reached leaf has no mass, or both give
      the same bucket and basis points. */
  method Parity(trees: seq<TreeData>, nClasses: nat, x: seq<real>) returns (guest: Result, reference: Result)
    requires ForestOk(trees, x, nClasses)
    ensures guest == reference
    ensures guest.ZeroMassError? <==> !HasMass(trees, x, nClasses)
    ensures guest.Predicted? ==> Predicts(trees, x, nClasses, guest.r)
  {
    guest := GuestPredict(trees, |trees|, nClasses, x);
    reference := ExportedPredict(trees, |trees|, nClasses, x);
    if guest.Predicted? {
      PredictionIsUnique(trees, x, nClasses, guest.r, reference.r);
    }
  }

  // ----- What the answer means -----

  ghost predicate NonNegative(v: seq<real>) {
    forall i :: 0 <= i < |v| ==> v[i] >= 0.0
  }

  lemma OverNonNegative(v: seq<real>, d: real)
    requires NonNegative(v) && d > 0.0
    ensures NonNegative(Over(v, d))
  {
  }

  lemma {:induction false} VotesMass(trees: seq<TreeData>, x: seq<real>, nClasses: nat)
    requires (forall t :: t in trees ==> WellFormed(t, |x|, nClasses)) && HasMass(trees, x, nClasses)
    ensures Sum(Votes(trees, x, nClasses)) == |trees| as real
    ensures NonNegative(Votes(trees, x, nClasses))
  {
    if trees == [] {
      SumZeros(nClasses);
    } else {
      var front := trees[..|trees| - 1];
      var leaf := LeafFor(trees[|trees| - 1], nClasses, x);
      VotesMass(front, x, nClasses);
      OneVote(leaf);
      SumPlus(Votes(front, x, nClasses), Over(leaf, Sum(leaf)));
    }
  }

  lemma DivSelf(d: real)
    requires d != 0.0
    ensures d / d == 1.0
  {
  }

  /** A normalized leaf is one whole vote. */
  lemma OneVote(leaf: seq<real>)
    requires NonNegative(leaf) && Sum(leaf) > 0.0
    ensures Sum(Over(leaf, Sum(leaf))) == 1.0 && NonNegative(Over(leaf, Sum(leaf)))
  {
    SumOver(leaf, Sum(leaf));
    DivSelf(Sum(leaf));
    OverNonNegative(leaf, Sum(leaf));
  }

  lemma {:induction false} SumAtMost(v: seq<real>, m: real)
    requires forall i :: 0 <= i < |v| ==> v[i] <= m
    ensures Sum(v) <= |v| as real * m
  {
    if v != [] {
      SumAtMost(v[..|v| - 1], m);
      assert |v| as real * m == (|v| - 1) as real * m + m;
    }
  }

  lemma {:induction false} EntryAtMostSum(v: seq<real>, i: nat)
    requires NonNegative(v) && i < |v|
    ensures v[i] <= Sum(v)
  {
    SumNonNegative(v[..|v| - 1]);
    if i < |v| - 1 {
      EntryAtMostSum(v[..|v| - 1], i);
    }
  }

  lemma {:induction false} SumNonNegative(v: seq<real>)
    requires NonNegative(v)
    ensures Sum(v) >= 0.0
  {
    if v != [] {
      SumNonNegative(v[..|v| - 1]);
    }
  }

  /** The averaged votes are a probability distribution for every forest and vector. */
  lemma ProbabilitiesAreADistribution(trees: seq<TreeData>, x: seq<real>, nClasses: nat)
    requires ForestOk(trees, x, nClasses) && HasMass(trees, x, nClasses)
    ensures Sum(Probabilities(trees, x, nClasses)) == 1.0
    ensures forall c :: 0 <= c < nClasses ==> 0.0 <= Probabilities(trees, x, nClasses)[c] <= 1.0
  {
    var votes, p := Votes(trees, x, nClasses), Probabilities(trees, x, nClasses);
    VotesMass(trees, x, nClasses);
    SumOver(votes, |trees| as real);
    OverNonNegative(votes, |trees| as real);
    DivSelf(|trees| as real);
    forall c | 0 <= c < nClasses ensures 0.0 <= p[c] <= 1.0 {
      EntryAtMostSum(p, c);
    }
  }

  /** One tree's share for a class: its part of the leaf's mass. */
  ghost function Shares(trees: seq<TreeData>, x: seq<real>, nClasses: nat, c: nat): (r: seq<real>)
    requires (forall t :: t in trees ==> WellFormed(t, |x|, nClasses)) && HasMass(trees, x, nClasses) && c < nClasses
    ensures |r| == |trees|
  {
    seq(|trees|, i requires 0 <= i < |trees| =>
      assert trees[i] in trees;
      LeafFor(trees[i], nClasses, x)[c] / Sum(LeafFor(trees[i], nClasses, x)))
  }

  lemma {:induction false} VotesOfClass(trees: seq<TreeData>, x: seq<real>, nClasses: nat, c: nat)
    requires (forall t :: t in trees ==> WellFormed(t, |x|, nClasses)) && HasMass(trees, x, nClasses) && c < nClasses
    ensures Votes(trees, x, nClasses)[c] == Sum(Shares(trees, x, nClasses, c))
  {
    if trees != [] {
      VotesOfClass(trees[..|trees| - 1], x, nClasses, c);
      assert Shares(trees, x, nClasses, c)[..|trees| - 1] == Shares(trees[..|trees| - 1], x, nClasses, c);
    }
  }

  /** The probability of a class is the mean, over the trees, of its part of the leaf each one reaches. */
  lemma ProbabilityOfClass(trees: seq<TreeData>, x: seq<real>, nClasses: nat, c: nat)
    requires ForestOk(trees, x, nClasses) && HasMass(trees, x, nClasses) && c < nClasses
    ensures Probabilities(trees, x, nClasses)[c] == Mean(Shares(trees, x, nClasses, c))
  {
    VotesOfClass(trees, x, nClasses, c);
  }

  /** Half-up rounding: within half a basis point, and the clamps do nothing on [0, 1]. */
  lemma BpsRounds(confidence: real)
    requires 0.0 <= confidence <= 1.0
    ensures ConfidenceToBps(confidence) == (confidence * 10000.0 + 0.5).Floor
    ensures -0.5 < ConfidenceToBps(confidence) as real - confidence * 10000.0 <= 0.5
  {
  }

  /** The predicted confidence is a winner's: at least 1 / nClasses, at most one; the clamps never
      bite; the basis points are within one half of it. */
  lemma PredictionMeaning(trees: seq<TreeData>, x: seq<real>, nClasses: nat, r: Prediction)
    requires ForestOk(trees, x, nClasses) && HasMass(trees, x, nClasses)
    requires Predicts(trees, x, nClasses, r)
    ensures r.confidence * nClasses as real >= 1.0 && r.confidence <= 1.0
    ensures Clamp(r.confidence, 0.0, 1.0) == r.confidence
    ensures r.bps == (r.confidence * 10000.0 + 0.5).Floor
    ensures -0.5 < r.bps as real - r.confidence * 10000.0 <= 0.5
  {
    var p := Probabilities(trees, x, nClasses);
    ProbabilitiesAreADistribution(trees, x, nClasses);
    SumAtMost(p, r.confidence);
    BpsRounds(r.confidence);
  }
}
