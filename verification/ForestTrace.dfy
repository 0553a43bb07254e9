/** Branch traces of the exported forest, and the near-threshold probes built on them: which split
    nodes a changed vector still reaches, in the exported trace and in the trace on inputs rounded
    to lower precision. */
module ForestTrace {
  import opened Common
  import opened Forest

  datatype Step = Step(tree: nat, node: nat, feature: nat, threshold: real, value: real, wentLeft: bool)

  /** Besides being well-formed, no node is the child of two splits, or twice of one. */
  ghost predicate UniqueParents(t: TreeData, inputDim: nat, nClasses: nat)
    requires WellFormed(t, inputDim, nClasses)
  {
    && (forall i :: 0 <= i < |t.left| && !IsLeaf(t, i) ==> t.left[i] != t.right[i])
    && (forall i, j :: 0 <= i < |t.left| && 0 <= j < |t.left| && i != j && !IsLeaf(t, i) && !IsLeaf(t, j) ==>
          t.left[i] != t.left[j] && t.left[i] != t.right[j] && t.right[i] != t.right[j])
  }

  function GoesLeft(t: TreeData, nClasses: nat, x: seq<real>, node: nat): bool
    requires WellFormed(t, |x|, nClasses) && node < |t.left| && !IsLeaf(t, node)
  {
    x[t.feature[node]] <= t.threshold[node]
  }

  function Child(t: TreeData, nClasses: nat, x: seq<real>, node: nat): (c: nat)
    requires WellFormed(t, |x|, nClasses) && node < |t.left| && !IsLeaf(t, node)
    ensures node < c < |t.left|
  {
    if GoesLeft(t, nClasses, x, node) then t.left[node] else t.right[node]
  }

  /** The split nodes visited from `node` down. */
  function Path(t: TreeData, nClasses: nat, x: seq<real>, node: nat): (path: seq<nat>)
    requires WellFormed(t, |x|, nClasses) && node < |t.left|
    ensures forall v :: v in path ==> v < |t.left| && !IsLeaf(t, v)
    decreases |t.left| - node
  {
    if IsLeaf(t, node) then [] else [node] + Path(t, nClasses, x, Child(t, nClasses, x, node))
  }

  function StepAt(t: TreeData, nClasses: nat, id: nat, x: seq<real>, node: nat): Step
    requires WellFormed(t, |x|, nClasses) && node < |t.left| && !IsLeaf(t, node)
  {
    Step(id, node, t.feature[node], t.threshold[node], x[t.feature[node]], GoesLeft(t, nClasses, x, node))
  }

  /** One step per visited split. */
  function Trace(t: TreeData, nClasses: nat, id: nat, x: seq<real>): (steps: seq<Step>)
    requires WellFormed(t, |x|, nClasses) && |t.left| > 0
    ensures |steps| == |Path(t, nClasses, x, 0)|
    ensures forall k :: 0 <= k < |steps| ==> steps[k].node == Path(t, nClasses, x, 0)[k] && steps[k].feature < |x|
    ensures forall k :: 0 <= k < |steps| ==>
      steps[k].node < |t.left| && !IsLeaf(t, steps[k].node) && steps[k] == StepAt(t, nClasses, id, x, steps[k].node)
  {
    var path := Path(t, nClasses, x, 0);
    assert forall k :: 0 <= k < |path| ==> path[k] in path;
    seq(|path|, k requires 0 <= k < |path| => StepAt(t, nClasses, id, x, path[k]))
  }

  /** Where the rest of a path begins at a split, it goes on at that split's child. */
  lemma PathTail(t: TreeData, nClasses: nat, x: seq<real>, path: seq<nat>, k: nat, node: nat)
    requires WellFormed(t, |x|, nClasses) && node < |t.left| && !IsLeaf(t, node)
    requires k <= |path| && path[k..] == Path(t, nClasses, x, node)
    ensures k < |path| && path[k] == node && path[k + 1..] == Path(t, nClasses, x, Child(t, nClasses, x, node))
  {
    assert path[k..][0] == node;
    assert path[k + 1..] == path[k..][1..];
  }

  /** The first steps of a trace. */
  ghost predicate Traced(t: TreeData, nClasses: nat, id: nat, x: seq<real>, path: seq<nat>, steps: seq<Step>)
    requires WellFormed(t, |x|, nClasses)
  {
    && |steps| <= |path|
    && forall k :: 0 <= k < |steps| ==> path[k] < |t.left| && !IsLeaf(t, path[k]) && steps[k] == StepAt(t, nClasses, id, x, path[k])
  }

  lemma WholeTrace(t: TreeData, nClasses: nat, id: nat, x: seq<real>, steps: seq<Step>)
    requires WellFormed(t, |x|, nClasses)
    requires Traced(t, nClasses, id, x, Path(t, nClasses, x, 0), steps) && |steps| == |Path(t, nClasses, x, 0)|
    ensures steps == Trace(t, nClasses, id, x)
  {
    var trace := Trace(t, nClasses, id, x);
    assert forall k :: 0 <= k < |steps| ==> steps[k] == trace[k];
  }

  method TraceTree(t: TreeData, nClasses: nat, id: nat, x: seq<real>) returns (steps: seq<Step>)
    requires WellFormed(t, |x|, nClasses)
    ensures steps == Trace(t, nClasses, id, x)
  {
    steps := [];
    ghost var path := Path(t, nClasses, x, 0);
    var node := 0;
    while true
      invariant 0 <= node < |t.left|
      invariant Traced(t, nClasses, id, x, path, steps) && path[|steps|..] == Path(t, nClasses, x, node)
      decreases |t.left| - node
    {
      var left, right := t.left[node], t.right[node];
      if left == -1 && right == -1 {
        WholeTrace(t, nClasses, id, x, steps);
        return;
      }
      PathTail(t, nClasses, x, path, |steps|, node);
      var feature, threshold := t.feature[node], t.threshold[node];
      var value := x[feature];
      var wentLeft := value <= threshold;
      steps := steps + [Step(id, node, feature, threshold, value, wentLeft)];
      node := if wentLeft then left else right;
    }
  }

  // ----- The trace and the prediction -----

  /** Where a path ends: the child its last split takes, or the node itself. */
  function PathEnd(t: TreeData, nClasses: nat, x: seq<real>, node: nat): (end: nat)
    requires WellFormed(t, |x|, nClasses) && node < |t.left|
    ensures end < |t.left|
  {
    var path := Path(t, nClasses, x, node);
    assert path != [] ==> path[|path| - 1] in path;
    if path == [] then node else Child(t, nClasses, x, path[|path| - 1])
  }

  /** The node after split `k` of a path. */
  function After(t: TreeData, nClasses: nat, x: seq<real>, node: nat, k: nat): (next: nat)
    requires WellFormed(t, |x|, nClasses) && node < |t.left| && k < |Path(t, nClasses, x, node)|
  {
    if k + 1 < |Path(t, nClasses, x, node)| then Path(t, nClasses, x, node)[k + 1] else PathEnd(t, nClasses, x, node)
  }

  lemma EndOfRest(t: TreeData, nClasses: nat, x: seq<real>, node: nat)
    requires WellFormed(t, |x|, nClasses) && node < |t.left| && !IsLeaf(t, node)
    ensures var c := Child(t, nClasses, x, node);
            Path(t, nClasses, x, node) == [node] + Path(t, nClasses, x, c) && PathEnd(t, nClasses, x, node) == PathEnd(t, nClasses, x, c)
  {
    var path, rest := Path(t, nClasses, x, node), Path(t, nClasses, x, Child(t, nClasses, x, node));
    assert rest != [] ==> path[|path| - 1] == rest[|rest| - 1];
  }

  /** From each split of a path the walk goes on to its left child if the tested value is at most the
      threshold, and to its right child otherwise. */
  lemma {:induction false} PathBranches(t: TreeData, nClasses: nat, x: seq<real>, node: nat, k: nat)
    requires WellFormed(t, |x|, nClasses) && node < |t.left| && k < |Path(t, nClasses, x, node)|
    ensures var v := Path(t, nClasses, x, node)[k];
            && Path(t, nClasses, x, node)[0] == node
            && v < |t.left| && 0 <= t.feature[v] < |x|
            && After(t, nClasses, x, node, k) == if x[t.feature[v]] <= t.threshold[v] then t.left[v] else t.right[v]
    decreases |t.left| - node
  {
    var path := Path(t, nClasses, x, node);
    assert path[k] in path;
    EndOfRest(t, nClasses, x, node);
    if k > 0 {
      PathBranches(t, nClasses, x, Child(t, nClasses, x, node), k - 1);
    }
  }

  /** A path ends at a leaf, and its row is what the decoded tree evaluates to. */
  lemma {:induction false} LeafAtPathEnd(t: TreeData, nClasses: nat, x: seq<real>, node: nat)
    requires WellFormed(t, |x|, nClasses) && node < |t.left|
    ensures var end := PathEnd(t, nClasses, x, node);
            IsLeaf(t, end) && Eval(Decode(t, |x|, nClasses, node), x) == t.leafValues[end]
    decreases |t.left| - node
  {
    if !IsLeaf(t, node) {
      LeafAtPathEnd(t, nClasses, x, Child(t, nClasses, x, node));
      EndOfRest(t, nClasses, x, node);
    }
  }

  /** So a tree votes with the row of the leaf where its trace ends. */
  lemma VoteIsTraced(t: TreeData, nClasses: nat, x: seq<real>)
    requires WellFormed(t, |x|, nClasses)
    ensures IsLeaf(t, PathEnd(t, nClasses, x, 0)) && LeafFor(t, nClasses, x) == t.leafValues[PathEnd(t, nClasses, x, 0)]
  {
    LeafAtPathEnd(t, nClasses, x, 0);
  }

  /** `y` decides as `x` does at every split of `x`'s path. */
  ghost predicate AgreesThroughout(t: TreeData, nClasses: nat, x: seq<real>, y: seq<real>, node: nat)
    requires |x| == |y| && WellFormed(t, |x|, nClasses) && node < |t.left|
  {
    forall v :: v in Path(t, nClasses, x, node) ==> v < |t.left| && !IsLeaf(t, v) && GoesLeft(t, nClasses, x, v) == GoesLeft(t, nClasses, y, v)
  }

  lemma {:induction false} SameEnd(t: TreeData, nClasses: nat, x: seq<real>, y: seq<real>, node: nat)
    requires |x| == |y| && WellFormed(t, |x|, nClasses) && node < |t.left| && AgreesThroughout(t, nClasses, x, y, node)
    ensures Path(t, nClasses, y, node) == Path(t, nClasses, x, node) && PathEnd(t, nClasses, y, node) == PathEnd(t, nClasses, x, node)
    decreases |t.left| - node
  {
    if !IsLeaf(t, node) {
      EndOfRest(t, nClasses, x, node);
      EndOfRest(t, nClasses, y, node);
      assert node in Path(t, nClasses, x, node);
      SameEnd(t, nClasses, x, y, Child(t, nClasses, x, node));
    }
  }

  lemma SameVote(t: TreeData, nClasses: nat, x: seq<real>, y: seq<real>)
    requires |x| == |y| && WellFormed(t, |x|, nClasses) && AgreesThroughout(t, nClasses, x, y, 0)
    ensures LeafFor(t, nClasses, y) == LeafFor(t, nClasses, x)
  {
    SameEnd(t, nClasses, x, y, 0);
    VoteIsTraced(t, nClasses, x);
    VoteIsTraced(t, nClasses, y);
  }

  lemma {:induction false} SameVotes(trees: seq<TreeData>, x: seq<real>, y: seq<real>, nClasses: nat)
    requires |x| == |y| && (forall t :: t in trees ==> WellFormed(t, |x|, nClasses))
    requires forall t :: t in trees ==> LeafFor(t, nClasses, y) == LeafFor(t, nClasses, x)
    ensures HasMass(trees, y, nClasses) <==> HasMass(trees, x, nClasses)
    ensures HasMass(trees, x, nClasses) ==> Votes(trees, y, nClasses) == Votes(trees, x, nClasses)
  {
    if trees != [] {
      assert trees[|trees| - 1] in trees;
      SameVotes(trees[..|trees| - 1], x, y, nClasses);
    }
  }

  /** Two vectors that every tree's splits decide alike get the same prediction: what is predicted is a
      function of the traces. */
  lemma TracesDecide(trees: seq<TreeData>, x: seq<real>, y: seq<real>, nClasses: nat, r: Prediction)
    requires |x| == |y| && ForestOk(trees, x, nClasses)
    requires forall t :: t in trees ==> AgreesThroughout(t, nClasses, x, y, 0)
    ensures HasMass(trees, y, nClasses) <==> HasMass(trees, x, nClasses)
    ensures HasMass(trees, x, nClasses) ==> (Predicts(trees, y, nClasses, r) <==> Predicts(trees, x, nClasses, r))
  {
    forall t | t in trees ensures LeafFor(t, nClasses, y) == LeafFor(t, nClasses, x) {
      SameVote(t, nClasses, x, y);
    }
    SameVotes(trees, x, y, nClasses);
  }

  // ----- Nodes below a node -----

  ghost function Under(t: TreeData, inputDim: nat, nClasses: nat, node: nat): (s: set<nat>)
    requires WellFormed(t, inputDim, nClasses) && node < |t.left|
    ensures forall v :: v in s ==> node <= v < |t.left|
    decreases |t.left| - node
  {
    if IsLeaf(t, node) then {node}
    else {node} + Under(t, inputDim, nClasses, t.left[node]) + Under(t, inputDim, nClasses, t.right[node])
  }

  ghost predicate IsChild(t: TreeData, p: nat, v: nat)
    requires p < |t.left| == |t.right|
  {
    !IsLeaf(t, p) && (t.left[p] == v || t.right[p] == v)
  }

  /** Every node below `a` other than `a` has its parent below `a`. */
  ghost function ParentOf(t: TreeData, inputDim: nat, nClasses: nat, a: nat, v: nat): (p: nat)
    requires WellFormed(t, inputDim, nClasses) && a < |t.left|
    requires v in Under(t, inputDim, nClasses, a) && v != a
    ensures p < v && p in Under(t, inputDim, nClasses, a) && IsChild(t, p, v)
    decreases |t.left| - a
  {
    if v == t.left[a] || v == t.right[a] then a
    else if v in Under(t, inputDim, nClasses, t.left[a]) then ParentOf(t, inputDim, nClasses, t.left[a], v)
    else ParentOf(t, inputDim, nClasses, t.right[a], v)
  }

  lemma ParentUnique(t: TreeData, inputDim: nat, nClasses: nat, p: nat, q: nat, v: nat)
    requires WellFormed(t, inputDim, nClasses) && UniqueParents(t, inputDim, nClasses)
    requires p < |t.left| && q < |t.left| && IsChild(t, p, v) && IsChild(t, q, v)
    ensures p == q
  {
  }

  /** The two subtrees of a split share no node. */
  lemma {:induction false} SiblingsDisjoint(t: TreeData, inputDim: nat, nClasses: nat, p: nat, v: nat)
    requires WellFormed(t, inputDim, nClasses) && UniqueParents(t, inputDim, nClasses)
    requires p < |t.left| && !IsLeaf(t, p)
    ensures !(v in Under(t, inputDim, nClasses, t.left[p]) && v in Under(t, inputDim, nClasses, t.right[p]))
    decreases v
  {
    var a, b := t.left[p], t.right[p];
    if v in Under(t, inputDim, nClasses, a) && v in Under(t, inputDim, nClasses, b) {
      var u := if v == a then p else ParentOf(t, inputDim, nClasses, a, v);
      var w := if v == b then p else ParentOf(t, inputDim, nClasses, b, v);
      ParentUnique(t, inputDim, nClasses, u, w, v);
      SiblingsDisjoint(t, inputDim, nClasses, p, u);
    }
  }

  lemma {:induction false} PathStaysBelow(t: TreeData, nClasses: nat, x: seq<real>, node: nat, v: nat)
    requires WellFormed(t, |x|, nClasses) && node < |t.left| && v in Path(t, nClasses, x, node)
    ensures v in Under(t, |x|, nClasses, node)
    decreases |t.left| - node
  {
    if v != node {
      PathStaysBelow(t, nClasses, x, Child(t, nClasses, x, node), v);
    }
  }

  // ----- Two vectors on one tree -----

  /** `y` decides as `x` does at each of the first `k` splits of `x`'s path. */
  ghost predicate AgreesBefore(t: TreeData, nClasses: nat, x: seq<real>, y: seq<real>, node: nat, k: nat)
    requires |x| == |y| && WellFormed(t, |x|, nClasses) && node < |t.left| && k <= |Path(t, nClasses, x, node)|
  {
    forall v :: v in Path(t, nClasses, x, node)[..k] ==>
      v < |t.left| && !IsLeaf(t, v) && GoesLeft(t, nClasses, x, v) == GoesLeft(t, nClasses, y, v)
  }

  lemma PrefixUnfolds(t: TreeData, nClasses: nat, x: seq<real>, node: nat, k: nat)
    requires WellFormed(t, |x|, nClasses) && node < |t.left| && 0 < k <= |Path(t, nClasses, x, node)|
    ensures |Path(t, nClasses, x, node)| == 1 + |Path(t, nClasses, x, Child(t, nClasses, x, node))|
    ensures Path(t, nClasses, x, node)[..k] == [node] + Path(t, nClasses, x, Child(t, nClasses, x, node))[..k - 1]
  {
    assert !IsLeaf(t, node);
    assert Path(t, nClasses, x, node) == [node] + Path(t, nClasses, x, Child(t, nClasses, x, node));
  }

  lemma InPrefix(t: TreeData, nClasses: nat, x: seq<real>, node: nat, k: nat, v: nat)
    requires WellFormed(t, |x|, nClasses) && node < |t.left| && 0 < k <= |Path(t, nClasses, x, node)|
    requires v in Path(t, nClasses, x, Child(t, nClasses, x, node))[..k - 1]
    ensures v in Path(t, nClasses, x, node)[..k]
  {
    PrefixUnfolds(t, nClasses, x, node, k);
  }

  lemma AgreesToChild(t: TreeData, nClasses: nat, x: seq<real>, y: seq<real>, node: nat, k: nat)
    requires |x| == |y| && WellFormed(t, |x|, nClasses) && node < |t.left| && 0 < k < |Path(t, nClasses, x, node)|
    requires AgreesBefore(t, nClasses, x, y, node, k)
    ensures k - 1 < |Path(t, nClasses, x, Child(t, nClasses, x, node))|
    ensures AgreesBefore(t, nClasses, x, y, Child(t, nClasses, x, node), k - 1)
  {
    PrefixUnfolds(t, nClasses, x, node, k);
    forall v | v in Path(t, nClasses, x, Child(t, nClasses, x, node))[..k - 1]
      ensures v < |t.left| && !IsLeaf(t, v) && GoesLeft(t, nClasses, x, v) == GoesLeft(t, nClasses, y, v)
    {
      InPrefix(t, nClasses, x, node, k, v);
    }
  }

  /** As long as `y` agrees with `x`, its path is the same. */
  lemma {:induction false} SamePathWhileAgreeing(t: TreeData, nClasses: nat, x: seq<real>, y: seq<real>, node: nat, k: nat)
    requires |x| == |y| && WellFormed(t, |x|, nClasses) && node < |t.left| && k < |Path(t, nClasses, x, node)|
    requires AgreesBefore(t, nClasses, x, y, node, k)
    ensures k < |Path(t, nClasses, y, node)|
    ensures Path(t, nClasses, y, node)[..k + 1] == Path(t, nClasses, x, node)[..k + 1]
    decreases |t.left| - node
  {
    if k > 0 {
      var c := Child(t, nClasses, x, node);
      PrefixUnfolds(t, nClasses, x, node, k);
      PrefixUnfolds(t, nClasses, x, node, k + 1);
      assert node in Path(t, nClasses, x, node)[..k];
      assert Child(t, nClasses, y, node) == c;
      AgreesToChild(t, nClasses, x, y, node, k);
      SamePathWhileAgreeing(t, nClasses, x, y, c, k - 1);
      PrefixUnfolds(t, nClasses, y, node, k + 1);
    }
  }

  /** Once the two paths take different children, the rest of one is never visited by the other. */
  lemma PartedHere(t: TreeData, nClasses: nat, x: seq<real>, y: seq<real>, node: nat, v: nat)
    requires |x| == |y| && WellFormed(t, |x|, nClasses) && UniqueParents(t, |x|, nClasses)
    requires node < |t.left| && !IsLeaf(t, node) && GoesLeft(t, nClasses, x, node) != GoesLeft(t, nClasses, y, node)
    requires v in Path(t, nClasses, x, Child(t, nClasses, x, node))
    ensures v !in Path(t, nClasses, y, node)
  {
    PathStaysBelow(t, nClasses, x, Child(t, nClasses, x, node), v);
    if v in Path(t, nClasses, y, Child(t, nClasses, y, node)) {
      PathStaysBelow(t, nClasses, y, Child(t, nClasses, y, node), v);
      SiblingsDisjoint(t, |x|, nClasses, node, v);
    }
  }

  lemma AgreesFromChild(t: TreeData, nClasses: nat, x: seq<real>, y: seq<real>, node: nat, k: nat)
    requires |x| == |y| && WellFormed(t, |x|, nClasses)
    requires node < |t.left| && 0 < k < |Path(t, nClasses, x, node)|
    requires GoesLeft(t, nClasses, x, node) == GoesLeft(t, nClasses, y, node)
    ensures k - 1 < |Path(t, nClasses, x, Child(t, nClasses, x, node))|
    ensures AgreesBefore(t, nClasses, x, y, Child(t, nClasses, x, node), k - 1) ==> AgreesBefore(t, nClasses, x, y, node, k)
  {
    PrefixUnfolds(t, nClasses, x, node, k);
  }

  /** After the first disagreement the two paths never meet again. */
  lemma {:induction false} PartedForGood(t: TreeData, nClasses: nat, x: seq<real>, y: seq<real>, node: nat, k: nat)
    requires |x| == |y| && WellFormed(t, |x|, nClasses) && UniqueParents(t, |x|, nClasses)
    requires node < |t.left| && k < |Path(t, nClasses, x, node)|
    requires !AgreesBefore(t, nClasses, x, y, node, k)
    ensures Path(t, nClasses, x, node)[k] !in Path(t, nClasses, y, node)
    decreases |t.left| - node
  {
    assert k > 0;
    var c, v := Child(t, nClasses, x, node), Path(t, nClasses, x, node)[k];
    PrefixUnfolds(t, nClasses, x, node, k);
    assert v == Path(t, nClasses, x, c)[k - 1];
    assert v in Path(t, nClasses, x, c);
    if GoesLeft(t, nClasses, x, node) != GoesLeft(t, nClasses, y, node) {
      PartedHere(t, nClasses, x, y, node, v);
    } else {
      PathStaysBelow(t, nClasses, x, c, v);
      AgreesFromChild(t, nClasses, x, y, node, k);
      PartedForGood(t, nClasses, x, y, c, k - 1);
    }
  }

  /** A changed vector still reaches the `k`-th split of a path exactly when it decides the `k`
      splits before it the same way. */
  lemma ReachesIffAgrees(t: TreeData, nClasses: nat, x: seq<real>, y: seq<real>, k: nat)
    requires |x| == |y| && WellFormed(t, |x|, nClasses) && UniqueParents(t, |x|, nClasses)
    requires k < |Path(t, nClasses, x, 0)|
    ensures Path(t, nClasses, x, 0)[k] in Path(t, nClasses, y, 0) <==> AgreesBefore(t, nClasses, x, y, 0, k)
    ensures AgreesBefore(t, nClasses, x, y, 0, k) ==> k < |Path(t, nClasses, y, 0)| && Path(t, nClasses, y, 0)[..k + 1] == Path(t, nClasses, x, 0)[..k + 1]
  {
    if AgreesBefore(t, nClasses, x, y, 0, k) {
      SamePathWhileAgreeing(t, nClasses, x, y, 0, k);
      assert Path(t, nClasses, y, 0)[..k + 1][k] == Path(t, nClasses, x, 0)[k];
    } else {
      PartedForGood(t, nClasses, x, y, 0, k);
    }
  }

  // ----- Rounded inputs -----

  function Rounded(round: real -> real, x: seq<real>): (y: seq<real>)
    ensures |y| == |x|
  {
    seq(|x|, i requires 0 <= i < |x| => round(x[i]))
  }

  /** Rounding changes no decision of the first `k` steps. */
  ghost predicate RoundsAlike(trace: seq<Step>, k: nat, round: real -> real) {
    && k <= |trace|
    && forall j :: 0 <= j < k ==> (trace[j].value <= trace[j].threshold <==> round(trace[j].value) <= trace[j].threshold)
  }

  ghost predicate Visits(trace: seq<Step>, node: nat) {
    exists j :: 0 <= j < |trace| && trace[j].node == node
  }

  lemma VisitsIffOnPath(t: TreeData, nClasses: nat, id: nat, x: seq<real>, node: nat)
    requires WellFormed(t, |x|, nClasses)
    ensures Visits(Trace(t, nClasses, id, x), node) <==> node in Path(t, nClasses, x, 0)
  {
    var trace, path := Trace(t, nClasses, id, x), Path(t, nClasses, x, 0);
    assert forall j :: 0 <= j < |trace| ==> trace[j].node == path[j];
  }

  lemma RoundsAlikeIffAgrees(t: TreeData, nClasses: nat, id: nat, round: real -> real, x: seq<real>, k: nat)
    requires WellFormed(t, |x|, nClasses) && k <= |Path(t, nClasses, x, 0)|
    ensures RoundsAlike(Trace(t, nClasses, id, x), k, round) <==> AgreesBefore(t, nClasses, x, Rounded(round, x), 0, k)
  {
    var trace, path, y := Trace(t, nClasses, id, x), Path(t, nClasses, x, 0), Rounded(round, x);
    forall j | 0 <= j < k
      ensures path[j] in path && path[j] in path[..k]
      ensures (trace[j].value <= trace[j].threshold <==> round(trace[j].value) <= trace[j].threshold)
              <==> GoesLeft(t, nClasses, x, path[j]) == GoesLeft(t, nClasses, y, path[j])
    {
      assert trace[j] == StepAt(t, nClasses, id, x, path[j]);
    }
  }

  /** Exported and live trace visit the same nodes up to and including the first split where `v <= t`
      and `round(v) <= t` differ; the splits after it in one trace are never visited by the other. */
  lemma LiveTraceAgreesUntilMismatch(t: TreeData, nClasses: nat, id: nat, round: real -> real, x: seq<real>, k: nat)
    requires WellFormed(t, |x|, nClasses) && UniqueParents(t, |x|, nClasses)
    requires k < |Trace(t, nClasses, id, x)|
    ensures var exported, live := Trace(t, nClasses, id, x), Trace(t, nClasses, id, Rounded(round, x));
            if RoundsAlike(exported, k, round)
            then k < |live| && forall j :: 0 <= j <= k ==> live[j].node == exported[j].node
            else !Visits(live, exported[k].node)
  {
    var path, path' := Path(t, nClasses, x, 0), Path(t, nClasses, Rounded(round, x), 0);
    RoundsAlikeIffAgrees(t, nClasses, id, round, x, k);
    ReachesIffAgrees(t, nClasses, x, Rounded(round, x), k);
    VisitsIffOnPath(t, nClasses, id, Rounded(round, x), path[k]);
    if RoundsAlike(Trace(t, nClasses, id, x), k, round) {
      forall j | 0 <= j <= k ensures path'[j] == path[j] {
        assert path'[..k + 1][j] == path[..k + 1][j];
      }
    }
  }

  /** A rounding that changes no decision of any tree's trace changes no prediction. */
  lemma RoundingKeepsPrediction(trees: seq<TreeData>, nClasses: nat, round: real -> real, x: seq<real>, r: Prediction)
    requires ForestOk(trees, x, nClasses)
    requires forall t :: t in trees ==> RoundsAlike(Trace(t, nClasses, 0, x), |Path(t, nClasses, x, 0)|, round)
    ensures HasMass(trees, Rounded(round, x), nClasses) <==> HasMass(trees, x, nClasses)
    ensures HasMass(trees, x, nClasses) ==> (Predicts(trees, Rounded(round, x), nClasses, r) <==> Predicts(trees, x, nClasses, r))
  {
    forall t | t in trees ensures AgreesThroughout(t, nClasses, x, Rounded(round, x), 0) {
      var path := Path(t, nClasses, x, 0);
      RoundsAlikeIffAgrees(t, nClasses, 0, round, x, |path|);
      assert path[..|path|] == path;
    }
    TracesDecide(trees, x, Rounded(round, x), nClasses, r);
  }

  /** When the threshold itself survives rounding, a monotone rounding never sends a left-going value
      right. */
  lemma RepresentableThreshold(round: real -> real, threshold: real, value: real)
    requires forall a, b :: a <= b ==> round(a) <= round(b)
    requires round(threshold) == threshold && value <= threshold
    ensures round(value) <= threshold
  {
  }

  /** Under a monotone rounding that keeps every threshold of the trace, the live trace parts from the
      exported one only where a right-going value rounds down onto its threshold. */
  lemma OnlyRightwardMismatches(trace: seq<Step>, k: nat, round: real -> real)
    requires forall a, b :: a <= b ==> round(a) <= round(b)
    requires k <= |trace| && forall j :: 0 <= j < k ==> round(trace[j].threshold) == trace[j].threshold
    ensures RoundsAlike(trace, k, round)
            <==> forall j :: 0 <= j < k && trace[j].value > trace[j].threshold ==> round(trace[j].value) != trace[j].threshold
  {
    forall j | 0 <= j < k
      ensures (trace[j].value <= trace[j].threshold <==> round(trace[j].value) <= trace[j].threshold)
              <==> (trace[j].value > trace[j].threshold ==> round(trace[j].value) != trace[j].threshold)
    {
      if trace[j].value <= trace[j].threshold {
        RepresentableThreshold(round, trace[j].threshold, trace[j].value);
      } else {
        assert round(trace[j].threshold) <= round(trace[j].value);
      }
    }
  }

  // ----- One probe -----

  /** First step of the given node in a trace; None is the `AssertionError`. */
  method FindTraceStep(trace: seq<Step>, node: nat) returns (r: Option<Step>)
    ensures r.Some? <==> Visits(trace, node)
    ensures r.Some? ==> r.value in trace && r.value.node == node
  {
    for i := 0 to |trace|
      invariant forall j :: 0 <= j < i ==> trace[j].node != node
    {
      if trace[i].node == node { return Some(trace[i]); }
    }
    return None;
  }

  /** The same-feature splits above the target let the new value through in the base direction. */
  ghost predicate PassesAbove(base: seq<Step>, k: nat, value: real)
    requires k < |base|
  {
    forall j :: 0 <= j < k && base[j].feature == base[k].feature ==> (base[j].wentLeft <==> value <= base[j].threshold)
  }

  /** Overwriting the target's feature keeps the target reachable exactly when the new value passes
      every test of that feature above it, in the direction the base took. */
  lemma ProbeReachesTargetIff(t: TreeData, nClasses: nat, id: nat, x: seq<real>, k: nat, value: real)
    requires WellFormed(t, |x|, nClasses) && UniqueParents(t, |x|, nClasses)
    requires k < |Trace(t, nClasses, id, x)|
    ensures var base := Trace(t, nClasses, id, x);
            Visits(Trace(t, nClasses, id, x[base[k].feature := value]), base[k].node) <==> PassesAbove(base, k, value)
    ensures var base := Trace(t, nClasses, id, x);
            PassesAbove(base, k, value) ==> AgreesBefore(t, nClasses, x, x[base[k].feature := value], 0, k)
  {
    var base, path := Trace(t, nClasses, id, x), Path(t, nClasses, x, 0);
    var y := x[base[k].feature := value];
    ReachesIffAgrees(t, nClasses, x, y, k);
    VisitsIffOnPath(t, nClasses, id, y, path[k]);
    forall j | 0 <= j < k
      ensures path[j] in path && path[j] in path[..k]
      ensures GoesLeft(t, nClasses, x, path[j]) == GoesLeft(t, nClasses, y, path[j])
              <==> (base[j].feature == base[k].feature ==> (base[j].wentLeft <==> value <= base[j].threshold))
    {
      assert base[j] == StepAt(t, nClasses, id, x, path[j]);
    }
  }

  /** How a probe of one split ends: an `AssertionError`, or both directions at the target. */
  datatype Probe = TargetLost | Directions(exportedLeft: bool, liveLeft: bool)

  /** One case of the near-threshold report on the tree of the target: overwrite the target's
      feature, trace both ways, look the target up in both traces. */
  method ProbeSplit(t: TreeData, nClasses: nat, id: nat, round: real -> real, x: seq<real>, k: nat, value: real) returns (r: Probe)
    requires WellFormed(t, |x|, nClasses) && UniqueParents(t, |x|, nClasses)
    requires k < |Trace(t, nClasses, id, x)|
    ensures var base := Trace(t, nClasses, id, x);
            var mutated := Trace(t, nClasses, id, x[base[k].feature := value]);
            && (r.TargetLost? <==> !(PassesAbove(base, k, value) && RoundsAlike(mutated, k, round)))
            && (r.Directions? ==> r.exportedLeft == (value <= base[k].threshold) && r.liveLeft == (round(value) <= base[k].threshold))
  {
    var base := TraceTree(t, nClasses, id, x);
    var target := base[k];
    var y := x[target.feature := value];
    var exported := TraceTree(t, nClasses, id, y);
    var live := TraceTree(t, nClasses, id, Rounded(round, y));
    var e := FindTraceStep(exported, target.node);
    var l := FindTraceStep(live, target.node);
    ProbeReachesTargetIff(t, nClasses, id, x, k, value);
    if e.None? { return TargetLost; }
    ReachesIffAgrees(t, nClasses, x, y, k);
    assert Path(t, nClasses, y, 0)[..k + 1][k] == Path(t, nClasses, x, 0)[..k + 1][k];
    LiveTraceAgreesUntilMismatch(t, nClasses, id, round, y, k);
    assert exported[k].node == target.node;
    if RoundsAlike(exported, k, round) {
      assert live[k].node == target.node;
    }
    if l.None? { return TargetLost; }
    return Directions(e.value.wentLeft, l.value.wentLeft);
  }

  /** An exact tie that still reaches its target goes left there; the live trace goes right exactly
      when the threshold rounds up. */
  method TieProbe(t: TreeData, nClasses: nat, id: nat, round: real -> real, x: seq<real>, k: nat) returns (r: Probe)
    requires WellFormed(t, |x|, nClasses) && UniqueParents(t, |x|, nClasses)
    requires k < |Trace(t, nClasses, id, x)|
    ensures var threshold := Trace(t, nClasses, id, x)[k].threshold;
            && (r.Directions? ==> r.exportedLeft && (r.liveLeft <==> round(threshold) <= threshold))
            && (r.Directions? && round(threshold) == threshold ==> r.liveLeft)
  {
    var base := TraceTree(t, nClasses, id, x);
    r := ProbeSplit(t, nClasses, id, round, x, k, base[k].threshold);
  }
}
