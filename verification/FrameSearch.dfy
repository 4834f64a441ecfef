/** The best comparison of two single frames over the six transforms
    (src/spaceman/dmi.rs). */
module FrameSearch {
  import opened Basics
  import opened Frames
  import opened Comparison

  lemma TurnIdentity(g: Grid)
    requires Sized(g)
    ensures Turn(g, Identity) == g
  {
    hide Turn, Index, At;
    forall x: nat, y: nat | x < g.w && y < g.h
      ensures At(Turn(g, Identity), x, y) == At(g, x, y)
    {
      TurnAt(g, Identity, x, y);
    }
    GridsEqual(Turn(g, Identity), g);
  }

  lemma TurnedIdentity(f: Frame)
    requires Normal(f)
    ensures Turned(f, Identity) == f
  {
    hide Turn, Sized;
    TurnIdentity(f.grid);
  }

  /** The first attempt compares the frames as they are, the others transform the right
      one. */
  ghost function Attempt(left: Frame, right: Frame, t: Transform): FrameComparison
    requires Normal(left) && Normal(right)
  {
    if t == Identity then Aligned(left, right, t) else Aligned(left, Turned(right, t), t)
  }

  /** The first of the most similar among the first `n` attempts. */
  ghost predicate MostSimilar(left: Frame, right: Frame, n: nat, best: FrameComparison)
    requires Normal(left) && Normal(right) && n <= |TRANSFORMS|
  {
    exists k :: 0 <= k < n && best == Attempt(left, right, TRANSFORMS[k])
                && (forall j :: 0 <= j < n ==> Attempt(left, right, TRANSFORMS[j]).similarity <= best.similarity)
                && (forall j :: 0 <= j < k ==> Attempt(left, right, TRANSFORMS[j]).similarity < best.similarity)
  }

  lemma MostSimilarFirst(left: Frame, right: Frame)
    requires Normal(left) && Normal(right)
    ensures MostSimilar(left, right, 1, Attempt(left, right, Identity))
  {
    hide Attempt;
    assert TRANSFORMS[0] == Identity;
  }

  lemma MostSimilarNext(left: Frame, right: Frame, n: nat, best: FrameComparison)
    requires Normal(left) && Normal(right) && n < |TRANSFORMS| && MostSimilar(left, right, n, best)
    ensures var c := Attempt(left, right, TRANSFORMS[n]);
            MostSimilar(left, right, n + 1, if c.similarity > best.similarity then c else best)
  {
    hide Attempt;
  }

  method CompareFrames(left: Frame, right: Frame, minimum: real) returns (best: FrameComparison)
    requires Normal(left) && Normal(right)
    ensures exists b :: MostSimilar(left, right, |TRANSFORMS|, b) && best == Promote(b, Threshold(minimum))
  {
    hide Aligned, Turned, Normal, MostSimilar;
    best := CompareAligned(left, right, Identity);
    MostSimilarFirst(left, right);
    for k := 1 to |TRANSFORMS|
      invariant MostSimilar(left, right, k, best)
    {
      NotIdentity(k);
      var transformed := TransformFrame(right, TRANSFORMS[k]);
      var candidate := CompareAligned(left, transformed, TRANSFORMS[k]);
      MostSimilarNext(left, right, k, best);
      if candidate.similarity > best.similarity {
        best := candidate;
      }
    }
    ghost var b := best;
    best := Promote(best, Threshold(minimum));
  }

  lemma NotIdentity(k: nat)
    requires 0 < k < |TRANSFORMS|
    ensures TRANSFORMS[k] != Identity
  {
  }

  lemma AttemptSwap(left: Frame, right: Frame, t: Transform)
    requires Normal(left) && Normal(right)
    ensures Attempt(left, right, t).similarity == Attempt(right, left, Inverse(t)).similarity
    ensures Attempt(left, right, t).kind == Attempt(right, left, Inverse(t)).kind
  {
    hide Aligned, Turned;
    AlignedSwap(left, right, t);
    if t == Identity {
      TurnedIdentity(left);
      TurnedIdentity(right);
    }
  }

  /** The best similarity does not depend on the order of the frames; nor does the class,
      when no two classes share that similarity. */
  lemma BestSimilaritySymmetric(left: Frame, right: Frame, b: FrameComparison, c: FrameComparison)
    requires Normal(left) && Normal(right)
    requires MostSimilar(left, right, |TRANSFORMS|, b) && MostSimilar(right, left, |TRANSFORMS|, c)
    ensures b.similarity == c.similarity
    ensures exists t :: Attempt(right, left, t).similarity == c.similarity && Attempt(right, left, t).kind == b.kind
  {
    hide Attempt;
    AtMost(left, right, b, c);
    AtMost(right, left, c, b);
  }

  lemma AtMost(left: Frame, right: Frame, b: FrameComparison, c: FrameComparison)
    requires Normal(left) && Normal(right)
    requires MostSimilar(left, right, |TRANSFORMS|, b) && MostSimilar(right, left, |TRANSFORMS|, c)
    ensures b.similarity <= c.similarity
    ensures exists t :: Attempt(right, left, t).similarity == b.similarity && Attempt(right, left, t).kind == b.kind
  {
    hide Attempt, Normal;
    var k :| 0 <= k < |TRANSFORMS| && b == Attempt(left, right, TRANSFORMS[k]);
    var t := TRANSFORMS[k];
    AttemptSwap(left, right, t);
    var j := TransformListed(Inverse(t));
    assert Attempt(right, left, TRANSFORMS[j]).similarity <= c.similarity;
  }
}
