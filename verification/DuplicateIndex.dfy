/** The duplicate index of a scan: buckets of states by signature and the capped set of
    candidate pairs (src/tools/dmi.rs). */
module DuplicateIndex {
  import opened Basics
  import opened Comparison
  import opened Streams
  import opened Candidates

  /** A state of a scan: the asset and the place of the state in it. */
  type Place = (nat, nat)

  /** Places are ordered by asset, then by state. */
  predicate Before(a: Place, b: Place) {
    a.0 < b.0 || (a.0 == b.0 && a.1 < b.1)
  }

  ghost predicate IsPlace<G(!new)>(sigs: seq<seq<set<G>>>, p: Place) {
    p.0 < |sigs| && p.1 < |sigs[p.0]|
  }

  /** Exactly the places before `(a, s)` whose state carries `g`, in order. */
  ghost predicate BucketUpTo<G(!new)>(sigs: seq<seq<set<G>>>, limit: Place, g: G, bucket: seq<Place>) {
    && (forall i, j :: 0 <= i < j < |bucket| ==> Before(bucket[i], bucket[j]))
    && (forall i :: 0 <= i < |bucket| ==> Before(bucket[i], limit))
    && (forall p: Place :: p in bucket <==> IsPlace(sigs, p) && Before(p, limit) && g in sigs[p.0][p.1])
  }

  /** Every bucket of the index holds its places; signatures without one were not seen. */
  ghost predicate IndexUpTo<G(!new)>(sigs: seq<seq<set<G>>>, limit: Place, buckets: map<G, seq<Place>>) {
    forall g :: BucketUpTo(sigs, limit, g, if g in buckets then buckets[g] else [])
  }

  /** Two places share a signature. */
  ghost predicate Share<G(!new)>(sigs: seq<seq<set<G>>>, a: Place, b: Place)
    requires IsPlace(sigs, a) && IsPlace(sigs, b)
  {
    sigs[a.0][a.1] * sigs[b.0][b.1] != {}
  }

  lemma AddToBucket<G(!new)>(sigs: seq<seq<set<G>>>, p: Place, g: G, bucket: seq<Place>)
    requires IsPlace(sigs, p) && BucketUpTo(sigs, p, g, bucket)
    ensures BucketUpTo(sigs, (p.0, p.1 + 1), g, if g in sigs[p.0][p.1] then bucket + [p] else bucket)
  {
    var next: Place := (p.0, p.1 + 1);
    assert forall q: Place :: Before(q, next) <==> Before(q, p) || q == p;
  }

  lemma NextAsset<G(!new)>(sigs: seq<seq<set<G>>>, a: nat, g: G, bucket: seq<Place>)
    requires a < |sigs| && BucketUpTo(sigs, (a, |sigs[a]|), g, bucket)
    ensures BucketUpTo(sigs, (a + 1, 0), g, bucket)
  {
    assert forall q: Place ::
      IsPlace(sigs, q) ==> (Before(q, (a, |sigs[a]|)) <==> Before(q, (a + 1, 0)));
  }

  function BucketOf<G(==)>(buckets: map<G, seq<Place>>, g: G): seq<Place> {
    if g in buckets then buckets[g] else []
  }

  /** Appends one place to the buckets of all its signatures. */
  method Insert<G(==, !new)>(buckets: map<G, seq<Place>>, signatures: set<G>, p: Place)
    returns (r: map<G, seq<Place>>)
    ensures forall g :: BucketOf(r, g) == if g in signatures then BucketOf(buckets, g) + [p] else BucketOf(buckets, g)
  {
    r := buckets;
    var left := signatures;
    while left != {}
      invariant left <= signatures
      invariant forall g :: BucketOf(r, g) == (
                  if g in signatures - left then BucketOf(buckets, g) + [p] else BucketOf(buckets, g))
      decreases left
    {
      var g :| g in left;
      r := r[g := BucketOf(r, g) + [p]];
      left := left - {g};
    }
  }

  lemma NoBuckets<G(!new)>(sigs: seq<seq<set<G>>>)
    ensures forall g :: BucketUpTo(sigs, (0, 0), g, [])
  {
  }

  /** The buckets of all states: for each signature the places that carry it, in order. */
  method BuildBuckets<G(==, !new)>(sigs: seq<seq<set<G>>>) returns (buckets: map<G, seq<Place>>)
    ensures forall g :: BucketUpTo(sigs, (|sigs|, 0), g, BucketOf(buckets, g))
  {
    hide BucketUpTo;
    buckets := map[];
    NoBuckets(sigs);
    var a := 0;
    while a < |sigs|
      invariant 0 <= a <= |sigs|
      invariant forall g :: BucketUpTo(sigs, (a, 0), g, BucketOf(buckets, g))
    {
      var s := 0;
      while s < |sigs[a]|
        invariant 0 <= s <= |sigs[a]|
        invariant forall g :: BucketUpTo(sigs, (a, s), g, BucketOf(buckets, g))
      {
        ghost var before := buckets;
        buckets := Insert(buckets, sigs[a][s], (a, s));
        forall g
          ensures BucketUpTo(sigs, (a, s + 1), g, BucketOf(buckets, g))
        {
          AddToBucket(sigs, (a, s), g, BucketOf(before, g));
        }
        s := s + 1;
      }
      forall g
        ensures BucketUpTo(sigs, (a + 1, 0), g, BucketOf(buckets, g))
      {
        NextAsset(sigs, a, g, BucketOf(buckets, g));
      }
      a := a + 1;
    }
  }

  // ------------------------------------------------------------ candidate pairs

  type PlacePair = (Place, Place)

  /** A pair of places, in order, that share a signature. */
  ghost predicate IsCandidate<G(!new)>(sigs: seq<seq<set<G>>>, pair: PlacePair) {
    IsPlace(sigs, pair.0) && IsPlace(sigs, pair.1) && Before(pair.0, pair.1) && Share(sigs, pair.0, pair.1)
  }

  /** Room is left below the cap, which is only looked at after an insertion. */
  predicate Room(pairs: set<PlacePair>, cap: nat) {
    |pairs| < cap || pairs == {}
  }

  lemma BucketPairIsCandidate<G(!new)>(sigs: seq<seq<set<G>>>, g: G, bucket: seq<Place>, i: nat, j: nat)
    requires BucketUpTo(sigs, (|sigs|, 0), g, bucket) && i < j < |bucket|
    ensures IsCandidate(sigs, (bucket[i], bucket[j]))
  {
    var a, b := bucket[i], bucket[j];
    assert a in bucket && b in bucket;
    assert g in sigs[a.0][a.1] * sigs[b.0][b.1];
  }

  lemma CandidateInBucket<G(!new)>(sigs: seq<seq<set<G>>>, g: G, bucket: seq<Place>, pair: PlacePair)
    returns (i: nat, j: nat)
    requires BucketUpTo(sigs, (|sigs|, 0), g, bucket) && IsCandidate(sigs, pair)
    requires g in sigs[pair.0.0][pair.0.1] && g in sigs[pair.1.0][pair.1.1]
    ensures i < j < |bucket| && pair == (bucket[i], bucket[j])
  {
    assert pair.0 in bucket && pair.1 in bucket;
    i :| 0 <= i < |bucket| && bucket[i] == pair.0;
    j :| 0 <= j < |bucket| && bucket[j] == pair.1;
  }

  /** Inserts the pairs of one bucket, stopping as soon as the cap is met. */
  method PairUp<G(!new)>(ghost sigs: seq<seq<set<G>>>, ghost g: G, bucket: seq<Place>,
                         known: set<PlacePair>, cap: nat)
    returns (pairs: set<PlacePair>, capped: bool)
    requires BucketUpTo(sigs, (|sigs|, 0), g, bucket) && Room(known, cap)
    requires forall pair :: pair in known ==> IsCandidate(sigs, pair)
    ensures known <= pairs
    ensures forall pair :: pair in pairs ==> IsCandidate(sigs, pair)
    ensures capped ==> |pairs| == Max(cap, 1)
    ensures !capped ==> Room(pairs, cap)
    ensures !capped ==> forall i, j :: 0 <= i < j < |bucket| ==> (bucket[i], bucket[j]) in pairs
  {
    hide BucketUpTo, IsCandidate;
    pairs, capped := known, false;
    for left := 0 to |bucket|
      invariant known <= pairs && Room(pairs, cap)
      invariant forall pair :: pair in pairs ==> IsCandidate(sigs, pair)
      invariant forall i, j :: 0 <= i < left && i < j < |bucket| ==> (bucket[i], bucket[j]) in pairs
    {
      for right := left + 1 to |bucket|
        invariant known <= pairs && Room(pairs, cap)
        invariant forall pair :: pair in pairs ==> IsCandidate(sigs, pair)
        invariant forall i, j :: 0 <= i < left && i < j < |bucket| ==> (bucket[i], bucket[j]) in pairs
        invariant forall j :: left < j < right ==> (bucket[left], bucket[j]) in pairs
      {
        BucketPairIsCandidate(sigs, g, bucket, left, right);
        pairs := pairs + {(bucket[left], bucket[right])};
        if |pairs| >= cap {
          capped := true;
          return;
        }
      }
    }
  }

  /** Collects the candidate pairs of a scan, in any order of the buckets. Below the cap
      these are exactly the pairs that share a signature; at the cap the scan says so. */
  method CandidatePairs<G(==, !new)>(sigs: seq<seq<set<G>>>, cap: nat)
    returns (pairs: set<PlacePair>, capped: bool)
    ensures forall pair :: pair in pairs ==> IsCandidate(sigs, pair)
    ensures !capped ==> forall pair :: pair in pairs <==> IsCandidate(sigs, pair)
    ensures capped ==> |pairs| == Max(cap, 1)
    ensures !capped ==> Room(pairs, cap)
  {
    hide BucketUpTo, IsCandidate;
    var buckets := BuildBuckets(sigs);
    pairs, capped := {}, false;
    var left := buckets.Keys;
    while left != {}
      invariant left <= buckets.Keys && Room(pairs, cap)
      invariant forall pair :: pair in pairs ==> IsCandidate(sigs, pair)
      invariant forall g, i, j :: g in buckets.Keys - left && 0 <= i < j < |BucketOf(buckets, g)|
                  ==> (BucketOf(buckets, g)[i], BucketOf(buckets, g)[j]) in pairs
      decreases left
    {
      var g :| g in left;
      pairs, capped := PairUp(sigs, g, BucketOf(buckets, g), pairs, cap);
      if capped {
        return;
      }
      left := left - {g};
    }
    forall pair | IsCandidate(sigs, pair)
      ensures pair in pairs
    {
      var g := SharedSignature(sigs, pair);
      var _, _ := CandidateInBucket(sigs, g, BucketOf(buckets, g), pair);
    }
  }

  lemma SharedSignature<G(!new)>(sigs: seq<seq<set<G>>>, pair: PlacePair) returns (g: G)
    requires IsCandidate(sigs, pair)
    ensures IsPlace(sigs, pair.0) && IsPlace(sigs, pair.1)
    ensures g in sigs[pair.0.0][pair.0.1] && g in sigs[pair.1.0][pair.1.1]
  {
    g :| g in sigs[pair.0.0][pair.0.1] * sigs[pair.1.0][pair.1.1];
  }

  /** The index holds the signatures of the states of a scan. */
  ghost predicate Signs(states: seq<seq<IconState>>, sigs: seq<seq<set<Signature>>>) {
    && |states| == |sigs|
    && (forall a :: 0 <= a < |states| ==> |states[a]| == |sigs[a]|)
    && forall a, s :: 0 <= a < |states| && 0 <= s < |states[a]|
         ==> HashableState(states[a][s]) && sigs[a][s] == Signatures(states[a][s])
  }

  /** Below the cap the scan compares every pair of states whose pixels match unchanged. */
  lemma UnchangedPairsFound(states: seq<seq<IconState>>, sigs: seq<seq<set<Signature>>>, minimum: real,
                            p: Place, q: Place)
    requires Signs(states, sigs) && IsPlace(sigs, p) && IsPlace(sigs, q) && Before(p, q)
    requires Comparable(states[p.0][p.1], states[q.0][q.1])
    requires Unchanged(ImageMatch(states[p.0][p.1], states[q.0][q.1], minimum))
    ensures IsCandidate(sigs, (p, q))
  {
    hide Signatures, ImageMatch, HashableState, Comparable;
    assert HashableState(states[p.0][p.1]) && HashableState(states[q.0][q.1]);
    UnchangedShareSignature(states[p.0][p.1], states[q.0][q.1], minimum);
  }

  /** Below the cap the scan compares every pair of states that one colour bijection, valid
      across all frames, relates; and a pair no bijection relates is compared only for a
      signature of another kind. */
  lemma RecolouredPairsFound(states: seq<seq<IconState>>, sigs: seq<seq<set<Signature>>>, p: Place, q: Place)
    requires Signs(states, sigs) && IsPlace(sigs, p) && IsPlace(sigs, q) && Before(p, q)
    ensures var ls, rs := states[p.0][p.1], states[q.0][q.1];
            && HashableState(ls) && HashableState(rs)
            && (SomeRecolouring(ls, rs) ==> IsCandidate(sigs, (p, q)))
            && (IsCandidate(sigs, (p, q)) && !SomeRecolouring(ls, rs)
                ==> exists g: Signature :: !g.PaletteSignature? && g in sigs[p.0][p.1] && g in sigs[q.0][q.1])
  {
    hide Signatures, HashableState, SomeRecolouring;
    var ls, rs := states[p.0][p.1], states[q.0][q.1];
    PaletteSharedIff(ls, rs);
    if SomeRecolouring(ls, rs) {
      var c :| PaletteSignature(c) in Signatures(ls) && PaletteSignature(c) in Signatures(rs);
      assert PaletteSignature(c) in sigs[p.0][p.1] * sigs[q.0][q.1];
    } else if IsCandidate(sigs, (p, q)) {
      var g := SharedSignature(sigs, (p, q));
    }
  }
}
