/** Clustering of matched states by union-find with path halving (src/tools/dmi.rs). */
module Clusters {
  import opened Basics
  import opened Comparison

  // --------------------------------------------------------- comparison graph

  /** A comparison joins the members at two indexes. */
  type Edge = (nat, nat)

  ghost predicate Linked(edges: seq<Edge>, a: nat, b: nat) {
    exists k :: 0 <= k < |edges| && (edges[k] == (a, b) || edges[k] == (b, a))
  }

  ghost predicate IsPath(edges: seq<Edge>, path: seq<nat>) {
    |path| > 0 && forall i :: 0 <= i < |path| - 1 ==> Linked(edges, path[i], path[i + 1])
  }

  ghost predicate PathBetween(edges: seq<Edge>, path: seq<nat>, a: nat, b: nat) {
    IsPath(edges, path) && path[0] == a && path[|path| - 1] == b
  }

  /** Two members are joined by a chain of comparisons. */
  ghost predicate Connected(edges: seq<Edge>, a: nat, b: nat) {
    exists path :: PathBetween(edges, path, a, b)
  }

  lemma ConnectedSelf(edges: seq<Edge>, a: nat)
    ensures Connected(edges, a, a)
  {
    assert PathBetween(edges, [a], a, a);
  }

  lemma ConnectedEdge(edges: seq<Edge>, k: nat)
    requires k < |edges|
    ensures Connected(edges, edges[k].0, edges[k].1)
  {
    assert Linked(edges, edges[k].0, edges[k].1);
    assert PathBetween(edges, [edges[k].0, edges[k].1], edges[k].0, edges[k].1);
  }

  lemma ConnectedTrans(edges: seq<Edge>, a: nat, b: nat, c: nat)
    requires Connected(edges, a, b) && Connected(edges, b, c)
    ensures Connected(edges, a, c)
  {
    var p :| PathBetween(edges, p, a, b);
    var q :| PathBetween(edges, q, b, c);
    var r := p + q[1..];
    forall i | 0 <= i < |r| - 1
      ensures Linked(edges, r[i], r[i + 1])
    {
      if i < |p| - 1 {
        assert Linked(edges, p[i], p[i + 1]);
      } else {
        assert Linked(edges, q[i - (|p| - 1)], q[i - (|p| - 1) + 1]);
      }
    }
    assert PathBetween(edges, r, a, c);
  }

  lemma ConnectedSym(edges: seq<Edge>, a: nat, b: nat)
    requires Connected(edges, a, b)
    ensures Connected(edges, b, a)
  {
    var p :| PathBetween(edges, p, a, b);
    var r := seq(|p|, i requires 0 <= i < |p| => p[|p| - 1 - i]);
    forall i | 0 <= i < |r| - 1
      ensures Linked(edges, r[i], r[i + 1])
    {
      assert Linked(edges, p[|p| - 2 - i], p[|p| - 2 - i + 1]);
    }
    assert PathBetween(edges, r, b, a);
  }

  lemma ConnectedGrows(edges: seq<Edge>, k: nat, a: nat, b: nat)
    requires k < |edges| && Connected(edges[..k], a, b)
    ensures Connected(edges[..k + 1], a, b)
  {
    var p :| PathBetween(edges[..k], p, a, b);
    forall i | 0 <= i < |p| - 1
      ensures Linked(edges[..k + 1], p[i], p[i + 1])
    {
      assert Linked(edges[..k], p[i], p[i + 1]);
      var e :| 0 <= e < k && (edges[..k][e] == (p[i], p[i + 1]) || edges[..k][e] == (p[i + 1], p[i]));
      assert edges[..k + 1][e] == edges[..k][e];
    }
    assert PathBetween(edges[..k + 1], p, a, b);
  }

  // ------------------------------------------------------------- parent forest

  /** Parents never point upwards, so following them always ends. */
  ghost predicate Forest(parents: seq<nat>) {
    forall i :: 0 <= i < |parents| ==> parents[i] <= i
  }

  ghost function Root(parents: seq<nat>, i: nat): (r: nat)
    requires Forest(parents) && i < |parents|
    ensures r <= i && parents[r] == r
  {
    if parents[i] == i then i else Root(parents, parents[i])
  }

  ghost predicate SameRoots(p: seq<nat>, q: seq<nat>) {
    && |p| == |q| && Forest(p) && Forest(q)
    && forall j :: 0 <= j < |p| ==> Root(q, j) == Root(p, j)
  }

  lemma {:induction false} HalveKeepsRoot(p: seq<nat>, i: nat, j: nat)
    requires Forest(p) && i < |p| && j < |p|
    ensures Forest(p[i := p[p[i]]])
    ensures Root(p[i := p[p[i]]], j) == Root(p, j)
    decreases j
  {
    var q := p[i := p[p[i]]];
    assert p[p[i]] <= p[i] <= i;
    if p[j] != j {
      if j == i {
        assert Root(p, j) == Root(p, p[p[j]]);
        if q[j] != j {
          HalveKeepsRoot(p, i, q[j]);
        }
      } else {
        HalveKeepsRoot(p, i, p[j]);
      }
    }
  }

  /** Hanging one root under a smaller one merges exactly the two trees. */
  lemma {:induction false} JoinMovesRoot(p: seq<nat>, root: nat, child: nat, j: nat)
    requires Forest(p) && root < child < |p| && p[root] == root && p[child] == child && j < |p|
    ensures Forest(p[child := root])
    ensures Root(p[child := root], j) == if Root(p, j) == child then root else Root(p, j)
    decreases j
  {
    var q := p[child := root];
    if p[j] != j {
      JoinMovesRoot(p, root, child, p[j]);
    } else if j == child {
      assert Root(q, j) == Root(q, root) == root;
    }
  }

  /** The forest's trees are the components of the graph. */
  ghost predicate Partition(parents: seq<nat>, edges: seq<Edge>) {
    && Forest(parents)
    && (forall i :: 0 <= i < |parents| ==> Connected(edges, i, Root(parents, i)))
    && (forall k :: 0 <= k < |edges| ==>
          && edges[k].0 < |parents| && edges[k].1 < |parents|
          && Root(parents, edges[k].0) == Root(parents, edges[k].1))
  }

  lemma {:induction false} PathSameRoot(parents: seq<nat>, edges: seq<Edge>, path: seq<nat>)
    requires Partition(parents, edges) && IsPath(edges, path)
    requires path[0] < |parents|
    ensures path[|path| - 1] < |parents|
    ensures Root(parents, path[|path| - 1]) == Root(parents, path[0])
    decreases |path|
  {
    if |path| > 1 {
      assert Linked(edges, path[0], path[1]);
      assert IsPath(edges, path[1..]) by {
        forall i | 0 <= i < |path[1..]| - 1
          ensures Linked(edges, path[1..][i], path[1..][i + 1])
        {
          assert Linked(edges, path[i + 1], path[i + 1 + 1]);
        }
      }
      PathSameRoot(parents, edges, path[1..]);
    }
  }

  /** Members have the same root exactly when comparisons connect them. */
  lemma SameRootIffConnected(parents: seq<nat>, edges: seq<Edge>, a: nat, b: nat)
    requires Partition(parents, edges) && a < |parents| && b < |parents|
    ensures Root(parents, a) == Root(parents, b) <==> Connected(edges, a, b)
  {
    if Root(parents, a) == Root(parents, b) {
      ConnectedSym(edges, b, Root(parents, b));
      ConnectedTrans(edges, a, Root(parents, a), b);
    }
    if Connected(edges, a, b) {
      var p :| PathBetween(edges, p, a, b);
      PathSameRoot(parents, edges, p);
    }
  }

  /** The root of a member is the smallest index of its component. */
  lemma RootIsSmallest(parents: seq<nat>, edges: seq<Edge>, a: nat)
    requires Partition(parents, edges) && a < |parents|
    ensures Connected(edges, a, Root(parents, a))
    ensures forall b: nat :: b < |parents| && Connected(edges, a, b) ==> Root(parents, a) <= b
  {
    forall b: nat | b < |parents| && Connected(edges, a, b)
      ensures Root(parents, a) <= b
    {
      SameRootIffConnected(parents, edges, a, b);
    }
  }

  lemma SingletonsPartition(parents: seq<nat>)
    requires forall i :: 0 <= i < |parents| ==> parents[i] == i
    ensures Partition(parents, [])
  {
    forall i | 0 <= i < |parents|
      ensures Connected([], i, Root(parents, i))
    {
      ConnectedSelf([], i);
    }
  }

  lemma SameRootsPartition(p: seq<nat>, q: seq<nat>, edges: seq<Edge>)
    requires Partition(p, edges) && SameRoots(p, q)
    ensures Partition(q, edges)
  {
    forall i | 0 <= i < |q|
      ensures Connected(edges, i, Root(q, i))
    {
      assert Root(q, i) == Root(p, i);
    }
  }

  /** The forest after merging the trees of one more comparison. */
  ghost function Merged(p: seq<nat>, e: Edge): seq<nat>
    requires Forest(p) && e.0 < |p| && e.1 < |p|
  {
    var a, b := Root(p, e.0), Root(p, e.1);
    if a == b then p else p[Max(a, b) := Min(a, b)]
  }

  lemma RootsConnected(p: seq<nat>, edges: seq<Edge>, k: nat)
    requires k < |edges| && Partition(p, edges[..k]) && edges[k].0 < |p| && edges[k].1 < |p|
    ensures var a, b := Root(p, edges[k].0), Root(p, edges[k].1);
            Connected(edges[..k + 1], a, b) && Connected(edges[..k + 1], b, a)
  {
    hide Connected, Root;
    var now, e := edges[..k + 1], edges[k];
    var a, b := Root(p, e.0), Root(p, e.1);
    assert now[k] == e;
    ConnectedGrows(edges, k, e.0, a);
    ConnectedGrows(edges, k, e.1, b);
    ConnectedEdge(now, k);
    ConnectedSym(now, e.0, a);
    ConnectedTrans(now, a, e.0, e.1);
    ConnectedTrans(now, a, e.1, b);
    ConnectedSym(now, a, b);
  }

  lemma MergedRoot(p: seq<nat>, edges: seq<Edge>, k: nat, i: nat)
    requires k < |edges| && Partition(p, edges[..k]) && edges[k].0 < |p| && edges[k].1 < |p| && i < |p|
    ensures var q := Merged(p, edges[k]);
            var a, b := Root(p, edges[k].0), Root(p, edges[k].1);
            && |q| == |p| && Forest(q)
            && Root(q, i) == (if Root(p, i) == Max(a, b) then Min(a, b) else Root(p, i))
            && Connected(edges[..k + 1], i, Root(q, i))
  {
    hide Connected, Root;
    var a, b := Root(p, edges[k].0), Root(p, edges[k].1);
    RootsConnected(p, edges, k);
    ConnectedGrows(edges, k, i, Root(p, i));
    if a != b {
      JoinMovesRoot(p, Min(a, b), Max(a, b), i);
      if Root(p, i) == Max(a, b) {
        ConnectedTrans(edges[..k + 1], i, Max(a, b), Min(a, b));
      }
    }
  }

  /** Processing one more comparison keeps the trees equal to the components. */
  lemma UnionPartition(p: seq<nat>, edges: seq<Edge>, k: nat)
    requires k < |edges| && Partition(p, edges[..k]) && edges[k].0 < |p| && edges[k].1 < |p|
    ensures Partition(Merged(p, edges[k]), edges[..k + 1])
  {
    hide Connected, Root, Merged;
    var q := Merged(p, edges[k]);
    var now := edges[..k + 1];
    MergedRoot(p, edges, k, edges[k].0);
    MergedRoot(p, edges, k, edges[k].1);
    forall i | 0 <= i < |q|
      ensures Connected(now, i, Root(q, i))
    {
      MergedRoot(p, edges, k, i);
    }
    forall j | 0 <= j < |now|
      ensures now[j].0 < |q| && now[j].1 < |q| && Root(q, now[j].0) == Root(q, now[j].1)
    {
      if j < k {
        assert now[j] == edges[..k][j];
        MergedRoot(p, edges, k, now[j].0);
        MergedRoot(p, edges, k, now[j].1);
      } else {
        assert now[j] == edges[k];
      }
    }
  }

  /** Walks to the root of `start`, halving the path behind it. */
  method Find(parents: array<nat>, start: nat) returns (index: nat)
    requires Forest(parents[..]) && start < parents.Length
    modifies parents
    ensures SameRoots(old(parents[..]), parents[..])
    ensures index == Root(parents[..], start)
  {
    index := start;
    ghost var was := parents[..];
    while parents[index] != index
      invariant index < parents.Length
      invariant SameRoots(was, parents[..])
      invariant Root(parents[..], index) == Root(was, start)
      decreases index
    {
      ghost var before := parents[..];
      parents[index] := parents[parents[index]];
      assert parents[..] == before[index := before[before[index]]];
      forall j | 0 <= j < |before|
        ensures Forest(parents[..]) && Root(parents[..], j) == Root(before, j)
      {
        HalveKeepsRoot(before, index, j);
      }
      index := parents[index];
    }
  }

  // ------------------------------------------------------------------ clusters

  /** A state locator; paths, names and duplicate numbers are ordered like integers. */
  type Locator = int

  datatype StateMatch = StateMatch(left: Locator, right: Locator, kind: MatchKind)

  datatype Cluster = Cluster(members: seq<Locator>, evidence: seq<StateMatch>, confidence: MatchKind)

  ghost predicate Ascending(s: seq<Locator>) {
    forall i, j :: 0 <= i < j < |s| ==> s[i] < s[j]
  }

  /** The comparisons with both ends among `members`. */
  function Evidence(matches: seq<StateMatch>, members: seq<Locator>): seq<StateMatch> {
    if matches == [] then []
    else
      var n := |matches| - 1;
      Evidence(matches[..n], members)
        + if matches[n].left in members && matches[n].right in members then [matches[n]] else []
  }

  predicate PairBefore(a: StateMatch, b: StateMatch) {
    a.left < b.left || (a.left == b.left && a.right < b.right)
  }

  /** Puts a comparison behind those that are not after it. */
  function PlacePair(sorted: seq<StateMatch>, m: StateMatch): seq<StateMatch> {
    if sorted == [] then [m]
    else
      var n := |sorted| - 1;
      if PairBefore(m, sorted[n]) then PlacePair(sorted[..n], m) + [sorted[n]] else sorted + [m]
  }

  /** Comparisons by their left and then their right member; equal ones stay in order. */
  function SortPairs(evidence: seq<StateMatch>): seq<StateMatch> {
    if evidence == [] then []
    else PlacePair(SortPairs(evidence[..|evidence| - 1]), evidence[|evidence| - 1])
  }

  ghost predicate PairsOrdered(evidence: seq<StateMatch>) {
    forall i, j :: 0 <= i < j < |evidence| ==> !PairBefore(evidence[j], evidence[i])
  }

  lemma PairsMeaning(evidence: seq<StateMatch>)
    requires PairsOrdered(evidence)
    ensures forall i, j :: 0 <= i < j < |evidence| ==>
              evidence[i].left < evidence[j].left
              || (evidence[i].left == evidence[j].left && evidence[i].right <= evidence[j].right)
  {
    forall i, j | 0 <= i < j < |evidence|
      ensures evidence[i].left < evidence[j].left
              || (evidence[i].left == evidence[j].left && evidence[i].right <= evidence[j].right)
    {
      assert !PairBefore(evidence[j], evidence[i]);
    }
  }

  lemma PairsSnoc(sorted: seq<StateMatch>, m: StateMatch)
    requires PairsOrdered(sorted) && forall x <- sorted :: !PairBefore(m, x)
    ensures PairsOrdered(sorted + [m])
  {
    hide PairBefore;
  }

  lemma PairsPrefix(sorted: seq<StateMatch>, n: nat)
    requires PairsOrdered(sorted) && n < |sorted|
    ensures PairsOrdered(sorted[..n])
    ensures forall x <- sorted[..n] :: !PairBefore(sorted[n], x)
  {
    hide PairBefore;
  }

  lemma {:induction false} PlacePairSorts(sorted: seq<StateMatch>, m: StateMatch)
    requires PairsOrdered(sorted)
    ensures PairsOrdered(PlacePair(sorted, m))
    ensures multiset(PlacePair(sorted, m)) == multiset(sorted) + multiset{m}
  {
    hide PairsOrdered;
    if sorted == [] {
      PairsNone();
      PairsSnoc([], m);
      assert [] + [m] == [m];
    } else {
      var n := |sorted| - 1;
      assert sorted == sorted[..n] + [sorted[n]];
      PairsPrefix(sorted, n);
      if PairBefore(m, sorted[n]) {
        PlacePairSorts(sorted[..n], m);
        var placed := PlacePair(sorted[..n], m);
        forall x | x in placed
          ensures !PairBefore(sorted[n], x)
        {
          assert x in multiset(placed);
          assert x in sorted[..n] || x == m;
        }
        PairsSnoc(placed, sorted[n]);
      } else {
        PairsSnoc(sorted, m);
      }
    }
  }

  lemma PairsNone()
    ensures PairsOrdered([])
  {
  }

  /** Sorting keeps the comparisons and puts them in order. */
  lemma {:induction false} SortPairsSorts(evidence: seq<StateMatch>)
    ensures PairsOrdered(SortPairs(evidence))
    ensures multiset(SortPairs(evidence)) == multiset(evidence)
  {
    if evidence != [] {
      var n := |evidence| - 1;
      SortPairsSorts(evidence[..n]);
      PlacePairSorts(SortPairs(evidence[..n]), evidence[n]);
      assert evidence == evidence[..n] + [evidence[n]];
    }
  }

  /** The last of the weakest classes of the evidence. */
  function Confidence(evidence: seq<StateMatch>): MatchKind {
    if evidence == [] then Different
    else if |evidence| == 1 then evidence[0].kind
    else
      var n := |evidence| - 1;
      var k := Confidence(evidence[..n]);
      if MatchRank(evidence[n].kind) >= MatchRank(k) then evidence[n].kind else k
  }

  lemma ConfidenceStep(evidence: seq<StateMatch>, m: StateMatch)
    ensures Confidence([m]) == m.kind
    ensures evidence != [] ==>
              Confidence(evidence + [m]) == if MatchRank(m.kind) >= MatchRank(Confidence(evidence)) then m.kind else Confidence(evidence)
  {
    assert (evidence + [m])[..|evidence|] == evidence;
  }

  ghost predicate Weakest(evidence: seq<StateMatch>, kind: MatchKind) {
    && (exists m <- evidence :: m.kind == kind)
    && (forall m <- evidence :: MatchRank(m.kind) <= MatchRank(kind))
  }

  lemma WeakestStep(evidence: seq<StateMatch>, kind: MatchKind, m: StateMatch)
    requires Weakest(evidence, kind)
    ensures Weakest(evidence + [m], if MatchRank(m.kind) >= MatchRank(kind) then m.kind else kind)
  {
    hide MatchRank;
    assert m in evidence + [m];
    assert forall x :: x in evidence + [m] <==> x in evidence || x == m;
  }

  /** The confidence is the class of some comparison, and no comparison has a weaker one. */
  lemma {:induction false} ConfidenceIsWeakest(evidence: seq<StateMatch>)
    requires evidence != []
    ensures Weakest(evidence, Confidence(evidence))
  {
    hide Confidence, MatchRank;
    var n := |evidence| - 1;
    assert evidence == evidence[..n] + [evidence[n]];
    ConfidenceStep(evidence[..n], evidence[n]);
    if n > 0 {
      ConfidenceIsWeakest(evidence[..n]);
      WeakestStep(evidence[..n], Confidence(evidence[..n]), evidence[n]);
    } else {
      assert evidence == [evidence[0]];
    }
  }

  function PlaceMember(s: seq<Locator>, x: Locator): (r: seq<Locator>)
    requires Ascending(s)
    ensures Ascending(r) && forall m :: m in r <==> m in s || m == x
  {
    if s == [] then [x]
    else
      var n := |s| - 1;
      if s[n] < x then s + [x]
      else if s[n] == x then s
      else
        assert s == s[..n] + [s[n]];
        var placed := PlaceMember(s[..n], x);
        assert forall i :: 0 <= i < |placed| ==> placed[i] in placed;
        placed + [s[n]]
  }

  /** Both ends of all comparisons, in order and each once. */
  function MembersOf(matches: seq<StateMatch>): (r: seq<Locator>)
    ensures Ascending(r)
  {
    if matches == [] then []
    else
      var n := |matches| - 1;
      PlaceMember(PlaceMember(MembersOf(matches[..n]), matches[n].left), matches[n].right)
  }

  lemma {:induction false} MembersExact(matches: seq<StateMatch>)
    ensures forall x :: x in MembersOf(matches) <==> exists m <- matches :: x == m.left || x == m.right
  {
    if matches != [] {
      var n := |matches| - 1;
      assert matches == matches[..n] + [matches[n]];
      MembersExact(matches[..n]);
      assert forall m :: m in matches <==> m in matches[..n] || m == matches[n];
    }
  }

  /** `edges` are the comparisons, by member index. */
  ghost predicate Indexed(members: seq<Locator>, matches: seq<StateMatch>, edges: seq<Edge>) {
    && |edges| == |matches|
    && forall k :: 0 <= k < |matches| ==>
         && edges[k].0 < |members| && members[edges[k].0] == matches[k].left
         && edges[k].1 < |members| && members[edges[k].1] == matches[k].right
  }

  /** `cluster` is the component whose smallest member has index `root`. */
  ghost predicate IsComponent(members: seq<Locator>, edges: seq<Edge>, root: nat, cluster: seq<Locator>) {
    && root < |members|
    && Ascending(cluster)
    && |cluster| > 0 && cluster[0] == members[root]
    && (forall m :: m in cluster ==> m in members)
    && (forall i: nat :: i < |members| ==> (members[i] in cluster <==> Connected(edges, root, i)))
  }

  /** The members among the first `k` whose root is `r`, in order. */
  function Group(members: seq<Locator>, roots: seq<nat>, k: nat, r: nat): seq<Locator>
    requires k <= |members| == |roots|
  {
    if k == 0 then []
    else Group(members, roots, k - 1, r) + if roots[k - 1] == r then [members[k - 1]] else []
  }

  lemma {:induction false} GroupMembers(members: seq<Locator>, roots: seq<nat>, k: nat, r: nat)
    requires k <= |members| == |roots| && Ascending(members)
    ensures Ascending(Group(members, roots, k, r))
    ensures forall m :: m in Group(members, roots, k, r) <==> exists i :: 0 <= i < k && roots[i] == r && members[i] == m
  {
    if k > 0 {
      GroupMembers(members, roots, k - 1, r);
      var before := Group(members, roots, k - 1, r);
      forall i | 0 <= i < |before|
        ensures before[i] < members[k - 1]
      {
        assert before[i] in before;
      }
    }
  }

  lemma {:induction false} GroupEmpty(members: seq<Locator>, roots: seq<nat>, k: nat, r: nat)
    requires k <= r && k <= |members| == |roots| && forall i :: 0 <= i < |roots| ==> roots[i] <= i
    ensures Group(members, roots, k, r) == []
  {
    if k > 0 {
      GroupEmpty(members, roots, k - 1, r);
    }
  }

  lemma {:induction false} GroupFirst(members: seq<Locator>, roots: seq<nat>, k: nat, r: nat)
    requires r < k <= |members| == |roots| && roots[r] == r
    requires forall i :: 0 <= i < |roots| ==> roots[i] <= i
    ensures |Group(members, roots, k, r)| > 0 && Group(members, roots, k, r)[0] == members[r]
    decreases k
  {
    if k == r + 1 {
      GroupEmpty(members, roots, r, r);
    } else {
      GroupFirst(members, roots, k - 1, r);
    }
  }

  ghost predicate RootsOf(parents: seq<nat>, roots: seq<nat>) {
    && Forest(parents) && |roots| == |parents|
    && forall i :: 0 <= i < |parents| ==> roots[i] == Root(parents, i)
  }

  lemma NonEmptyHas<T(!new)>(s: seq<T>)
    ensures s == [] || exists m :: m in s
  {
    if s != [] {
      assert s[0] in s;
    }
  }

  lemma RootsShape(parents: seq<nat>, roots: seq<nat>)
    requires RootsOf(parents, roots)
    ensures forall i :: 0 <= i < |roots| ==> roots[i] <= i && roots[roots[i]] == roots[i]
  {
  }

  lemma GroupInComponent(members: seq<Locator>, parents: seq<nat>, roots: seq<nat>, edges: seq<Edge>, r: nat, i: nat)
    requires |members| == |parents| && Ascending(members) && Partition(parents, edges)
    requires RootsOf(parents, roots) && r < |members| && roots[r] == r && i < |members|
    ensures members[i] in Group(members, roots, |members|, r) <==> Connected(edges, r, i)
  {
    hide Group, Root, Connected;
    GroupMembers(members, roots, |members|, r);
    SameRootIffConnected(parents, edges, r, i);
  }

  lemma GroupIsComponent(members: seq<Locator>, parents: seq<nat>, roots: seq<nat>, edges: seq<Edge>, r: nat)
    requires |members| == |parents| && Ascending(members) && Partition(parents, edges)
    requires RootsOf(parents, roots) && r < |members|
    ensures roots[r] == r ==> IsComponent(members, edges, r, Group(members, roots, |members|, r))
    ensures roots[r] == r <==> Group(members, roots, |members|, r) != []
  {
    RootsShape(parents, roots);
    GroupMembers(members, roots, |members|, r);
    if roots[r] == r {
      GroupFirst(members, roots, |members|, r);
      forall i: nat | i < |members|
        ensures members[i] in Group(members, roots, |members|, r) <==> Connected(edges, r, i)
      {
        GroupInComponent(members, parents, roots, edges, r, i);
      }
      hide Group, Partition, Connected, RootsOf;
    } else {
      NonEmptyHas(Group(members, roots, |members|, r));
      hide Group, Partition, RootsOf;
    }
  }

  /** The parent forest after all comparisons have been merged. */
  method MergeAll(parents: array<nat>, edges: seq<Edge>)
    requires forall i :: 0 <= i < parents.Length ==> parents[i] == i
    requires forall k :: 0 <= k < |edges| ==> edges[k].0 < parents.Length && edges[k].1 < parents.Length
    modifies parents
    ensures Partition(parents[..], edges)
  {
    SingletonsPartition(parents[..]);
    var k := 0;
    assert edges[..0] == [];
    while k < |edges|
      invariant 0 <= k <= |edges|
      invariant Partition(parents[..], edges[..k])
    {
      ghost var start := parents[..];
      var leftRoot := Find(parents, edges[k].0);
      ghost var middle := parents[..];
      var rightRoot := Find(parents, edges[k].1);
      ghost var found := parents[..];
      SameRootsPartition(start, middle, edges[..k]);
      SameRootsPartition(middle, found, edges[..k]);
      UnionStep(middle, found, edges[k], leftRoot, rightRoot);
      if leftRoot != rightRoot {
        var root, child := Min(leftRoot, rightRoot), Max(leftRoot, rightRoot);
        parents[child] := root;
        assert parents[..] == found[child := root];
      }
      assert parents[..] == Merged(found, edges[k]);
      UnionPartition(found, edges, k);
      k := k + 1;
    }
    assert edges[..k] == edges;
  }

  lemma UnionStep(middle: seq<nat>, found: seq<nat>, e: Edge, left: nat, right: nat)
    requires SameRoots(middle, found) && e.0 < |middle| && e.1 < |middle|
    requires left == Root(middle, e.0) && right == Root(found, e.1)
    ensures left == Root(found, e.0)
  {
  }

  function GroupOf(groups: map<nat, seq<Locator>>, r: nat): seq<Locator> {
    if r in groups then groups[r] else []
  }

  lemma RootsKept(p: seq<nat>, q: seq<nat>, roots: seq<nat>)
    requires RootsOf(p, roots) && SameRoots(p, q)
    ensures RootsOf(q, roots)
  {
  }

  lemma RootsForest(p: seq<nat>, roots: seq<nat>, i: nat)
    requires RootsOf(p, roots) && i < |p|
    ensures Forest(p) && i < |roots| && roots[i] == Root(p, i)
  {
  }

  lemma RootsSize(p: seq<nat>, roots: seq<nat>)
    requires RootsOf(p, roots)
    ensures |p| == |roots|
  {
  }

  /** The groups hold the first `k` members by root. */
  ghost predicate Grouped(members: seq<Locator>, roots: seq<nat>, k: nat, groups: map<nat, seq<Locator>>)
    requires k <= |members| == |roots|
  {
    forall r :: GroupOf(groups, r) == Group(members, roots, k, r)
  }

  lemma GroupNone(members: seq<Locator>, roots: seq<nat>)
    requires |members| == |roots|
    ensures Grouped(members, roots, 0, map[])
  {
  }

  lemma GroupStep(members: seq<Locator>, roots: seq<nat>, k: nat, groups: map<nat, seq<Locator>>)
    requires k < |members| == |roots| && Grouped(members, roots, k, groups)
    ensures Grouped(members, roots, k + 1, groups[roots[k] := GroupOf(groups, roots[k]) + [members[k]]])
  {
    var next := groups[roots[k] := GroupOf(groups, roots[k]) + [members[k]]];
    forall r: nat
      ensures GroupOf(next, r) == Group(members, roots, k + 1, r)
    {
      assert GroupOf(groups, r) == Group(members, roots, k, r);
      assert Group(members, roots, k, r) + [] == Group(members, roots, k, r);
    }
  }

  /** Groups the members by the root of their tree. */
  method CollectGroups(parents: array<nat>, members: seq<Locator>, ghost roots: seq<nat>)
    returns (groups: map<nat, seq<Locator>>)
    requires |members| == parents.Length && RootsOf(parents[..], roots)
    modifies parents
    ensures RootsOf(parents[..], roots)
    ensures |roots| == |members| && Grouped(members, roots, |members|, groups)
  {
    hide Root, Forest, SameRoots, Grouped, RootsOf;
    groups := map[];
    RootsSize(parents[..], roots);
    GroupNone(members, roots);
    var index := 0;
    while index < |members|
      invariant 0 <= index <= |members|
      invariant RootsOf(parents[..], roots)
      invariant Grouped(members, roots, index, groups)
    {
      ghost var before := parents[..];
      RootsForest(before, roots, index);
      var root := Find(parents, index);
      RootsKept(before, parents[..], roots);
      RootsForest(parents[..], roots, index);
      GroupStep(members, roots, index, groups);
      groups := groups[root := GroupOf(groups, root) + [members[index]]];
      index := index + 1;
    }
  }

  function ClusterOf(matches: seq<StateMatch>, members: seq<Locator>): Cluster {
    var evidence := SortPairs(Evidence(matches, members));
    Cluster(members, evidence, Confidence(evidence))
  }

  ghost predicate IsCluster(members: seq<Locator>, matches: seq<StateMatch>, edges: seq<Edge>, c: Cluster) {
    && c == ClusterOf(matches, c.members)
    && exists root :: IsComponent(members, edges, root, c.members)
  }

  ghost predicate Led(clusters: seq<Cluster>) {
    && (forall c :: 0 <= c < |clusters| ==> clusters[c].members != [])
    && forall c, d :: 0 <= c < d < |clusters| ==> clusters[c].members[0] != clusters[d].members[0]
  }

  /** Components of the comparison graph, no two led by the same member. */
  ghost predicate Clustered(members: seq<Locator>, matches: seq<StateMatch>, edges: seq<Edge>, clusters: seq<Cluster>) {
    && Led(clusters)
    && forall c :: 0 <= c < |clusters| ==> IsCluster(members, matches, edges, clusters[c])
  }

  ghost predicate EveryMemberPlaced(members: seq<Locator>, clusters: seq<Cluster>) {
    forall m :: m in members ==> exists c :: 0 <= c < |clusters| && m in clusters[c].members
  }

  /** Surer clusters come first, and among equally sure ones the lesser leader. */
  predicate ClusterBefore(a: Cluster, b: Cluster)
    requires a.members != [] && b.members != []
  {
    || MatchRank(a.confidence) < MatchRank(b.confidence)
    || (MatchRank(a.confidence) == MatchRank(b.confidence) && a.members[0] < b.members[0])
  }

  ghost predicate ClustersOrdered(clusters: seq<Cluster>) {
    && (forall c :: 0 <= c < |clusters| ==> clusters[c].members != [])
    && forall c, d :: 0 <= c < d < |clusters| ==> ClusterBefore(clusters[c], clusters[d])
  }

  function PlaceCluster(sorted: seq<Cluster>, x: Cluster): (r: seq<Cluster>)
    requires x.members != [] && forall c <- sorted :: c.members != []
    ensures forall c :: c in r <==> c in sorted || c == x
    ensures |r| == |sorted| + 1
  {
    if sorted == [] then [x]
    else
      var n := |sorted| - 1;
      assert sorted == sorted[..n] + [sorted[n]];
      if ClusterBefore(x, sorted[n]) then PlaceCluster(sorted[..n], x) + [sorted[n]] else sorted + [x]
  }

  function SortClusters(clusters: seq<Cluster>): (r: seq<Cluster>)
    requires forall c <- clusters :: c.members != []
    ensures forall c :: c in r <==> c in clusters
    ensures |r| == |clusters|
  {
    if clusters == [] then []
    else
      var n := |clusters| - 1;
      assert clusters == clusters[..n] + [clusters[n]];
      PlaceCluster(SortClusters(clusters[..n]), clusters[n])
  }

  ghost predicate Leads(clusters: seq<Cluster>, x: Cluster) {
    x.members != [] && forall c <- clusters :: c.members != [] && c.members[0] != x.members[0]
  }

  lemma OrderedSnoc(sorted: seq<Cluster>, x: Cluster)
    requires ClustersOrdered(sorted) && Led(sorted) && Leads(sorted, x) && forall c <- sorted :: ClusterBefore(c, x)
    ensures ClustersOrdered(sorted + [x]) && Led(sorted + [x])
  {
    hide ClusterBefore;
  }

  lemma OrderedPrefix(sorted: seq<Cluster>, n: nat)
    requires ClustersOrdered(sorted) && Led(sorted) && n < |sorted|
    ensures ClustersOrdered(sorted[..n]) && Led(sorted[..n])
    ensures Leads(sorted[..n], sorted[n]) && forall c <- sorted[..n] :: ClusterBefore(c, sorted[n])
  {
    hide ClusterBefore;
  }

  lemma {:induction false} PlaceClusterSorts(sorted: seq<Cluster>, x: Cluster)
    requires ClustersOrdered(sorted) && Led(sorted) && Leads(sorted, x)
    ensures ClustersOrdered(PlaceCluster(sorted, x)) && Led(PlaceCluster(sorted, x))
  {
    if sorted != [] {
      var n := |sorted| - 1;
      assert sorted == sorted[..n] + [sorted[n]];
      assert sorted[n] in sorted;
      OrderedPrefix(sorted, n);
      hide ClustersOrdered, Led;
      if ClusterBefore(x, sorted[n]) {
        PlaceClusterSorts(sorted[..n], x);
        OrderedSnoc(PlaceCluster(sorted[..n], x), sorted[n]);
      } else {
        OrderedSnoc(sorted, x);
      }
    }
  }

  lemma {:induction false} SortClustersSorts(clusters: seq<Cluster>)
    requires Led(clusters)
    ensures forall c <- clusters :: c.members != []
    ensures ClustersOrdered(SortClusters(clusters)) && Led(SortClusters(clusters))
  {
    if clusters != [] {
      var n := |clusters| - 1;
      assert clusters == clusters[..n] + [clusters[n]];
      SortClustersSorts(clusters[..n]);
      PlaceClusterSorts(SortClusters(clusters[..n]), clusters[n]);
    }
  }

  /** Groups matched states into clusters: exactly the components of the comparison
      graph, each led by its smallest member and holding every comparison inside it, in
      order of confidence and leader. */
  method ClusterComparisons(matches: seq<StateMatch>) returns (clusters: seq<Cluster>, ghost edges: seq<Edge>)
    ensures Indexed(MembersOf(matches), matches, edges)
    ensures Clustered(MembersOf(matches), matches, edges, clusters)
    ensures EveryMemberPlaced(MembersOf(matches), clusters)
    ensures ClustersOrdered(clusters)
    ensures forall c, d :: 0 <= c < d < |clusters| ==>
              && MatchRank(clusters[c].confidence) <= MatchRank(clusters[d].confidence)
              && clusters[c].members != [] && clusters[d].members != []
              && (clusters[c].confidence == clusters[d].confidence ==> clusters[c].members[0] < clusters[d].members[0])
  {
    hide IsCluster, Clustered, EveryMemberPlaced, ClustersOrdered, Led, MembersOf, SortClusters;
    hide Partition, RootsOf, Grouped, Indexed, Ascending;
    var members := MembersOf(matches);
    EndsAreMembers(matches);
    ghost var forest, roots;
    var groups;
    groups, edges, forest, roots := MergeMembers(members, matches);
    var found := BuildClusters(members, matches, groups, forest, roots, edges);
    AreLed(members, matches, edges, found);
    SortClustersSorts(found);
    clusters := SortClusters(found);
    SortedClustered(members, matches, edges, found, clusters);
    SortedPlaced(members, found, clusters);
    OrderMeaning(clusters);
  }

  lemma OrderMeaning(clusters: seq<Cluster>)
    requires ClustersOrdered(clusters)
    ensures forall c, d :: 0 <= c < d < |clusters| ==>
              && MatchRank(clusters[c].confidence) <= MatchRank(clusters[d].confidence)
              && clusters[c].members != [] && clusters[d].members != []
              && (clusters[c].confidence == clusters[d].confidence ==> clusters[c].members[0] < clusters[d].members[0])
  {
    forall c, d | 0 <= c < d < |clusters|
      ensures MatchRank(clusters[c].confidence) <= MatchRank(clusters[d].confidence)
      ensures clusters[c].confidence == clusters[d].confidence ==> clusters[c].members[0] < clusters[d].members[0]
    {
      assert ClusterBefore(clusters[c], clusters[d]);
    }
  }

  /** Merges along all comparisons, then groups the members by root. */
  method MergeMembers(members: seq<Locator>, matches: seq<StateMatch>)
    returns (groups: map<nat, seq<Locator>>, ghost edges: seq<Edge>, ghost forest: seq<nat>, ghost roots: seq<nat>)
    requires Ascending(members)
    requires forall k :: 0 <= k < |matches| ==> matches[k].left in members && matches[k].right in members
    ensures Indexed(members, matches, edges) && Partition(forest, edges) && RootsOf(forest, roots)
    ensures |members| == |forest| == |roots| && Grouped(members, roots, |members|, groups)
  {
    hide Partition, Root, Indexed, RootsOf, Grouped, Ascending;
    var e := IndexEdges(members, matches);
    IndexedInRange(members, matches, e);
    edges := e;
    var parents := new nat[|members|](i => i);
    MergeAll(parents, e);
    forest := parents[..];
    roots := RootList(forest, edges);
    groups := CollectGroups(parents, members, roots);
  }

  lemma IndexedInRange(members: seq<Locator>, matches: seq<StateMatch>, edges: seq<Edge>)
    requires Indexed(members, matches, edges)
    ensures forall k :: 0 <= k < |edges| ==> edges[k].0 < |members| && edges[k].1 < |members|
  {
  }

  lemma RootList(forest: seq<nat>, edges: seq<Edge>) returns (roots: seq<nat>)
    requires Partition(forest, edges)
    ensures RootsOf(forest, roots) && |roots| == |forest|
  {
    roots := seq(|forest|, i requires 0 <= i < |forest| => Root(forest, i));
  }

  lemma AreLed(members: seq<Locator>, matches: seq<StateMatch>, edges: seq<Edge>, clusters: seq<Cluster>)
    requires Clustered(members, matches, edges, clusters)
    ensures Led(clusters)
  {
  }

  lemma SortedClustered(members: seq<Locator>, matches: seq<StateMatch>, edges: seq<Edge>,
                        found: seq<Cluster>, clusters: seq<Cluster>)
    requires Clustered(members, matches, edges, found) && Led(clusters)
    requires forall c :: c in clusters ==> c in found
    ensures Clustered(members, matches, edges, clusters)
  {
    hide IsCluster;
    forall c | 0 <= c < |clusters|
      ensures IsCluster(members, matches, edges, clusters[c])
    {
      assert clusters[c] in found;
    }
  }

  lemma SortedPlaced(members: seq<Locator>, found: seq<Cluster>, clusters: seq<Cluster>)
    requires EveryMemberPlaced(members, found) && forall c :: c in found ==> c in clusters
    ensures EveryMemberPlaced(members, clusters)
  {
    forall m | m in members
      ensures exists c :: 0 <= c < |clusters| && m in clusters[c].members
    {
      var c :| 0 <= c < |found| && m in found[c].members;
      assert found[c] in clusters;
    }
  }

  lemma EndIsMember(matches: seq<StateMatch>, m: StateMatch)
    requires m in matches
    ensures m.left in MembersOf(matches) && m.right in MembersOf(matches)
  {
    hide MembersOf;
    MembersExact(matches);
    assert m.left == m.left || m.left == m.right;
  }

  lemma EndsAreMembers(matches: seq<StateMatch>)
    ensures forall k :: 0 <= k < |matches| ==>
              matches[k].left in MembersOf(matches) && matches[k].right in MembersOf(matches)
  {
    hide MembersOf;
    forall k | 0 <= k < |matches|
      ensures matches[k].left in MembersOf(matches) && matches[k].right in MembersOf(matches)
    {
      EndIsMember(matches, matches[k]);
    }
  }

  /** The comparisons by member index, looked up in a map from member to index. */
  method IndexEdges(members: seq<Locator>, matches: seq<StateMatch>) returns (edges: seq<Edge>)
    requires Ascending(members)
    requires forall k :: 0 <= k < |matches| ==> matches[k].left in members && matches[k].right in members
    ensures Indexed(members, matches, edges)
  {
    var indexes: map<Locator, nat> := map[];
    for i := 0 to |members|
      invariant forall m :: m in indexes <==> m in members[..i]
      invariant forall m :: m in indexes ==> indexes[m] < i && members[indexes[m]] == m
    {
      indexes := indexes[members[i] := i];
    }
    assert members[..|members|] == members;
    edges := seq(|matches|, k requires 0 <= k < |matches| =>
                              (indexes[matches[k].left], indexes[matches[k].right]));
  }

  method BuildClusters(members: seq<Locator>, matches: seq<StateMatch>, groups: map<nat, seq<Locator>>,
                       ghost forest: seq<nat>, ghost roots: seq<nat>, ghost edges: seq<Edge>)
    returns (clusters: seq<Cluster>)
    requires |members| == |forest| && Ascending(members) && Partition(forest, edges) && RootsOf(forest, roots)
    requires |roots| == |members| && Grouped(members, roots, |members|, groups)
    ensures Clustered(members, matches, edges, clusters)
    ensures EveryMemberPlaced(members, clusters)
  {
    hide Partition, Root, Group, ClusterOf, Connected, RootsOf, Clustered, IsComponent, EveryMemberPlaced, Found;
    clusters := [];
    FoundNone(members, matches, edges);
    ghost var leaders: seq<nat> := [];
    var root := 0;
    while root < |members|
      invariant 0 <= root <= |members|
      invariant Found(members, matches, edges, leaders, clusters)
      invariant forall c :: 0 <= c < |leaders| ==> leaders[c] < root
      invariant forall r :: 0 <= r < root && roots[r] == r ==> r in leaders
    {
      GroupIsComponent(members, forest, roots, edges, root);
      if GroupOf(groups, root) != [] {
        FoundStep(members, matches, edges, leaders, clusters, root, groups[root]);
        clusters := clusters + [ClusterOf(matches, groups[root])];
        leaders := leaders + [root];
      }
      root := root + 1;
    }
    FoundClustered(members, matches, edges, leaders, clusters);
    AllPlaced(members, matches, forest, roots, edges, leaders, clusters);
  }

  /** The clusters found so far are led by the members at `leaders`, in order. */
  ghost predicate Found(members: seq<Locator>, matches: seq<StateMatch>, edges: seq<Edge>,
                        leaders: seq<nat>, clusters: seq<Cluster>)
  {
    && |leaders| == |clusters|
    && (forall c, d :: 0 <= c < d < |leaders| ==> leaders[c] < leaders[d])
    && (forall c :: 0 <= c < |clusters| ==>
          && IsComponent(members, edges, leaders[c], clusters[c].members)
          && clusters[c] == ClusterOf(matches, clusters[c].members))
  }

  lemma FoundNone(members: seq<Locator>, matches: seq<StateMatch>, edges: seq<Edge>)
    ensures Found(members, matches, edges, [], [])
  {
  }

  lemma FoundStep(members: seq<Locator>, matches: seq<StateMatch>, edges: seq<Edge>,
                  leaders: seq<nat>, clusters: seq<Cluster>, root: nat, group: seq<Locator>)
    requires Found(members, matches, edges, leaders, clusters)
    requires forall c :: 0 <= c < |leaders| ==> leaders[c] < root
    requires IsComponent(members, edges, root, group)
    ensures Found(members, matches, edges, leaders + [root], clusters + [ClusterOf(matches, group)])
  {
    hide IsComponent, Evidence, SortPairs, Confidence;
  }

  lemma FoundClustered(members: seq<Locator>, matches: seq<StateMatch>, edges: seq<Edge>,
                       leaders: seq<nat>, clusters: seq<Cluster>)
    requires Ascending(members) && Found(members, matches, edges, leaders, clusters)
    ensures Clustered(members, matches, edges, clusters)
  {
    hide ClusterOf, Connected;
  }

  lemma AllPlaced(members: seq<Locator>, matches: seq<StateMatch>, forest: seq<nat>, roots: seq<nat>,
                  edges: seq<Edge>, leaders: seq<nat>, clusters: seq<Cluster>)
    requires |members| == |forest| && Partition(forest, edges) && RootsOf(forest, roots)
    requires Found(members, matches, edges, leaders, clusters)
    requires |roots| == |forest|
    requires forall r :: 0 <= r < |members| && roots[r] == r ==> r in leaders
    ensures EveryMemberPlaced(members, clusters)
  {
    hide Connected, Partition, RootsOf, ClusterOf;
    forall m | m in members
      ensures exists c :: 0 <= c < |clusters| && m in clusters[c].members
    {
      var i :| 0 <= i < |members| && members[i] == m;
      RootFacts(forest, roots, edges, i);
      var c :| 0 <= c < |leaders| && leaders[c] == roots[i];
      assert IsComponent(members, edges, leaders[c], clusters[c].members);
    }
  }

  lemma RootFacts(forest: seq<nat>, roots: seq<nat>, edges: seq<Edge>, i: nat)
    requires Partition(forest, edges) && RootsOf(forest, roots) && i < |forest|
    ensures |roots| == |forest|
    ensures roots[i] <= i && roots[roots[i]] == roots[i] && Connected(edges, roots[i], i)
  {
    ConnectedSym(edges, i, roots[i]);
  }

  lemma LeaderIsLeast(members: seq<Locator>, edges: seq<Edge>, root: nat, cluster: seq<Locator>, a: nat)
    requires Ascending(members) && IsComponent(members, edges, root, cluster)
    requires a < |members| && Connected(edges, root, a)
    ensures root <= a
  {
    assert members[a] in cluster;
    var i :| 0 <= i < |cluster| && cluster[i] == members[a];
    assert cluster[0] <= cluster[i];
  }

  /** No member lies in two clusters. */
  lemma ClustersDisjoint(members: seq<Locator>, matches: seq<StateMatch>, edges: seq<Edge>,
                         clusters: seq<Cluster>, c: nat, d: nat, i: nat)
    requires Ascending(members) && Clustered(members, matches, edges, clusters)
    requires c < d < |clusters| && i < |members|
    ensures members[i] !in clusters[c].members || members[i] !in clusters[d].members
  {
    hide ClusterOf, Connected;
    var a :| IsComponent(members, edges, a, clusters[c].members);
    var b :| IsComponent(members, edges, b, clusters[d].members);
    if Connected(edges, a, i) && Connected(edges, b, i) {
      ConnectedSym(edges, a, i);
      ConnectedTrans(edges, b, i, a);
      LeaderIsLeast(members, edges, b, clusters[d].members, a);
      ConnectedSym(edges, b, a);
      LeaderIsLeast(members, edges, a, clusters[c].members, b);
      assert false;
    }
  }

  /** Two members share a cluster exactly when a chain of comparisons joins them. */
  lemma SameClusterIffConnected(members: seq<Locator>, matches: seq<StateMatch>, edges: seq<Edge>,
                                clusters: seq<Cluster>, c: nat, i: nat, j: nat)
    requires Clustered(members, matches, edges, clusters)
    requires c < |clusters| && i < |members| && j < |members| && members[i] in clusters[c].members
    ensures members[j] in clusters[c].members <==> Connected(edges, i, j)
  {
    hide ClusterOf, Connected;
    var a :| IsComponent(members, edges, a, clusters[c].members);
    ConnectedSym(edges, a, i);
    if Connected(edges, a, j) {
      ConnectedTrans(edges, i, a, j);
    }
    if Connected(edges, i, j) {
      ConnectedTrans(edges, a, i, j);
    }
  }

  lemma {:induction false} EvidenceHolds(matches: seq<StateMatch>, members: seq<Locator>)
    ensures forall m :: m in Evidence(matches, members) <==> m in matches && m.left in members && m.right in members
  {
    if matches != [] {
      var n := |matches| - 1;
      EvidenceHolds(matches[..n], members);
      assert matches == matches[..n] + [matches[n]];
    }
  }

  /** The evidence of a cluster is what was compared inside it, in order, and there is some;
      its confidence is the weakest class among it. */
  lemma ClusterEvidence(matches: seq<StateMatch>, edges: seq<Edge>, clusters: seq<Cluster>, c: nat)
    requires Indexed(MembersOf(matches), matches, edges) && Clustered(MembersOf(matches), matches, edges, clusters)
    requires c < |clusters|
    ensures var k := clusters[c];
            && multiset(k.evidence) == multiset(Evidence(matches, k.members))
            && (forall i, j :: 0 <= i < j < |k.evidence| ==>
                  k.evidence[i].left < k.evidence[j].left
                  || (k.evidence[i].left == k.evidence[j].left && k.evidence[i].right <= k.evidence[j].right))
            && (forall m :: m in k.evidence <==> m in matches && m.left in k.members && m.right in k.members)
            && k.evidence != []
            && Weakest(k.evidence, k.confidence)
  {
    hide MembersOf, Confidence, Connected, SortPairs, Evidence;
    var k, members := clusters[c], MembersOf(matches);
    MembersExact(matches);
    SortPairsSorts(Evidence(matches, k.members));
    PairsMeaning(k.evidence);
    EvidenceHolds(matches, k.members);
    assert forall m :: m in k.evidence <==> m in multiset(k.evidence);
    assert k == ClusterOf(matches, k.members);
    var head := k.members[0];
    var root :| IsComponent(members, edges, root, k.members);
    assert head in members;
    var m :| m in matches && (head == m.left || head == m.right);
    var j :| 0 <= j < |matches| && matches[j] == m;
    EdgeInside(members, matches, edges, root, k.members, j);
    assert m in k.evidence;
    ConfidenceIsWeakest(k.evidence);
  }

  /** A comparison with one end in a component has both there. */
  lemma EdgeInside(members: seq<Locator>, matches: seq<StateMatch>, edges: seq<Edge>, root: nat, cluster: seq<Locator>, j: nat)
    requires Indexed(members, matches, edges) && IsComponent(members, edges, root, cluster) && j < |matches|
    ensures matches[j].left in cluster <==> matches[j].right in cluster
  {
    ConnectedEdge(edges, j);
    var a, b := edges[j].0, edges[j].1;
    ConnectedSym(edges, a, b);
    if Connected(edges, root, a) {
      ConnectedTrans(edges, root, a, b);
    }
    if Connected(edges, root, b) {
      ConnectedTrans(edges, root, b, a);
    }
  }

  /** Every comparison is evidence of the cluster that holds either of its ends. */
  lemma ComparisonInCluster(matches: seq<StateMatch>, edges: seq<Edge>, clusters: seq<Cluster>, c: nat, k: nat)
    requires Indexed(MembersOf(matches), matches, edges) && Clustered(MembersOf(matches), matches, edges, clusters)
    requires c < |clusters| && k < |matches|
    requires matches[k].left in clusters[c].members || matches[k].right in clusters[c].members
    ensures matches[k].left in clusters[c].members && matches[k].right in clusters[c].members
    ensures matches[k] in clusters[c].evidence
  {
    hide MembersOf, ClusterOf, Connected;
    ClusterEvidence(matches, edges, clusters, c);
    var root :| IsComponent(MembersOf(matches), edges, root, clusters[c].members);
    EdgeInside(MembersOf(matches), matches, edges, root, clusters[c].members, k);
    assert matches[k] in matches;
  }
}
