/** What one runtime integrity session records (src/runtime_integrity.rs) about the
    differences between two snapshots of the workspace (src/workspace_integrity.rs). */
module JournalSession {
  import opened Basics

  type Path = nat

  type Identity = int

  type Snapshot = map<Path, Identity>

  datatype Kind = Added | Modified | Deleted

  datatype Mutation = Mutation(path: Path, kind: Kind, before: Option<Identity>, after: Option<Identity>)

  datatype Key = Key(path: Path, kind: Kind)

  datatype Status = Active | Clean | Changes | Violation

  const MAX_EVENTS: nat := 10_000

  function KeyOf(m: Mutation): Key {
    Key(m.path, m.kind)
  }

  // ------------------------------------------------------------------------ delta

  /** The change of one path between two snapshots, if it changed. */
  function ChangeOf(baseline: Snapshot, current: Snapshot, p: Path): Option<Mutation> {
    if p in current then
      if p !in baseline then Some(Mutation(p, Added, None, Some(current[p])))
      else if baseline[p] != current[p] then Some(Mutation(p, Modified, Some(baseline[p]), Some(current[p])))
      else None
    else if p in baseline then Some(Mutation(p, Deleted, Some(baseline[p]), None))
    else None
  }

  /** The lists hold exactly the changes of paths that are not owned, each once. */
  ghost predicate IsDelta(baseline: Snapshot, current: Snapshot, owned: set<Path>, delta: seq<Mutation>) {
    && (forall m :: m in delta ==> m.path !in owned && ChangeOf(baseline, current, m.path) == Some(m))
    && (forall p :: p !in owned && ChangeOf(baseline, current, p).Some? ==> ChangeOf(baseline, current, p).value in delta)
    && (forall i, j :: 0 <= i < j < |delta| ==> delta[i].path != delta[j].path)
  }

  function Find(m: Snapshot, p: Path): Option<Identity> {
    if p in m then Some(m[p]) else None
  }

  ghost predicate Touched(delta: seq<Mutation>, p: Path) {
    exists m <- delta :: m.path == p
  }

  /** The delta leads from one snapshot to the other and back: outside the owned paths a
      path holds before and after what its mutation says, or is untouched and the same; and
      the kind says which of the two sides is there. */
  lemma DeltaLeads(baseline: Snapshot, current: Snapshot, owned: set<Path>, delta: seq<Mutation>)
    requires IsDelta(baseline, current, owned, delta)
    ensures forall m <- delta ::
              && m.path !in owned && m.before == Find(baseline, m.path) && m.after == Find(current, m.path)
              && m.before != m.after
              && (m.kind == Added <==> m.before.None?)
              && (m.kind == Deleted <==> m.after.None?)
              && (m.kind == Modified <==> m.before.Some? && m.after.Some?)
    ensures forall p :: p !in owned && !Touched(delta, p) ==> Find(baseline, p) == Find(current, p)
  {
    forall p | p !in owned && ChangeOf(baseline, current, p).Some?
      ensures Touched(delta, p)
    {
      assert ChangeOf(baseline, current, p).value in delta;
    }
  }

  /** Exactly the changes of the given paths, each once. */
  ghost predicate ChangesOf(baseline: Snapshot, current: Snapshot, paths: set<Path>, found: seq<Mutation>) {
    && (forall m <- found :: m.path in paths && ChangeOf(baseline, current, m.path) == Some(m))
    && (forall p <- paths :: ChangeOf(baseline, current, p).Some? ==> ChangeOf(baseline, current, p).value in found)
    && (forall i, j :: 0 <= i < j < |found| ==> found[i].path != found[j].path)
  }

  lemma ChangesSplit(baseline: Snapshot, current: Snapshot, one: set<Path>, two: set<Path>, a: seq<Mutation>, b: seq<Mutation>)
    requires ChangesOf(baseline, current, one, a) && ChangesOf(baseline, current, two, b) && one !! two
    ensures ChangesOf(baseline, current, one + two, a + b)
  {
    hide ChangeOf;
  }

  lemma NoChanges(baseline: Snapshot, current: Snapshot)
    ensures ChangesOf(baseline, current, {}, [])
  {
  }

  lemma OneChange(baseline: Snapshot, current: Snapshot, p: Path)
    ensures var c := ChangeOf(baseline, current, p); ChangesOf(baseline, current, {p}, if c.Some? then [c.value] else [])
  {
  }

  lemma Widened(baseline: Snapshot, current: Snapshot, paths: set<Path>, found: seq<Mutation>, p: Path, step: seq<Mutation>)
    requires ChangesOf(baseline, current, paths, found) && p !in paths
    requires var c := ChangeOf(baseline, current, p); step == if c.Some? then [c.value] else []
    ensures ChangesOf(baseline, current, paths + {p}, found + step)
  {
    hide ChangesOf, ChangeOf;
    OneChange(baseline, current, p);
    ChangesSplit(baseline, current, paths, {p}, found, step);
  }

  /** The paths a scan has dealt with: those taken from `all`, less the excepted ones. */
  ghost function Done(all: set<Path>, rest: set<Path>, except: set<Path>): set<Path> {
    all - rest - except
  }

  lemma DoneNext(all: set<Path>, rest: set<Path>, except: set<Path>, p: Path)
    requires p in rest && rest <= all
    ensures Done(all, rest - {p}, except) == Done(all, rest, except) + (if p in except then {} else {p})
    ensures p !in Done(all, rest, except)
  {
  }

  lemma DoneFirst(all: set<Path>, except: set<Path>)
    ensures Done(all, all, except) == {}
  {
  }

  lemma Taken(baseline: Snapshot, current: Snapshot, all: set<Path>, rest: set<Path>, except: set<Path>, p: Path,
              found: seq<Mutation>, step: seq<Mutation>)
    requires p in rest && rest <= all && ChangesOf(baseline, current, Done(all, rest, except), found)
    requires var c := ChangeOf(baseline, current, p);
             step == if p in except then [] else if c.Some? then [c.value] else []
    ensures ChangesOf(baseline, current, Done(all, rest - {p}, except), found + step)
  {
    hide ChangesOf, ChangeOf, Done;
    DoneNext(all, rest, except, p);
    if p in except {
      assert found + [] == found;
      assert Done(all, rest, except) + {} == Done(all, rest, except);
    } else {
      Widened(baseline, current, Done(all, rest, except), found, p, step);
    }
  }

  /** Added and modified files, in separate lists. */
  method ScanCurrent(baseline: Snapshot, current: Snapshot, owned: set<Path>, ghost notNew: set<Path>, ghost notOld: set<Path>)
    returns (added: seq<Mutation>, modified: seq<Mutation>)
    requires notNew == baseline.Keys + owned && notOld == (current.Keys - baseline.Keys) + owned
    ensures ChangesOf(baseline, current, Done(current.Keys, {}, notNew), added)
    ensures ChangesOf(baseline, current, Done(current.Keys, {}, notOld), modified)
  {
    hide ChangesOf, Done;
    added, modified := [], [];
    var rest := current.Keys;
    NoChanges(baseline, current);
    DoneFirst(current.Keys, notNew);
    DoneFirst(current.Keys, notOld);
    while rest != {}
      invariant rest <= current.Keys
      invariant ChangesOf(baseline, current, Done(current.Keys, rest, notNew), added)
      invariant ChangesOf(baseline, current, Done(current.Keys, rest, notOld), modified)
      decreases |rest|
    {
      var p :| p in rest;
      var newly, changed: seq<Mutation> := [], [];
      if p !in owned {
        if p !in baseline {
          newly := [Mutation(p, Added, None, Some(current[p]))];
        } else if baseline[p] != current[p] {
          changed := [Mutation(p, Modified, Some(baseline[p]), Some(current[p]))];
        }
      }
      Taken(baseline, current, current.Keys, rest, notNew, p, added, newly);
      Taken(baseline, current, current.Keys, rest, notOld, p, modified, changed);
      added, modified := added + newly, modified + changed;
      rest := rest - {p};
    }
  }

  method ScanBaseline(baseline: Snapshot, current: Snapshot, owned: set<Path>, ghost notGone: set<Path>)
    returns (deleted: seq<Mutation>)
    requires notGone == current.Keys + owned
    ensures ChangesOf(baseline, current, Done(baseline.Keys, {}, notGone), deleted)
  {
    hide ChangesOf, Done;
    deleted := [];
    var rest := baseline.Keys;
    NoChanges(baseline, current);
    DoneFirst(baseline.Keys, notGone);
    while rest != {}
      invariant rest <= baseline.Keys
      invariant ChangesOf(baseline, current, Done(baseline.Keys, rest, notGone), deleted)
      decreases |rest|
    {
      var p :| p in rest;
      var step: seq<Mutation> := [];
      if p !in owned && p !in current {
        step := [Mutation(p, Deleted, Some(baseline[p]), None)];
      }
      Taken(baseline, current, baseline.Keys, rest, notGone, p, deleted, step);
      deleted := deleted + step;
      rest := rest - {p};
    }
  }

  /** Compares the current files with the baseline, then looks for what is gone. */
  method CompareSnapshots(baseline: Snapshot, current: Snapshot, owned: set<Path>) returns (delta: seq<Mutation>)
    ensures IsDelta(baseline, current, owned, delta)
  {
    hide ChangesOf, IsDelta, ChangeOf, Done;
    ghost var notNew, notOld, notGone :=
      baseline.Keys + owned, (current.Keys - baseline.Keys) + owned, current.Keys + owned;
    var added, modified := ScanCurrent(baseline, current, owned, notNew, notOld);
    var deleted := ScanBaseline(baseline, current, owned, notGone);
    ghost var one, two, three := Done(current.Keys, {}, notNew), Done(current.Keys, {}, notOld), Done(baseline.Keys, {}, notGone);
    AllDone(baseline.Keys, current.Keys, owned);
    ChangesSplit(baseline, current, one, two, added, modified);
    ChangesSplit(baseline, current, one + two, three, added + modified, deleted);
    delta := added + modified + deleted;
    DeltaOf(baseline, current, owned, delta);
  }

  lemma AllDone(old0: set<Path>, now: set<Path>, owned: set<Path>)
    ensures var one, two, three := Done(now, {}, old0 + owned), Done(now, {}, (now - old0) + owned), Done(old0, {}, now + owned);
            one !! two && (one + two) !! three && one + two + three == now + old0 - owned
  {
  }

  lemma DeltaOf(baseline: Snapshot, current: Snapshot, owned: set<Path>, delta: seq<Mutation>)
    requires ChangesOf(baseline, current, current.Keys + baseline.Keys - owned, delta)
    ensures IsDelta(baseline, current, owned, delta)
  {
  }

  // ---------------------------------------------------------------------- session

  predicate DistinctKeys(events: seq<Mutation>) {
    forall i, j :: 0 <= i < j < |events| ==> KeyOf(events[i]) != KeyOf(events[j])
  }

  /** The keys of all differences outside the owned paths. */
  ghost function ChangeKeys(baseline: Snapshot, current: Snapshot, owned: set<Path>): set<Key> {
    set p | p in baseline.Keys + current.Keys - owned && ChangeOf(baseline, current, p).Some?
          :: KeyOf(ChangeOf(baseline, current, p).value)
  }

  ghost function KeysOf(delta: seq<Mutation>): set<Key> {
    set m | m in delta :: KeyOf(m)
  }

  lemma DeltaKeys(baseline: Snapshot, current: Snapshot, owned: set<Path>, delta: seq<Mutation>)
    requires IsDelta(baseline, current, owned, delta)
    ensures KeysOf(delta) == ChangeKeys(baseline, current, owned)
  {
  }

  /** A finalized status follows from the recorded events alone. */
  function StatusOf(events: seq<Mutation>): Status {
    if exists m <- events :: m.kind == Deleted then Violation else if events == [] then Clean else Changes
  }

  /** The status that everything observed calls for. */
  function Demanded(observed: set<Key>): Status {
    if exists k <- observed :: k.kind == Deleted then Violation else if observed == {} then Clean else Changes
  }

  function Rank(s: Status): nat {
    match s case Active => 0 case Clean => 1 case Changes => 2 case Violation => 3
  }

  /** More events never make a status milder. */
  lemma StatusNeverMilder(before: seq<Mutation>, after: seq<Mutation>)
    requires before <= after
    ensures Rank(StatusOf(before)) <= Rank(StatusOf(after))
  {
    assert forall m :: m in before ==> m in after by {
      assert after == before + after[|before|..];
    }
  }

  /** Every observed difference has exactly one event, or was lost to the cap. */
  ghost predicate Accounted(events: seq<Mutation>, observed: set<Key>, lost: set<Key>) {
    && |events| <= MAX_EVENTS
    && DistinctKeys(events)
    && (forall k :: k in observed <==> k in lost || HasEvent(events, k))
    && (forall k :: k in lost ==> !HasEvent(events, k))
    && (lost != {} ==> |events| == MAX_EVENTS)
    && |observed| == |events| + |lost|
  }

  /** The status of the recorded events is never stricter than what was observed calls for,
      and milder exactly when a deletion was lost to the cap and none is recorded. */
  lemma StatusExactIff(events: seq<Mutation>, observed: set<Key>, lost: set<Key>)
    requires Accounted(events, observed, lost)
    ensures Rank(StatusOf(events)) <= Rank(Demanded(observed))
    ensures StatusOf(events) == Demanded(observed)
       <==> (exists m <- events :: m.kind == Deleted) || (forall k <- lost :: k.kind != Deleted)
  {
    forall m | m in events
      ensures KeyOf(m) in observed
    {
      assert HasEvent(events, KeyOf(m));
    }
    if events == [] {
      assert observed == {};
    } else {
      assert KeyOf(events[0]) in observed;
    }
  }

  datatype Outcome = Recorded | Full | NotStored

  class Session {
    const baseline: Snapshot
    const owned: set<Path>
    var events: seq<Mutation>
    var observed: set<Key>
    var status: Status
    /** Differences whose observation met a full event list. */
    ghost var lost: set<Key>

    ghost predicate Valid()
      reads this
    {
      Accounted(events, observed, lost) && (status != Active ==> Rank(status) <= Rank(StatusOf(events)))
    }

    constructor (baseline: Snapshot, owned: set<Path>)
      ensures Valid() && events == [] && observed == {} && lost == {} && status == Active
      ensures this.baseline == baseline && this.owned == owned
    {
      this.baseline, this.owned := baseline, owned;
      events, observed, status, lost := [], {}, Active, {};
    }

    /** Records one difference; says whether the list was full. */
    method Record(m: Mutation) returns (full: bool)
      requires Valid()
      modifies this
      ensures Valid() && status == old(status)
      ensures full <==> KeyOf(m) !in old(observed) && |old(events)| == MAX_EVENTS
      ensures observed == old(observed) + {KeyOf(m)} && old(lost) <= old(observed)
      ensures lost == if full then old(lost) + {KeyOf(m)} else old(lost)
      ensures events == if full || KeyOf(m) in old(observed) then old(events) else old(events) + [m]
    {
      var key := KeyOf(m);
      full := false;
      if key !in observed {
        observed := observed + {key};
        if |events| >= MAX_EVENTS {
          lost := lost + {key};
          full := true;
        } else {
          EventAdded(events, m);
          StatusNeverMilder(events, events + [m]);
          events := events + [m];
        }
      }
    }

    /** Events are only appended, each for a difference just found. The list is full exactly
        when the new differences outnumber the room left in it; then one of them is lost for
        good and the others beyond the cap are not looked at. Otherwise all differences have
        been observed. Whether the journal could be stored is up to the environment and
        changes nothing here. */
    method Observe(current: Snapshot, stored: bool) returns (r: Outcome)
      requires Valid()
      modifies this
      ensures Valid() && status == old(status)
      ensures var keys := ChangeKeys(baseline, current, owned);
              && (r == Full <==> |old(observed) + keys| > MAX_EVENTS + |old(lost)|)
              && (r != Full ==> observed == old(observed) + keys && lost == old(lost))
              && (r == Full ==> Overran(old(observed), keys, old(lost), observed, lost))
      ensures r != Full ==> r == if stored then Recorded else NotStored
      ensures old(events) <= events
      ensures forall m <- events[|old(events)|..] :: m.path !in owned && ChangeOf(baseline, current, m.path) == Some(m)
    {
      hide Accounted, ChangeOf, ChangeKeys, KeysOf, StatusOf, KeyOf, Noted, Overran;
      var delta := CompareSnapshots(baseline, current, owned);
      DeltaKeys(baseline, current, owned, delta);
      NotedFirst(events, observed, delta);
      for i := 0 to |delta|
        invariant Valid() && status == old(status) && lost == old(lost)
        invariant Noted(old(events), old(observed), delta[..i], events, observed)
      {
        ghost var before, seen := events, observed;
        var full := Record(delta[i]);
        if full {
          NotedFull(old(events), old(observed), delta, i, events, seen, observed, lost, old(lost));
          return Full;
        }
        NotedNext(old(events), old(observed), delta, i, before, seen, events, observed);
      }
      assert delta[..|delta|] == delta;
      NotedAll(old(events), old(observed), delta, events, observed, lost);
      return if stored then Recorded else NotStored;
    }

    /** Finalizing records the status that the events demand; repeating it never makes the
        status milder. The status stored is the one that everything ever observed calls for
        exactly when it is a violation or no deletion has been lost to the cap. */
    method Finalize(current: Snapshot, stored: bool, storedAgain: bool) returns (r: Outcome)
      requires Valid()
      modifies this
      ensures Valid() && old(events) <= events
      ensures var keys := ChangeKeys(baseline, current, owned);
              && (r == Full <==> |old(observed) + keys| > MAX_EVENTS + |old(lost)|)
              && (r != Full ==> observed == old(observed) + keys && lost == old(lost))
              && (r == Full ==> Overran(old(observed), keys, old(lost), observed, lost))
      ensures r != Full && stored ==> r == if storedAgain then Recorded else NotStored
      ensures status == if r != Full && stored then StatusOf(events) else old(status)
      ensures Rank(old(status)) <= Rank(status)
      ensures r != Full && stored ==>
                && Rank(status) <= Rank(Demanded(observed))
                && (status == Demanded(observed) <==> status == Violation || forall k <- lost :: k.kind != Deleted)
    {
      hide Accounted, ChangeKeys, Demanded, Overran;
      r := Observe(current, stored);
      StatusNeverMilder(old(events), events);
      StatusExactIff(events, observed, lost);
      if r == Recorded {
        status := StatusOf(events);
        r := if storedAgain then Recorded else NotStored;
      }
    }
  }

  lemma AccountedCount(events: seq<Mutation>, observed: set<Key>, lost: set<Key>)
    requires Accounted(events, observed, lost)
    ensures |observed| == |events| + |lost| && |events| <= MAX_EVENTS && lost <= observed
    ensures lost != {} ==> |events| == MAX_EVENTS
  {
  }

  /** The differences of `delta` have been noted: each is observed, and new events are theirs. */
  ghost predicate Noted(events0: seq<Mutation>, observed0: set<Key>, delta: seq<Mutation>,
                        events: seq<Mutation>, observed: set<Key>) {
    && events0 <= events
    && observed == observed0 + KeysOf(delta)
    && forall m <- events[|events0|..] :: m in delta
  }

  /** One of the new differences was lost, and not all of them need have been observed. */
  ghost predicate Overran(observed0: set<Key>, keys: set<Key>, lost0: set<Key>, observed: set<Key>, lost: set<Key>) {
    && observed0 <= observed <= observed0 + keys
    && exists k <- keys - observed0 :: lost == lost0 + {k}
  }

  lemma NotedFirst(events: seq<Mutation>, observed: set<Key>, delta: seq<Mutation>)
    ensures Noted(events, observed, delta[..0], events, observed)
  {
  }

  lemma KeysNext(delta: seq<Mutation>, i: nat)
    requires i < |delta|
    ensures KeysOf(delta[..i + 1]) == KeysOf(delta[..i]) + {KeyOf(delta[i])}
  {
    assert delta[..i + 1] == delta[..i] + [delta[i]];
  }

  lemma NotedNext(events0: seq<Mutation>, observed0: set<Key>, delta: seq<Mutation>, i: nat,
                  before: seq<Mutation>, seen: set<Key>, events: seq<Mutation>, observed: set<Key>)
    requires i < |delta| && Noted(events0, observed0, delta[..i], before, seen)
    requires observed == seen + {KeyOf(delta[i])} && (events == before || events == before + [delta[i]])
    ensures Noted(events0, observed0, delta[..i + 1], events, observed)
  {
    hide KeysOf;
    KeysNext(delta, i);
    assert delta[..i + 1] == delta[..i] + [delta[i]];
    forall m | m in events[|events0|..]
      ensures m in delta[..i + 1]
    {
      assert m in before[|events0|..] || m == delta[i];
    }
  }

  lemma NotedFull(events0: seq<Mutation>, observed0: set<Key>, delta: seq<Mutation>, i: nat,
                  events: seq<Mutation>, seen: set<Key>, observed: set<Key>, lost: set<Key>, lost0: set<Key>)
    requires i < |delta| && Noted(events0, observed0, delta[..i], events, seen)
    requires var k := KeyOf(delta[i]); k !in seen && observed == seen + {k} && lost == lost0 + {k} && k !in lost0
    requires Accounted(events, observed, lost)
    ensures |observed0 + KeysOf(delta)| > MAX_EVENTS + |lost0|
    ensures Overran(observed0, KeysOf(delta), lost0, observed, lost)
    ensures events0 <= events && forall m <- events[|events0|..] :: m in delta
  {
    KeysNext(delta, i);
    var k := KeyOf(delta[i]);
    AccountedCount(events, observed, lost);
    assert forall m :: m in delta[..i] ==> m in delta;
    assert k in KeysOf(delta) && KeysOf(delta[..i]) <= KeysOf(delta);
    hide KeysOf, Accounted;
    MoreThan(observed, observed0 + KeysOf(delta));
    assert k in KeysOf(delta) - observed0;
  }

  lemma NotedAll(events0: seq<Mutation>, observed0: set<Key>, delta: seq<Mutation>,
                 events: seq<Mutation>, observed: set<Key>, lost: set<Key>)
    requires Noted(events0, observed0, delta, events, observed) && Accounted(events, observed, lost)
    ensures |observed0 + KeysOf(delta)| <= MAX_EVENTS + |lost|
    ensures events0 <= events && observed == observed0 + KeysOf(delta)
    ensures forall m <- events[|events0|..] :: m in delta
  {
    hide KeysOf;
    AccountedCount(events, observed, lost);
  }

  lemma {:induction false} MoreThan<T>(a: set<T>, b: set<T>)
    requires a <= b
    ensures |a| <= |b|
  {
    if x :| x in a {
      MoreThan(a - {x}, b - {x});
    }
  }

  ghost predicate HasEvent(events: seq<Mutation>, k: Key) {
    exists m <- events :: KeyOf(m) == k
  }

  lemma EventAdded(events: seq<Mutation>, m: Mutation)
    ensures forall k :: HasEvent(events + [m], k) <==> HasEvent(events, k) || k == KeyOf(m)
    ensures DistinctKeys(events) && !HasEvent(events, KeyOf(m)) ==> DistinctKeys(events + [m])
  {
    forall k ensures HasEvent(events + [m], k) <==> HasEvent(events, k) || k == KeyOf(m) {
      assert m in events + [m];
      assert forall e <- events :: e in events + [m];
    }
  }


  // ------------------------------------------------- a violation that is not shown

  function OneFile(): Snapshot {
    map[0 := 0]
  }

  /** One file and `n` new ones. */
  function Crowded(n: nat): Snapshot {
    if n == 0 then OneFile() else Crowded(n - 1)[n := 0]
  }

  ghost function AddedKeys(n: nat): set<Key> {
    if n == 0 then {} else AddedKeys(n - 1) + {Key(n, Added)}
  }

  lemma {:induction false} AddedCount(n: nat)
    ensures |AddedKeys(n)| == n
    ensures forall k :: k in AddedKeys(n) <==> 0 < k.path <= n && k.kind == Added
  {
    if n > 0 {
      AddedCount(n - 1);
    }
  }

  lemma {:induction false} CrowdedFiles(n: nat)
    ensures forall p: nat :: p in Crowded(n) <==> p <= n
    ensures forall p: nat :: p in Crowded(n) ==> Crowded(n)[p] == 0
  {
    if n > 0 {
      CrowdedFiles(n - 1);
    }
  }

  lemma IsChangeKey(baseline: Snapshot, current: Snapshot, k: Key)
    ensures k in ChangeKeys(baseline, current, {})
       <==> ChangeOf(baseline, current, k.path).Some? && ChangeOf(baseline, current, k.path).value.kind == k.kind
  {
    if ChangeOf(baseline, current, k.path).Some? && ChangeOf(baseline, current, k.path).value.kind == k.kind {
      assert KeyOf(ChangeOf(baseline, current, k.path).value) == k;
      assert k.path in baseline.Keys + current.Keys - {};
    }
  }

  lemma CrowdedKeys(n: nat)
    ensures ChangeKeys(OneFile(), Crowded(n), {}) == AddedKeys(n)
  {
    AddedCount(n);
    CrowdedFiles(n);
    hide ChangeKeys, AddedKeys, Crowded;
    forall k
      ensures k in ChangeKeys(OneFile(), Crowded(n), {}) <==> k in AddedKeys(n)
    {
      IsChangeKey(OneFile(), Crowded(n), k);
      assert k.path in Crowded(n) <==> k.path <= n;
    }
  }

  lemma GoneKeys()
    ensures ChangeKeys(OneFile(), map[], {}) == {Key(0, Deleted)}
  {
    var gone: Snapshot := map[];
    IsChangeKey(OneFile(), gone, Key(0, Deleted));
    assert ChangeOf(OneFile(), gone, 0) == Some(Mutation(0, Deleted, Some(0), None));
    assert forall p :: p in OneFile().Keys + gone.Keys ==> p == 0;
  }

  lemma OnlyAdded(events: seq<Mutation>, observed: set<Key>, lost: set<Key>)
    requires Accounted(events, observed, lost) && events != []
    requires forall k <- observed - lost :: k.kind == Added
    ensures StatusOf(events) == Changes
  {
    forall m | m in events
      ensures m.kind == Added
    {
      assert HasEvent(events, KeyOf(m));
    }
  }

  /** New files fill the journal, then the only old file is deleted. The first attempt to
      finalize fails on the deletion; the second stores a status of mere changes. */
  method LoseViolation() returns (s: Session, first: Outcome, second: Outcome)
    ensures s.Valid() && first == Full && second == Recorded
    ensures s.lost == {Key(0, Deleted)} && Demanded(s.observed) == Violation
    ensures s.status == Changes
  {
    hide ChangeKeys, Crowded, Accounted, StatusOf, AddedKeys;
    CrowdedKeys(MAX_EVENTS);
    GoneKeys();
    AddedCount(MAX_EVENTS);
    s := new Session(OneFile(), {});
    var filled := s.Observe(Crowded(MAX_EVENTS), true);
    ghost var keys := AddedKeys(MAX_EVENTS);
    assert {} + keys == keys;
    assert |keys + {Key(0, Deleted)}| == MAX_EVENTS + 1;
    first := s.Finalize(map[], true, true);
    AccountedCount(s.events, s.observed, s.lost);
    assert s.observed + {Key(0, Deleted)} == s.observed;
    second := s.Finalize(map[], true, true);
    AccountedCount(s.events, s.observed, s.lost);
    OnlyAdded(s.events, s.observed, s.lost);
  }
}
