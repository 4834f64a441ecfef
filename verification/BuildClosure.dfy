/** The input closure of a build (src/build_provenance.rs): the files reached from the
    environment file through literal includes, captured by a bounded worklist. */
module BuildClosure {
  import opened Basics
  import opened SourceScan

  const MAX_INPUTS: nat := 10_000

  type Path = string

  /** A captured file: where its path leads and what is there. */
  datatype Identity = Identity(resolved: Path, content: string)

  datatype Presence = Missing | Present | Unknown

  /** What the file system answers: the file a path leads to, whether reading it is allowed,
      what it holds if it can be read as text, and whether something is there at all; how an
      included name is joined to the including file; which paths name source files. */
  datatype World = World(
    file: Path -> Option<Identity>,
    allowed: Path -> bool,
    text: Path -> Option<string>,
    presence: Path -> Presence,
    join: (Path, string) -> Path,
    isSource: Path -> bool)

  /** An analysis of one environment: the files it read, and where it looked for others. */
  datatype Snapshot = Snapshot(environment: Path, sources: seq<Path>, discovery: seq<Path>)

  datatype Role = Source | AnalysisInput | Configuration | Fixture

  datatype Input = Input(path: Path, identity: Identity, role: Role)

  function Look(w: World, p: Path): Option<Identity> {
    if w.allowed(p) then w.file(p) else None
  }

  predicate Listed(s: Snapshot, p: Path, identity: Identity) {
    p in s.sources || identity.resolved in s.sources
  }

  ghost predicate Has(inputs: seq<Input>, p: Path) {
    exists i <- inputs :: i.path == p
  }

  ghost predicate HasSource(inputs: seq<Input>, p: Path) {
    exists i <- inputs :: i.path == p && i.role == Source
  }

  /** The input is what the world shows under its path. */
  ghost predicate Taken(w: World, i: Input) {
    Look(w, i.path) == Some(i.identity)
  }

  /** The includes of a text once its block comments are removed. */
  function NamesIn(text: string): seq<string> {
    Included(Lines(Strip(text, false)))
  }

  ghost predicate Includes(w: World, from: Path, to: Path) {
    && w.text(from).Some?
    && exists name <- NamesIn(w.text(from).value) :: to == w.join(from, name)
  }

  ghost predicate Route(w: World, root: Path, route: seq<Path>) {
    && route != [] && route[0] == root
    && forall i :: 0 <= i < |route| - 1 ==> Includes(w, route[i], route[i + 1])
  }

  ghost predicate Reachable(w: World, root: Path, p: Path) {
    exists route :: Route(w, root, route) && route[|route| - 1] == p
  }

  /** The file was read as it was hashed, and its text leaves no directive in doubt. */
  ghost predicate Accepted(w: World, p: Path, matching: Option<Snapshot>) {
    && Look(w, p).Some?
    && var content := Look(w, p).value.content;
    && (matching.Some? ==> Listed(matching.value, p, Look(w, p).value))
    && w.text(p) == Some(content)
    && LexicallyPlain(content) && Readable(content, false)
    && forall name <- NamesIn(content) :: w.isSource(w.join(p, name))
  }

  /** What a file needs to be accepted. */
  lemma AcceptedMeaning(w: World, p: Path, matching: Option<Snapshot>)
    ensures Accepted(w, p, matching) <==>
              && w.allowed(p) && w.file(p).Some?
              && var found := w.file(p).value;
              && (matching.Some? ==> p in matching.value.sources || found.resolved in matching.value.sources)
              && w.text(p) == Some(found.content)
              && LexicallyPlain(found.content) && Readable(found.content, false)
              && forall name <- Included(Lines(Strip(found.content, false))) :: w.isSource(w.join(p, name))
  {
    hide LexicallyPlain, Readable, Included, Lines, Strip;
  }

  lemma RootReachable(w: World, root: Path)
    ensures Reachable(w, root, root)
  {
    assert Route(w, root, [root]);
  }

  lemma StepReachable(w: World, root: Path, p: Path, q: Path)
    requires Reachable(w, root, p) && Includes(w, p, q)
    ensures Reachable(w, root, q)
  {
    hide Includes;
    var route :| Route(w, root, route) && route[|route| - 1] == p;
    assert Route(w, root, route + [q]);
  }

  /** A set that holds the root and everything its members include holds all reachable
      files. */
  lemma {:induction false} ClosedHoldsRoute(w: World, root: Path, closed: set<Path>, route: seq<Path>)
    requires root in closed && forall p, q :: p in closed && Includes(w, p, q) ==> q in closed
    requires Route(w, root, route)
    ensures route[|route| - 1] in closed
    decreases |route|
  {
    hide Includes;
    if |route| > 1 {
      var init := route[..|route| - 1];
      forall i | 0 <= i < |init| - 1 ensures Includes(w, init[i], init[i + 1]) {
        assert Includes(w, route[i], route[i + 1]);
      }
      ClosedHoldsRoute(w, root, closed, init);
      assert Includes(w, route[|route| - 2], route[|route| - 2 + 1]);
    }
  }

  // -------------------------------------------------------------------- worklist

  /** While nothing was refused: every visited file was accepted and is reachable, and what
      it includes is visited or waiting. */
  ghost predicate Explored(w: World, root: Path, matching: Option<Snapshot>, visited: set<Path>, pending: seq<Path>) {
    && (root in visited || root in pending)
    && (forall p :: p in visited ==> Accepted(w, p, matching) && Reachable(w, root, p))
    && (forall p :: p in pending ==> Reachable(w, root, p))
    && (forall p, q :: p in visited && Includes(w, p, q) ==> q in visited || q in pending)
  }

  /** Every reachable file is accepted. */
  ghost predicate AllAccepted(w: World, root: Path, matching: Option<Snapshot>) {
    forall p :: Reachable(w, root, p) ==> Accepted(w, p, matching)
  }

  /** Fewer files are reachable than the limit allows. */
  ghost predicate Few(w: World, root: Path) {
    exists all: set<Path> :: HoldsReachable(w, root, all) && |all| < MAX_INPUTS
  }

  ghost predicate HoldsReachable(w: World, root: Path, all: set<Path>) {
    forall p :: Reachable(w, root, p) ==> p in all
  }

  lemma {:induction false} FewerThan(some: set<Path>, all: set<Path>)
    requires some <= all
    ensures |some| <= |all|
  {
    if x :| x in some {
      FewerThan(some - {x}, all - {x});
    }
  }

  /** Below the limit the visited files leave room. */
  lemma RoomLeft(w: World, root: Path, matching: Option<Snapshot>, visited: set<Path>, pending: seq<Path>)
    requires Few(w, root) && Explored(w, root, matching, visited, pending)
    ensures |visited| < MAX_INPUTS
  {
    hide Reachable, Includes, Accepted;
    var all: set<Path> :| HoldsReachable(w, root, all) && |all| < MAX_INPUTS;
    FewerThan(visited, all);
  }

  lemma NextReachable(w: World, root: Path, matching: Option<Snapshot>, visited: set<Path>, pending: seq<Path>)
    requires Explored(w, root, matching, visited, pending) && pending != []
    ensures Reachable(w, root, pending[|pending| - 1])
  {
    hide Reachable, Includes, Accepted;
  }

  predicate Distinct(inputs: seq<Input>) {
    forall i, j :: 0 <= i < j < |inputs| ==> inputs[i].path != inputs[j].path
  }

  lemma Skipped(w: World, root: Path, matching: Option<Snapshot>, visited: set<Path>, pending: seq<Path>)
    requires Explored(w, root, matching, visited, pending) && pending != []
    requires pending[|pending| - 1] in visited
    ensures Explored(w, root, matching, visited, pending[..|pending| - 1])
  {
    hide Includes, Accepted, Reachable;
    InPrefix(pending);
  }

  lemma InPrefix(pending: seq<Path>)
    requires pending != []
    ensures forall p :: p in pending <==> p in pending[..|pending| - 1] || p == pending[|pending| - 1]
  {
  }

  lemma Visited(w: World, root: Path, matching: Option<Snapshot>, visited: set<Path>, pending: seq<Path>, names: seq<string>)
    requires Explored(w, root, matching, visited, pending) && pending != []
    requires var p := pending[|pending| - 1];
             Accepted(w, p, matching) && names == NamesIn(Look(w, p).value.content)
    ensures var p := pending[|pending| - 1];
            Explored(w, root, matching, visited + {p}, pending[..|pending| - 1] + Joined(w, p, names))
  {
    hide Reachable, Strip, Lines, Readable, LexicallyPlain, Included, Listed;
    var p := pending[|pending| - 1];
    InPrefix(pending);
    forall q ensures q in Joined(w, p, names) <==> Includes(w, p, q) {
      InJoined(w, p, names, q);
    }
    forall q | q in Joined(w, p, names) ensures Reachable(w, root, q) {
      StepReachable(w, root, p, q);
    }
  }

  function Joined(w: World, p: Path, names: seq<string>): (r: seq<Path>)
    ensures |r| == |names|
  {
    if names == [] then [] else [w.join(p, names[0])] + Joined(w, p, names[1..])
  }

  lemma {:induction false} InJoined(w: World, p: Path, names: seq<string>, q: Path)
    ensures q in Joined(w, p, names) <==> exists name <- names :: q == w.join(p, name)
  {
    if names != [] {
      InJoined(w, p, names[1..], q);
      assert forall name :: name in names <==> name == names[0] || name in names[1..];
    }
  }

  lemma Complete(w: World, root: Path, matching: Option<Snapshot>, visited: set<Path>)
    requires Explored(w, root, matching, visited, [])
    ensures forall p :: p in visited <==> Reachable(w, root, p)
    ensures forall p :: p in visited ==> Accepted(w, p, matching)
  {
    hide Includes, Accepted;
    forall p | Reachable(w, root, p) ensures p in visited {
      var route :| Route(w, root, route) && route[|route| - 1] == p;
      ClosedHoldsRoute(w, root, visited, route);
    }
  }

  lemma Started(w: World, root: Path, matching: Option<Snapshot>)
    ensures Explored(w, root, matching, {}, [root])
  {
    RootReachable(w, root);
  }

  /** The included paths that are pushed: only source files. */
  function SourcesOf(w: World, p: Path, names: seq<string>): (r: seq<Path>)
    ensures (forall name <- names :: w.isSource(w.join(p, name))) ==> r == Joined(w, p, names)
  {
    if names == [] then []
    else
      var rest := SourcesOf(w, p, names[1..]);
      if w.isSource(w.join(p, names[0])) then [w.join(p, names[0])] + rest else rest
  }

  method AllSources(w: World, p: Path, names: seq<string>) returns (all: bool)
    ensures all <==> forall name <- names :: w.isSource(w.join(p, name))
  {
    for i := 0 to |names|
      invariant forall k :: 0 <= k < i ==> w.isSource(w.join(p, names[k]))
    {
      if !w.isSource(w.join(p, names[i])) {
        return false;
      }
    }
    return true;
  }

  /** One file of the worklist: whether it is recorded, what it includes, and the last
      reason against it. */
  method Examine(w: World, path: Path, matching: Option<Snapshot>)
    returns (refused: Option<string>, recorded: Option<Input>, names: seq<string>)
    ensures recorded.Some? ==> recorded.value.path == path && recorded.value.role == Source && Taken(w, recorded.value)
    ensures refused.None? <==> Accepted(w, path, matching)
    ensures refused.None? ==> recorded.Some? && names == NamesIn(Look(w, path).value.content)
                              && SourcesOf(w, path, names) == Joined(w, path, names)
  {
    hide Strip, Lines, Readable, LexicallyPlain, Included;
    refused, recorded, names := None, None, [];
    var look := Look(w, path);
    if look.None? {
      return Some("build_input_unavailable"), None, [];
    }
    if matching.Some? && !Listed(matching.value, path, look.value) {
      refused := Some("parser_closure_changed");
    }
    recorded := Some(Input(path, look.value, Source));
    if w.text(path).None? {
      return Some("source_encoding_not_proved"), recorded, [];
    }
    if w.text(path).value != look.value.content {
      refused := Some("build_inputs_changed");
    }
    var reason, found := ScanText(w.text(path).value);
    names := found;
    if reason.Some? {
      refused := reason;
    }
    var all := AllSources(w, path, found);
    if !all {
      refused := Some("compiler_map_skin_script_closure_not_proved");
    }
  }

  /** The worklist over the environment file. It ends, however many names the files go by:
      every turn either visits a path for the first time, at most 10000 times, or shortens
      the worklist. */
  method CaptureSources(w: World, root: Path, matching: Option<Snapshot>, reason0: Option<string>)
    returns (inputs: seq<Input>, reason: Option<string>)
    ensures Distinct(inputs) && |inputs| <= MAX_INPUTS
    ensures forall i <- inputs :: i.role == Source && Taken(w, i)
    ensures reason.None? ==> reason0.None? && AllAccepted(w, root, matching)
    ensures reason0.None? && AllAccepted(w, root, matching) && Few(w, root) ==> reason.None?
    ensures reason.None? ==> forall p :: Has(inputs, p) <==> Reachable(w, root, p)
  {
    hide Few, AllAccepted, Explored, Reachable, Accepted, NamesIn, Taken, Has, Distinct;
    inputs, reason := [], reason0;
    var pending, visited := [root], {};
    Started(w, root, matching);
    NoInputs();
    while pending != []
      invariant reason.None? ==> reason0.None?
      invariant reason0.None? && AllAccepted(w, root, matching) && Few(w, root) ==> reason.None?
      invariant |inputs| <= |visited| <= MAX_INPUTS
      invariant Recorded(w, inputs, visited)
      invariant reason.None? ==> Explored(w, root, matching, visited, pending) && forall p :: Has(inputs, p) <==> p in visited
      decreases MAX_INPUTS - |visited|, |pending|
    {
      var path := pending[|pending| - 1];
      var rest := pending[..|pending| - 1];
      if reason.None? {
        NextReachable(w, root, matching, visited, pending);
        NextAccepted(w, root, matching, path);
        if Few(w, root) {
          RoomLeft(w, root, matching, visited, pending);
        }
      }
      if |visited| >= MAX_INPUTS {
        reason := Some("build_input_limit");
        break;
      }
      if path in visited {
        if reason.None? {
          Skipped(w, root, matching, visited, pending);
        }
        pending := rest;
        continue;
      }
      var refused, recorded, found := Examine(w, path, matching);
      if reason.None? && refused.None? {
        Visited(w, root, matching, visited, pending, found);
      }
      if recorded.Some? {
        OneMore(w, inputs, visited, recorded.value);
      }
      ghost var seen := visited;
      visited := visited + {path};
      pending := rest + (if recorded.Some? then SourcesOf(w, path, found) else []);
      MoreVisited(w, inputs, seen, visited);
      inputs := if recorded.Some? then inputs + [recorded.value] else inputs;
      if refused.Some? {
        reason := refused;
      }
    }
    AllRecorded(w, inputs, visited);
    if reason.None? {
      Complete(w, root, matching, visited);
      NowAccepted(w, root, matching);
    }
  }

  lemma NextAccepted(w: World, root: Path, matching: Option<Snapshot>, p: Path)
    requires Reachable(w, root, p)
    ensures AllAccepted(w, root, matching) ==> Accepted(w, p, matching)
  {
    hide Reachable, Accepted;
  }

  lemma NowAccepted(w: World, root: Path, matching: Option<Snapshot>)
    requires forall p :: Reachable(w, root, p) ==> Accepted(w, p, matching)
    ensures AllAccepted(w, root, matching)
  {
    hide Reachable, Accepted;
  }

  /** The recorded inputs are of visited paths, one each. */
  ghost predicate Recorded(w: World, inputs: seq<Input>, visited: set<Path>) {
    && Distinct(inputs)
    && forall i <- inputs :: i.path in visited && i.role == Source && Taken(w, i)
  }

  lemma NoInputs()
    ensures forall p :: !Has([], p)
    ensures Distinct([])
  {
  }

  lemma OneMore(w: World, inputs: seq<Input>, visited: set<Path>, i: Input)
    requires Recorded(w, inputs, visited) && i.path !in visited && i.role == Source && Taken(w, i)
    ensures Recorded(w, inputs + [i], visited + {i.path})
    ensures forall p :: Has(inputs + [i], p) <==> Has(inputs, p) || p == i.path
  {
    hide Taken;
    HasOneMore(inputs, i);
  }

  lemma HasOneMore(inputs: seq<Input>, i: Input)
    ensures forall p :: Has(inputs + [i], p) <==> Has(inputs, p) || p == i.path
  {
    forall p
      ensures Has(inputs + [i], p) <==> Has(inputs, p) || p == i.path
    {
      assert forall j :: j in inputs + [i] <==> j in inputs || j == i;
    }
  }

  lemma MoreVisited(w: World, inputs: seq<Input>, seen: set<Path>, visited: set<Path>)
    requires Recorded(w, inputs, seen) && seen <= visited
    ensures Recorded(w, inputs, visited)
  {
  }

  lemma AllRecorded(w: World, inputs: seq<Input>, visited: set<Path>)
    requires Recorded(w, inputs, visited)
    ensures Distinct(inputs) && forall i <- inputs :: i.role == Source && Taken(w, i)
  {
  }

  // ----------------------------------------------------------------- other inputs

  /** Inputs of the given role were appended, each taken of one of the paths. */
  ghost predicate Appended(w: World, inputs0: seq<Input>, inputs: seq<Input>, role: Role, paths: seq<Path>) {
    && inputs0 <= inputs
    && forall i <- inputs[|inputs0|..] :: i.role == role && i.path in paths && Taken(w, i)
  }

  lemma AppendedMore(w: World, inputs0: seq<Input>, inputs: seq<Input>, role: Role, paths: seq<Path>, i: Input)
    requires Appended(w, inputs0, inputs, role, paths) && i.role == role && i.path in paths && Taken(w, i)
    ensures Appended(w, inputs0, inputs + [i], role, paths)
    ensures forall p :: Has(inputs + [i], p) <==> Has(inputs, p) || p == i.path
  {
    HasOneMore(inputs, i);
    assert (inputs + [i])[|inputs0|..] == inputs[|inputs0|..] + [i];
  }

  lemma AppendedNone(w: World, inputs: seq<Input>, role: Role, paths: seq<Path>)
    ensures Appended(w, inputs, inputs, role, paths)
  {
  }

  method IsRecorded(inputs: seq<Input>, p: Path) returns (found: bool)
    ensures found <==> Has(inputs, p)
  {
    for k := 0 to |inputs|
      invariant forall j :: 0 <= j < k ==> inputs[j].path != p
    {
      if inputs[k].path == p {
        return true;
      }
    }
    return false;
  }

  /** Records the files of a list, without those that are recorded already if `once`. */
  method Append(w: World, paths: seq<Path>, role: Role, once: bool, inputs0: seq<Input>, reason0: Option<string>)
    returns (inputs: seq<Input>, reason: Option<string>)
    requires AllTaken(w, inputs0)
    ensures Appended(w, inputs0, inputs, role, paths) && AllTaken(w, inputs)
    ensures reason.None? <==> reason0.None? && forall p <- paths :: Look(w, p).Some?
    ensures reason.None? ==> forall p <- paths :: Has(inputs, p)
    ensures forall p :: Has(inputs0, p) ==> Has(inputs, p)
  {
    hide Appended, Has, Taken, AllTaken, Look;
    inputs, reason := inputs0, reason0;
    AppendedNone(w, inputs0, role, paths);
    for k := 0 to |paths|
      invariant Appended(w, inputs0, inputs, role, paths) && AllTaken(w, inputs)
      invariant reason.None? <==> reason0.None? && forall j :: 0 <= j < k ==> Look(w, paths[j]).Some?
      invariant reason.None? ==> forall j :: 0 <= j < k ==> Has(inputs, paths[j])
      invariant forall p :: Has(inputs0, p) ==> Has(inputs, p)
    {
      var known := IsRecorded(inputs, paths[k]);
      if once && known {
        RecordedLook(w, inputs, paths[k]);
        continue;
      }
      var look := Look(w, paths[k]);
      if look.None? {
        reason := Some("build_input_unavailable");
      } else {
        var i := Input(paths[k], look.value, role);
        LookTaken(w, i, inputs);
        AppendedMore(w, inputs0, inputs, role, paths, i);
        inputs := inputs + [i];
      }
    }
  }

  lemma LookTaken(w: World, i: Input, inputs: seq<Input>)
    requires Look(w, i.path) == Some(i.identity)
    ensures Taken(w, i)
    ensures AllTaken(w, inputs) ==> AllTaken(w, inputs + [i])
  {
  }

  ghost predicate AllTaken(w: World, inputs: seq<Input>) {
    forall i <- inputs :: Taken(w, i)
  }

  lemma RecordedLook(w: World, inputs: seq<Input>, p: Path)
    requires AllTaken(w, inputs) && Has(inputs, p)
    ensures Look(w, p).Some?
  {
    hide Look;
    var i :| i in inputs && i.path == p;
    assert Taken(w, i);
  }

  /** Something can be recorded about a place where configuration is looked for. */
  predicate Decided(w: World, p: Path) {
    w.presence(p).Missing? || (w.presence(p).Present? && Look(w, p).Some?)
  }

  /** Records the places where configuration was looked for, or that nothing was there. */
  method Discover(w: World, paths: seq<Path>, inputs0: seq<Input>, reason0: Option<string>)
    returns (inputs: seq<Input>, absent: seq<Path>, reason: Option<string>)
    requires AllTaken(w, inputs0)
    ensures Appended(w, inputs0, inputs, Configuration, paths) && AllTaken(w, inputs)
    ensures forall p <- absent :: p in paths && w.presence(p).Missing?
    ensures reason.None? <==> reason0.None? && forall p <- paths :: Decided(w, p)
    ensures reason.None? ==> forall p <- paths :: Has(inputs, p) || p in absent
    ensures forall p :: Has(inputs0, p) ==> Has(inputs, p)
  {
    hide Appended, Has, Taken, AllTaken, Look;
    inputs, absent, reason := inputs0, [], reason0;
    AppendedNone(w, inputs0, Configuration, paths);
    for k := 0 to |paths|
      invariant Appended(w, inputs0, inputs, Configuration, paths) && AllTaken(w, inputs)
      invariant forall p <- absent :: p in paths && w.presence(p).Missing?
      invariant reason.None? <==> reason0.None? && forall j :: 0 <= j < k ==> Decided(w, paths[j])
      invariant reason.None? ==> forall j :: 0 <= j < k ==> Has(inputs, paths[j]) || paths[j] in absent
      invariant forall p :: Has(inputs0, p) ==> Has(inputs, p)
    {
      match w.presence(paths[k]) {
      case Missing =>
        absent := absent + [paths[k]];
      case Present =>
        var look := Look(w, paths[k]);
        if look.None? {
          reason := Some("build_input_unavailable");
        } else {
          var i := Input(paths[k], look.value, Configuration);
          LookTaken(w, i, inputs);
          AppendedMore(w, inputs0, inputs, Configuration, paths, i);
          inputs := inputs + [i];
        }
      case Unknown =>
        reason := Some("build_input_unavailable");
      }
    }
  }

  /** What is known before the compiler starts. */
  datatype Prepared = Prepared(inputs: seq<Input>, absent: seq<Path>, compiler: Identity, reason: Option<string>)

  /** Each input is as the world shows it. With no reason given there is an analysis of this
      environment, the sources are exactly the files reachable through includes, each
      accepted, and everything the analysis or the fixture names is recorded or was absent. */
  ghost predicate Captured(w: World, root: Path, matching: Option<Snapshot>, fixture: seq<Path>, arguments: nat, prepared: Prepared) {
    && (forall i <- prepared.inputs :: Taken(w, i))
    && (forall p <- prepared.absent :: w.presence(p).Missing?)
    && (prepared.reason.None? ==>
          && matching.Some? && arguments == 1
          && (forall p :: HasSource(prepared.inputs, p) <==> Reachable(w, root, p))
          && AllAccepted(w, root, matching)
          && (forall p <- matching.value.sources :: Has(prepared.inputs, p))
          && (forall p <- matching.value.discovery :: Has(prepared.inputs, p) || p in prepared.absent)
          && (forall p <- fixture :: Has(prepared.inputs, p)))
  }

  lemma SameSources(w: World, inputs0: seq<Input>, inputs: seq<Input>, role: Role, paths: seq<Path>)
    requires Appended(w, inputs0, inputs, role, paths) && role != Source
    ensures forall p :: HasSource(inputs, p) <==> HasSource(inputs0, p)
    ensures (forall i <- inputs0 :: Taken(w, i)) ==> forall i <- inputs :: Taken(w, i)
  {
    hide Taken;
    assert inputs == inputs0 + inputs[|inputs0|..];
    forall i
      ensures i in inputs <==> i in inputs0 || i in inputs[|inputs0|..]
    {
    }
  }

  lemma OnlySources(inputs: seq<Input>)
    requires forall i <- inputs :: i.role == Source
    ensures forall p :: HasSource(inputs, p) <==> Has(inputs, p)
  {
  }

  /** There is an analysis of the environment, nothing reachable is in doubt, and everything
      named can be looked at. */
  ghost predicate Capturable(w: World, root: Path, matching: Option<Snapshot>, fixture: seq<Path>, arguments: nat) {
    && matching.Some? && arguments == 1 && AllAccepted(w, root, matching)
    && (forall p <- matching.value.sources :: Look(w, p).Some?)
    && (forall p <- matching.value.discovery :: Decided(w, p))
    && (forall p <- fixture :: Look(w, p).Some?)
  }

  /** Captures what a build will read. A build that could be captured is given a reason only
      when too many files are reachable. */
  method Capture(w: World, root: Path, snapshot: Option<Snapshot>, fixture: seq<Path>, arguments: nat, compiler: Path)
    returns (r: Option<Prepared>)
    ensures r.None? <==> w.file(compiler).None?
    ensures r.Some? ==>
              var matching := if snapshot.Some? && snapshot.value.environment == root then snapshot else None;
              && Captured(w, root, matching, fixture, arguments, r.value) && w.file(compiler) == Some(r.value.compiler)
              && (r.value.reason.None? ==> Capturable(w, root, matching, fixture, arguments))
              && (Capturable(w, root, matching, fixture, arguments) && Few(w, root) ==> r.value.reason.None?)
  {
    hide Reachable, Accepted, AllAccepted, Few, Taken, Has, HasSource, Distinct, Appended, Look, Decided;
    if w.file(compiler).None? {
      return None;
    }
    var matching := if snapshot.Some? && snapshot.value.environment == root then snapshot else None;
    var reason := if arguments != 1 then Some("effective_defines_not_proved")
                  else if matching.None? then Some("matching_snapshot_required")
                  else None;
    var inputs, absent: seq<Path>;
    inputs, reason := CaptureSources(w, root, matching, reason);
    OnlySources(inputs);
    assert AllTaken(w, inputs);
    absent := [];
    if matching.Some? {
      ghost var found := inputs;
      inputs, reason := Append(w, matching.value.sources, AnalysisInput, true, inputs, reason);
      SameSources(w, found, inputs, AnalysisInput, matching.value.sources);
      found := inputs;
      inputs, absent, reason := Discover(w, matching.value.discovery, inputs, reason);
      SameSources(w, found, inputs, Configuration, matching.value.discovery);
    }
    ghost var found := inputs;
    inputs, reason := Append(w, fixture, Fixture, false, inputs, reason);
    SameSources(w, found, inputs, Fixture, fixture);
    return Some(Prepared(inputs, absent, w.file(compiler).value, reason));
  }

  // -------------------------------------------------------------------- finishing

  /** The second look, after the build. */
  function FinishReason(after: World, prepared: Prepared): Option<string> {
    var compiler := after.file(prepared.compiler.resolved);
    if || (exists i <- prepared.inputs :: after.file(i.path) != Some(i.identity))
       || (exists p <- prepared.absent :: after.presence(p).Present?)
       || compiler.None? || compiler.value.content != prepared.compiler.content
    then Some("build_inputs_changed")
    else prepared.reason
  }

  /** A build that changes none of the recorded files, puts nothing where nothing was, and
      leaves the compiler alone keeps its verdict. */
  lemma UnchangedKeepsReason(before: World, after: World, root: Path, matching: Option<Snapshot>, fixture: seq<Path>,
                             arguments: nat, prepared: Prepared)
    requires Captured(before, root, matching, fixture, arguments, prepared)
    requires forall p :: Has(prepared.inputs, p) ==> after.file(p) == before.file(p)
    requires forall p <- prepared.absent :: !after.presence(p).Present?
    requires after.file(prepared.compiler.resolved).Some?
             && after.file(prepared.compiler.resolved).value.content == prepared.compiler.content
    ensures FinishReason(after, prepared) == prepared.reason
  {
    hide Includes, Accepted, Reachable;
    forall i | i in prepared.inputs
      ensures after.file(i.path) == Some(i.identity)
    {
      assert Taken(before, i) && Has(prepared.inputs, i.path);
    }
  }

  /** A world whose files can all be read back as they are hashed. */
  ghost predicate Steady(w: World) {
    forall p :: w.file(p).Some? ==> w.text(p) == Some(w.file(p).value.content)
  }

  /** When a build ends without a reason, the recorded sources are still exactly the files
      reachable from the environment file, in the texts that are there afterwards; every
      file the analysis or the fixture named is as it was, and what was missing is not
      there now. */
  lemma FinishedClosure(before: World, after: World, root: Path, matching: Option<Snapshot>, fixture: seq<Path>,
                        arguments: nat, prepared: Prepared)
    requires Captured(before, root, matching, fixture, arguments, prepared)
    requires FinishReason(after, prepared).None?
    requires Steady(after) && after.join == before.join
    ensures forall p :: HasSource(prepared.inputs, p) <==> Reachable(after, root, p)
    ensures matching.Some?
    ensures after.file(prepared.compiler.resolved).Some?
            && after.file(prepared.compiler.resolved).value.content == prepared.compiler.content
    ensures forall p :: Reachable(after, root, p) || p in matching.value.sources || p in fixture ==>
                          before.file(p).Some? && after.file(p) == before.file(p)
    ensures forall p <- matching.value.discovery ::
              (before.file(p).Some? && after.file(p) == before.file(p))
              || (before.presence(p).Missing? && !after.presence(p).Present?)
  {
    hide Includes, Accepted, Reachable, Steady;
    var inputs := prepared.inputs;
    forall p | HasSource(inputs, p)
      ensures Accepted(before, p, matching)
    {
      NextAccepted(before, root, matching, p);
    }
    forall p | Has(inputs, p)
      ensures before.file(p).Some? && after.file(p) == before.file(p)
    {
    }
    forall p | HasSource(inputs, p)
      ensures Has(inputs, p)
    {
    }
    SourcesStay(before, after, root, matching, inputs);
  }

  lemma SourcesStay(before: World, after: World, root: Path, matching: Option<Snapshot>, inputs: seq<Input>)
    requires forall p :: HasSource(inputs, p) <==> Reachable(before, root, p)
    requires forall p :: HasSource(inputs, p) ==> Accepted(before, p, matching)
    requires forall p :: HasSource(inputs, p) ==> before.file(p).Some? && after.file(p) == before.file(p)
    requires Steady(after) && after.join == before.join
    ensures forall p :: HasSource(inputs, p) <==> Reachable(after, root, p)
  {
    hide Includes, Accepted, Reachable, Steady, HasSource;
    forall p, q | HasSource(inputs, p)
      ensures Includes(before, p, q) <==> Includes(after, p, q)
    {
      SameIncludes(before, after, matching, p, q);
    }
    RootReachable(before, root);
    forall p, q | HasSource(inputs, p) && Includes(after, p, q)
      ensures HasSource(inputs, q)
    {
      StepReachable(before, root, p, q);
    }
    forall p | Reachable(after, root, p)
      ensures HasSource(inputs, p)
    {
      ReachableIn(after, root, inputs, p);
    }
    forall p | HasSource(inputs, p)
      ensures Reachable(after, root, p)
    {
      CarryOver(before, after, root, inputs, p);
    }
  }

  lemma SameIncludes(before: World, after: World, matching: Option<Snapshot>, p: Path, q: Path)
    requires Accepted(before, p, matching) && Steady(after) && after.join == before.join
    requires before.file(p).Some? && after.file(p) == before.file(p)
    ensures Includes(before, p, q) <==> Includes(after, p, q)
  {
    hide NamesIn, Readable, LexicallyPlain;
  }

  lemma ReachableIn(w: World, root: Path, inputs: seq<Input>, p: Path)
    requires HasSource(inputs, root)
    requires forall p, q :: HasSource(inputs, p) && Includes(w, p, q) ==> HasSource(inputs, q)
    requires Reachable(w, root, p)
    ensures HasSource(inputs, p)
  {
    hide Includes;
    var closed := set i | i in inputs && i.role == Source :: i.path;
    assert forall q :: q in closed <==> HasSource(inputs, q);
    var route :| Route(w, root, route) && route[|route| - 1] == p;
    ClosedHoldsRoute(w, root, closed, route);
  }

  lemma CarryOver(before: World, after: World, root: Path, inputs: seq<Input>, p: Path)
    requires forall p :: HasSource(inputs, p) <==> Reachable(before, root, p)
    requires forall p, q :: HasSource(inputs, p) ==> (Includes(before, p, q) <==> Includes(after, p, q))
    requires HasSource(inputs, p)
    ensures Reachable(after, root, p)
  {
    hide Includes, HasSource;
    var route :| Route(before, root, route) && route[|route| - 1] == p;
    CarryRoute(before, after, root, inputs, route);
    assert Route(after, root, route);
  }

  lemma CarryRoute(before: World, after: World, root: Path, inputs: seq<Input>, route: seq<Path>)
    requires forall p :: HasSource(inputs, p) <==> Reachable(before, root, p)
    requires forall p, q :: HasSource(inputs, p) ==> (Includes(before, p, q) <==> Includes(after, p, q))
    requires Route(before, root, route)
    ensures Route(after, root, route)
  {
    hide Includes, HasSource;
    forall i | 0 <= i < |route| - 1 ensures Includes(after, route[i], route[i + 1]) {
      var init := route[..i + 1];
      assert Route(before, root, init);
      assert init[|init| - 1] == route[i];
      assert Reachable(before, root, route[i]);
    }
  }
}
