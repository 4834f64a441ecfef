/** The Unix runtime guardian as a lease protocol (src/process/unix_owner.rs). */
module Guardian {
  // The lease runs between the owner, the guardian, the forks that still hold the owner's
  // pipe, and the members of the guardian's process group. Kernel behaviour appears as
  // steps: a pipe reader sees the end of file only when nobody holds the writing end; a
  // group signal reaches every member of the moment, and a member it has reached can do
  // nothing but die, at some later time; and a process identity stays reserved until its
  // zombie is reaped.

  import opened Basics
  import Runs

  type Pid = nat

  /** `Launching` is the owner's fork that will become the target; `Foreign` any other fork
      of the owner that has not yet closed the lease; `Member` the target and its
      descendants. */
  datatype Kind = Launching | Foreign | Member

  /** `doomed`: a kill signal was posted to it. */
  datatype Proc = Proc(kind: Kind, alive: bool, lease: bool, inGroup: bool, doomed: bool)

  datatype Sentry = Booting | Serving | Revoked(eof: bool) | Doomed | Zombie | Reaped

  datatype Stage = Starting | Ready | Launch(pid: Pid) | Spawned | Closed

  /** The owning process: its writing end, its unreaped guardian, how far the launch is,
      whether a termination request has succeeded, the listed processes that the scan under
      way has not looked at yet, and the thread that reaps a dropped guardian. */
  datatype Owner = Owner(
    alive: bool,
    writer: bool,
    handle: bool,
    stage: Stage,
    asked: bool,
    scan: Option<set<Pid>>,
    reaper: bool)

  /** `swept`: the group was signalled by the guardian at end of file or by the owner's
      request. `reported`: the owner was told that everything has terminated. `stray`: a
      group signal was sent after the group identity was released. */
  datatype History = History(swept: bool, reported: bool, stray: bool)

  datatype State = State(owner: Owner, sentry: Sentry, procs: map<Pid, Proc>, nextPid: Pid, history: History)

  const INITIAL :=
    State(Owner(true, true, true, Starting, false, None, false), Booting, map[], 2, History(false, false, false))

  datatype Event =
    | Announce
    | SetupFails
    | Fork
    | Join(pid: Pid)
    | LaunchFails(pid: Pid)
    | Exec(pid: Pid)
    | LaunchReturns
    | ForeignFork
    | ForeignDone(pid: Pid)
    | MemberFork(pid: Pid)
    | MemberExit(pid: Pid)
    | Die(pid: Pid)
    | SentryDies
    | OwnerDies
    | SeeEof
    | SeeError
    | Act
    | Crash
    | Request(ok: bool)
    | ScanStart
    | ScanOne(pid: Pid)
    | ScanEnd
    | DropOwner
    | Reap

  predicate Is(s: State, pid: Pid, kind: Kind) {
    pid in s.procs && s.procs[pid].kind == kind && s.procs[pid].alive
  }

  /** Alive and not yet signalled: it can go on. */
  predicate Free(s: State, pid: Pid, kind: Kind) {
    Is(s, pid, kind) && !s.procs[pid].doomed
  }

  predicate Holds(s: State, pid: Pid) {
    pid in s.procs && s.procs[pid].lease
  }

  predicate LiveMember(s: State, pid: Pid) {
    pid in s.procs && s.procs[pid].alive && s.procs[pid].inGroup
  }

  predicate NoLease(s: State) {
    !s.owner.writer && (forall p | p in s.procs :: !Holds(s, p))
  }

  /** A group exists while its leader is unreaped or it has a live member. */
  predicate GroupExists(s: State) {
    s.sentry != Reaped || (exists p | p in s.procs :: LiveMember(s, p))
  }

  predicate SentryRuns(s: State) {
    s.sentry == Booting || s.sentry == Serving || s.sentry.Revoked?
  }

  /** The owner's launch call has returned, or was never made and never will be. */
  predicate Settled(s: State) {
    s.owner.stage == Spawned || s.owner.stage == Closed
  }

  predicate Enabled(s: State, e: Event) {
    match e
    case Announce => s.owner.alive && s.owner.stage == Starting && s.sentry == Booting
    case SetupFails => s.owner.alive && s.owner.stage == Starting
    case Fork => s.owner.alive && s.owner.stage == Ready
    case Join(pid) => Free(s, pid, Launching) && !s.procs[pid].inGroup && GroupExists(s)
    case LaunchFails(pid) => Is(s, pid, Launching)
    case Exec(pid) => Free(s, pid, Launching) && s.procs[pid].inGroup
    case LaunchReturns => s.owner.alive && s.owner.stage.Launch? && !Is(s, s.owner.stage.pid, Launching)
    case ForeignFork => s.owner.alive && s.owner.writer
    case ForeignDone(pid) => Is(s, pid, Foreign)
    case MemberFork(pid) => Free(s, pid, Member)
    case MemberExit(pid) => Is(s, pid, Member)
    case Die(pid) => pid in s.procs && s.procs[pid].alive && s.procs[pid].doomed
    case SentryDies => s.sentry == Doomed
    case OwnerDies => s.owner.alive
    case SeeEof => (s.sentry == Booting || s.sentry == Serving) && NoLease(s)
    case SeeError => s.sentry == Booting || s.sentry == Serving
    case Act => s.sentry.Revoked?
    case Crash => SentryRuns(s)
    case Request(_) => s.owner.alive && Settled(s) && s.owner.scan.None?
    case ScanStart =>
      s.owner.alive && Settled(s) && s.owner.scan.None? && s.owner.handle && s.owner.asked && s.sentry == Zombie
    case ScanOne(pid) => s.owner.alive && s.owner.scan.Some? && pid in s.owner.scan.value
    case ScanEnd => s.owner.alive && s.owner.scan == Some({})
    case DropOwner => s.owner.alive && Settled(s) && s.owner.scan.None?
    case Reap => s.sentry == Zombie && (s.owner.reaper || !s.owner.alive)
  }

  function Put(s: State, pid: Pid, p: Proc): State {
    s.(procs := s.procs[pid := p])
  }

  function Spawn(s: State, p: Proc): State {
    Put(s, s.nextPid, p).(nextPid := s.nextPid + 1)
  }

  function Signalled(p: Proc): Proc {
    if p.inGroup && p.alive then p.(doomed := true) else p
  }

  /** One signal is posted to every member, and to the guardian, which leads the group. */
  function KillGroup(s: State): State {
    s.(procs := map pid | pid in s.procs :: Signalled(s.procs[pid]),
       sentry := if SentryRuns(s) then Doomed else s.sentry)
  }

  /** Gives up the lease, then signals the group unless the guardian was reaped; the signal
      may be refused. */
  function RequestTermination(s: State, ok: bool): State {
    var t := s.(owner := s.owner.(writer := false, asked := s.owner.asked || ok));
    if s.owner.handle && ok
    then KillGroup(t).(history := t.history.(swept := true, stray := t.history.stray || s.sentry == Reaped))
    else t
  }

  function Step(s: State, e: Event): State
    requires Enabled(s, e)
  {
    match e
    case Announce => s.(owner := s.owner.(stage := Ready), sentry := Serving)
    case SetupFails => s.(owner := s.owner.(stage := Closed))
    case Fork =>
      Spawn(s, Proc(Launching, true, true, false, false)).(owner := s.owner.(stage := Launch(s.nextPid)))
    case Join(pid) => Put(s, pid, s.procs[pid].(inGroup := true))
    case LaunchFails(pid) => Put(s, pid, s.procs[pid].(alive := false, lease := false))
    case Exec(pid) => Put(s, pid, s.procs[pid].(kind := Member, lease := false))
    case LaunchReturns =>
      var pid := s.owner.stage.pid;
      var started := pid in s.procs && s.procs[pid].kind == Member;
      s.(owner := s.owner.(stage := if started then Spawned else Closed))
    case ForeignFork => Spawn(s, Proc(Foreign, true, true, false, false))
    case ForeignDone(pid) => Put(s, pid, s.procs[pid].(alive := false, lease := false))
    case MemberFork(pid) => Spawn(s, Proc(Member, true, false, true, false))
    case MemberExit(pid) => Put(s, pid, s.procs[pid].(alive := false))
    case Die(pid) => Put(s, pid, s.procs[pid].(alive := false, lease := false))
    case SentryDies => s.(sentry := Zombie)
    case OwnerDies => s.(owner := Owner(false, false, false, s.owner.stage, s.owner.asked, None, false))
    case SeeEof => s.(sentry := Revoked(true))
    case SeeError => s.(sentry := Revoked(false))
    case Act => KillGroup(s).(history := s.history.(swept := s.history.swept || s.sentry.eof))
    case Crash => s.(sentry := Zombie)
    case Request(ok) => RequestTermination(s, ok)
    case ScanStart => s.(owner := s.owner.(scan := Some(s.procs.Keys)))
    case ScanOne(pid) =>
      s.(owner := s.owner.(scan := if LiveMember(s, pid) then None else Some(s.owner.scan.value - {pid})))
    case ScanEnd =>
      s.(owner := s.owner.(scan := None, handle := false), sentry := Reaped, history := s.history.(reported := true))
    case DropOwner =>
      s.(owner := s.owner.(writer := false, handle := false, reaper := s.owner.reaper || s.owner.handle))
    case Reap => s.(sentry := Reaped, owner := s.owner.(reaper := false))
  }

  // ------------------------------------------------------------------ invariant

  /** Only forks hold the lease, a launching fork holds it until it has joined the group and
      executed, and everything that executed is in the group. */
  predicate ProcOk(s: State, pid: Pid) {
    && (pid in s.procs ==> pid < s.nextPid)
    && (Holds(s, pid) ==> s.procs[pid].alive && s.procs[pid].kind != Member)
    && (Is(s, pid, Launching) ==> Holds(s, pid) && (s.owner.alive ==> s.owner.stage == Launch(pid)))
    && (pid in s.procs && s.procs[pid].kind == Member ==> s.procs[pid].inGroup)
    && (pid in s.procs && s.procs[pid].kind == Foreign ==> !s.procs[pid].inGroup)
    && (s.history.swept ==> !Is(s, pid, Launching) && !Free(s, pid, Member))
    && (s.history.swept && s.owner.scan.Some? && LiveMember(s, pid) ==> pid in s.owner.scan.value)
    && (s.history.reported ==> !LiveMember(s, pid))
    && (s.owner.stage == Launch(pid) ==> pid in s.procs)
  }

  /** Nothing can join the group any more: no launch is under way or still to come. */
  predicate NoLaunch(s: State) {
    s.owner.alive ==> Settled(s)
  }

  predicate OwnerOk(s: State) {
    && (s.owner.alive && !s.owner.writer ==> Settled(s))
    && (s.owner.writer || s.owner.handle || s.owner.reaper || s.owner.scan.Some? ==> s.owner.alive)
    && (s.owner.handle ==> s.sentry != Reaped && !s.owner.reaper)
    && (s.owner.scan.Some? ==> s.owner.handle && s.owner.asked && s.sentry == Zombie && Settled(s))
    && (s.owner.asked && s.owner.handle ==> s.history.swept)
    && (s.history.reported ==> s.history.swept)
    && (s.owner.reaper ==> Settled(s))
    && (s.sentry == Revoked(true) ==> NoLease(s))
    && (s.history.swept ==> NoLaunch(s) && !SentryRuns(s))
    && (s.sentry == Booting ==> s.owner.stage == Starting || s.owner.stage == Closed)
    && !s.history.stray
  }

  ghost predicate AllOk(s: State) {
    forall pid :: ProcOk(s, pid)
  }

  ghost predicate Inv(s: State) {
    AllOk(s) && OwnerOk(s)
  }

  lemma InitialInv()
    ensures Inv(INITIAL)
  {
    forall pid ensures ProcOk(INITIAL, pid) {
    }
  }

  lemma NoLeaseNoLaunch(s: State, pid: Pid)
    requires NoLease(s) && ProcOk(s, pid)
    ensures !Is(s, pid, Launching)
  {
  }

  /** The steps that the owner or the kernel takes for it. */
  predicate OwnerSide(e: Event) {
    || e.Announce? || e.SetupFails? || e.LaunchReturns? || e.OwnerDies? || e.Request? || e.ScanStart? || e.ScanOne?
    || e.ScanEnd? || e.DropOwner? || e.Reap?
  }

  lemma OwnerSideProc(s: State, e: Event, pid: Pid)
    requires AllOk(s) && OwnerOk(s) && Enabled(s, e) && OwnerSide(e)
    ensures ProcOk(Step(s, e), pid)
  {
    hide NoLease, GroupExists;
    assert ProcOk(s, pid);
  }

  lemma OtherSideProc(s: State, e: Event, pid: Pid)
    requires AllOk(s) && OwnerOk(s) && Enabled(s, e) && !OwnerSide(e)
    ensures ProcOk(Step(s, e), pid)
  {
    hide NoLease, GroupExists;
    assert ProcOk(s, pid);
    match e
    case Act =>
      if s.sentry.eof {
        NoLeaseNoLaunch(s, pid);
      }
    case Fork => assert ProcOk(s, s.nextPid);
    case ForeignFork => assert ProcOk(s, s.nextPid);
    case MemberFork(p) => assert ProcOk(s, s.nextPid) && ProcOk(s, p);
    case Join(p) => assert ProcOk(s, p);
    case Exec(p) => assert ProcOk(s, p);
    case _ =>
  }

  lemma ProcStep(s: State, e: Event, pid: Pid)
    requires AllOk(s) && OwnerOk(s) && Enabled(s, e)
    ensures ProcOk(Step(s, e), pid)
  {
    hide AllOk, OwnerOk, ProcOk, Step, Enabled;
    if OwnerSide(e) {
      OwnerSideProc(s, e, pid);
    } else {
      OtherSideProc(s, e, pid);
    }
  }

  lemma OwnerStep(s: State, e: Event)
    requires OwnerOk(s) && Enabled(s, e)
    requires Step(s, e).sentry == Revoked(true) ==> NoLease(Step(s, e))
    ensures OwnerOk(Step(s, e))
  {
    hide GroupExists, NoLease;
    if s.sentry == Revoked(true) {
      NoWriter(s);
    }
  }

  lemma NoWriter(s: State)
    requires NoLease(s)
    ensures !s.owner.writer
  {
  }

  /** Once the guardian has seen the end of file nobody can hold the lease again. */
  lemma NoLeaseKept(s: State, e: Event)
    requires OwnerOk(s) && Enabled(s, e) && Step(s, e).sentry == Revoked(true)
    ensures NoLease(Step(s, e))
  {
    hide GroupExists;
    var t := Step(s, e);
    assert NoLease(s);
    forall p | p in t.procs ensures !Holds(t, p) {
      if p in s.procs {
        assert !Holds(s, p);
      }
    }
  }

  lemma InvStep(s: State, e: Event)
    requires Inv(s) && Enabled(s, e)
    ensures Inv(Step(s, e))
  {
    hide ProcOk, OwnerOk, NoLease, Step, Enabled;
    forall pid ensures ProcOk(Step(s, e), pid) {
      ProcStep(s, e, pid);
    }
    if Step(s, e).sentry == Revoked(true) {
      NoLeaseKept(s, e);
    }
    OwnerStep(s, e);
  }

  // ----------------------------------------------------------------------- runs

  predicate Moves(s: State, e: Event, t: State) {
    Enabled(s, e) && t == Step(s, e)
  }

  /** Any interleaving of owner, guardian, forks and members, with crashes anywhere. */
  ghost predicate Run(states: seq<State>, events: seq<Event>) {
    Runs.IsRun(INITIAL, Moves, states, events)
  }

  lemma InvInductive()
    ensures Runs.Inductive(INITIAL, Moves, Inv)
  {
    hide Inv, Step, Enabled;
    InitialInv();
    forall s, e, t | Inv(s) && Moves(s, e, t) ensures Inv(t) {
      InvStep(s, e);
    }
  }

  lemma Reachable(states: seq<State>, events: seq<Event>, i: nat)
    requires Run(states, events) && i < |states|
    ensures Inv(states[i])
  {
    hide Inv, Moves;
    InvInductive();
    Runs.Always(INITIAL, Moves, Inv, states, events, i);
  }

  /** What lasts: a signal that swept the group, a report, and, after the sweep, that
      nobody joins the group's living members. */
  ghost predicate Keeps(s: State, t: State) {
    && (s.history.swept ==> t.history.swept)
    && (s.history.reported ==> t.history.reported)
    && (s.history.swept ==> forall pid :: LiveMember(t, pid) ==> LiveMember(s, pid))
  }

  lemma SweptProc(s: State, pid: Pid)
    requires Inv(s) && s.history.swept
    ensures !Is(s, pid, Launching) && !Free(s, pid, Member)
  {
    assert ProcOk(s, pid);
  }

  lemma KeepsStep(s: State, e: Event)
    requires Inv(s) && Enabled(s, e)
    ensures Keeps(s, Step(s, e))
  {
    hide Inv, NoLease, GroupExists;
    if s.history.swept {
      forall pid ensures !Is(s, pid, Launching) && !Free(s, pid, Member) {
        SweptProc(s, pid);
      }
    }
  }

  lemma HistoryKept(states: seq<State>, events: seq<Event>, i: nat, j: nat)
    requires Run(states, events) && i <= j < |states|
    ensures Keeps(states[i], states[j])
  {
    hide Inv, Step, Enabled;
    InvInductive();
    forall s, e, t | Inv(s) && Moves(s, e, t) ensures Keeps(s, t) {
      KeepsStep(s, e);
    }
    Runs.Between(INITIAL, Moves, Inv, Keeps, states, events, i, j);
  }

  /** No target and no descendant of it is running, and none is on its way. */
  ghost predicate AllDead(s: State) {
    forall pid :: !Is(s, pid, Launching) && !Is(s, pid, Member)
  }

  /** Whoever is left has been signalled and can only die. */
  ghost predicate AllDoomed(s: State) {
    forall pid :: !Is(s, pid, Launching) && !Free(s, pid, Member)
  }

  lemma SweptMeansDoomed(s: State)
    requires Inv(s) && s.history.swept
    ensures AllDoomed(s)
    ensures AllDead(s) || exists pid :: Enabled(s, Die(pid))
  {
    hide Inv;
    forall pid ensures !Is(s, pid, Launching) && !Free(s, pid, Member) {
      SweptProc(s, pid);
    }
    forall pid | Is(s, pid, Member) ensures Enabled(s, Die(pid)) {
      assert !Free(s, pid, Member);
    }
  }

  /** Once the guardian has acted on the end of file, whatever the owner and its forks were
      doing when the lease ended, no owned process starts any more: those still alive were
      alive then, were reached by the signal, and can only die. */
  lemma NothingSurvivesEof(states: seq<State>, events: seq<Event>, i: nat, j: nat)
    requires Run(states, events) && i < |events| && i < j < |states|
    requires events[i] == Act && states[i].sentry == Revoked(true)
    ensures AllDoomed(states[j])
    ensures forall pid :: LiveMember(states[j], pid) ==> LiveMember(states[i], pid)
    ensures AllDead(states[j]) || exists pid :: Enabled(states[j], Die(pid))
  {
    hide Inv, AllDead, AllDoomed, NoLease;
    Runs.Moved(INITIAL, Moves, states, events, i);
    HistoryKept(states, events, i + 1, j);
    Reachable(states, events, j);
    SweptMeansDoomed(states[j]);
    forall pid | LiveMember(states[j], pid) ensures LiveMember(states[i], pid) {
      assert LiveMember(states[i + 1], pid);
    }
  }

  /** The same holds from the owner's successful termination request on, while it still has
      its unreaped guardian. */
  lemma NothingSurvivesRequest(states: seq<State>, events: seq<Event>, i: nat, j: nat)
    requires Run(states, events) && i < |events| && i < j < |states|
    requires events[i] == Request(true) && states[i].owner.handle
    ensures AllDoomed(states[j])
    ensures forall pid :: LiveMember(states[j], pid) ==> LiveMember(states[i], pid)
    ensures AllDead(states[j]) || exists pid :: Enabled(states[j], Die(pid))
  {
    hide Inv, AllDead, AllDoomed, NoLease;
    Runs.Moved(INITIAL, Moves, states, events, i);
    HistoryKept(states, events, i + 1, j);
    Reachable(states, events, j);
    SweptMeansDoomed(states[j]);
    forall pid | LiveMember(states[j], pid) ensures LiveMember(states[i], pid) {
      assert LiveMember(states[i + 1], pid);
    }
  }

  /** A fork that may still become the target keeps the guardian from seeing the end of
      file, even after the owner died; and whatever executed is a member of the group. */
  lemma LeaseUntilExec(states: seq<State>, events: seq<Event>, i: nat, pid: Pid)
    requires Run(states, events) && i < |states|
    ensures Is(states[i], pid, Launching) ==> !NoLease(states[i]) && states[i].sentry != Revoked(true)
    ensures Is(states[i], pid, Member) ==> LiveMember(states[i], pid)
  {
    hide Step, Run;
    Reachable(states, events, i);
    assert ProcOk(states[i], pid);
    if NoLease(states[i]) {
      NoLeaseNoLaunch(states[i], pid);
    }
  }

  /** The owner never signals the group after its identity was released: while it can
      signal at all, its guardian is unreaped. */
  lemma NeverStray(states: seq<State>, events: seq<Event>, i: nat)
    requires Run(states, events) && i < |states|
    ensures !states[i].history.stray
    ensures states[i].owner.handle ==> states[i].sentry != Reaped
  {
    hide AllOk, Step, Run;
    Reachable(states, events, i);
  }

  /** What the owner is told is true, then and later, although signalled processes die in
      their own time and the list of processes is read one by one: the request came first,
      so nothing can join the group behind the list, and each listed process was looked at
      when it was not, or no longer, a living member. */
  lemma ReportIsTrue(states: seq<State>, events: seq<Event>, i: nat, j: nat)
    requires Run(states, events) && i <= j < |states| && states[i].history.reported
    ensures AllDead(states[j])
  {
    hide OwnerOk, Step, Enabled, Run;
    HistoryKept(states, events, i, j);
    Reachable(states, events, j);
    ReportedMeansSwept(states[j]);
    forall pid ensures !Is(states[j], pid, Launching) && !Is(states[j], pid, Member) {
      assert ProcOk(states[j], pid);
    }
  }

  lemma ReportedMeansSwept(s: State)
    requires OwnerOk(s)
    ensures s.history.reported ==> s.history.swept
  {
  }

  /** While a scan runs, every member still alive is among the processes it has yet to look
      at. */
  lemma ScanMissesNobody(states: seq<State>, events: seq<Event>, i: nat, pid: Pid)
    requires Run(states, events) && i < |states| && states[i].owner.scan.Some?
    ensures LiveMember(states[i], pid) ==> pid in states[i].owner.scan.value
  {
    hide Step, Run;
    Reachable(states, events, i);
    assert ProcOk(states[i], pid);
  }

  lemma ScanOneKeeps(s: State, pid: Pid)
    requires Enabled(s, ScanOne(pid)) && !LiveMember(s, pid)
    ensures var t := Step(s, ScanOne(pid));
            t.owner.alive && t.owner.scan == Some(s.owner.scan.value - {pid}) && t.procs == s.procs
    ensures forall q :: LiveMember(Step(s, ScanOne(pid)), q) <==> LiveMember(s, q)
  {
  }

  lemma RunPrepended(s: State, e: Event, t: State, later: seq<State>, rest: seq<Event>)
    requires Moves(s, e, t) && Runs.IsRun(t, Moves, later, rest)
    ensures Runs.IsRun(s, Moves, [s] + later, [e] + rest)
  {
    hide Moves;
    var states, events := [s] + later, [e] + rest;
    forall i | 0 <= i < |events| ensures Moves(states[i], events[i], states[i + 1]) {
      if i > 0 {
        assert Moves(later[i - 1], rest[i - 1], later[i - 1 + 1]);
      }
    }
  }

  /** A scan that meets no living member ends with the report. */
  lemma {:induction false} ScanCompletes(s: State) returns (states: seq<State>, events: seq<Event>)
    requires s.owner.alive && s.owner.scan.Some? && forall pid :: !LiveMember(s, pid)
    ensures Runs.IsRun(s, Moves, states, events) && states[|events|].history.reported
    decreases if s.owner.scan.Some? then s.owner.scan.value else {}
  {
    if s.owner.scan.value == {} {
      states, events := [s, Step(s, ScanEnd)], [ScanEnd];
    } else {
      var pid :| pid in s.owner.scan.value;
      ScanOneKeeps(s, pid);
      var later, rest := ScanCompletes(Step(s, ScanOne(pid)));
      states, events := [s] + later, [ScanOne(pid)] + rest;
      RunPrepended(s, ScanOne(pid), Step(s, ScanOne(pid)), later, rest);
    }
  }

  /** Once everything owned has died after a request, and the guardian with it, the owner can
      learn so; while a member lives, looking at it ends the scan without a report. */
  lemma ReportComes(s: State) returns (states: seq<State>, events: seq<Event>)
    requires s.owner.alive && Settled(s) && s.owner.scan.None? && s.owner.handle && s.owner.asked && s.sentry == Zombie
    requires forall pid :: !LiveMember(s, pid)
    ensures Runs.IsRun(s, Moves, states, events) && states[|events|].history.reported
  {
    var t := Step(s, ScanStart);
    assert forall pid :: LiveMember(t, pid) <==> LiveMember(s, pid);
    var later, rest := ScanCompletes(t);
    states, events := [s] + later, [ScanStart] + rest;
    RunPrepended(s, ScanStart, t, later, rest);
  }

  lemma LivingEndsScan(s: State, pid: Pid)
    requires Enabled(s, ScanOne(pid)) && LiveMember(s, pid)
    ensures Step(s, ScanOne(pid)).owner.scan.None? && Step(s, ScanOne(pid)).history == s.history
  {
  }
}
