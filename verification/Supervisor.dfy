/** The supervisor that owns the collector child (src/tracy_collector.rs). */
module Supervisor {
  // Stop schedules, forced kills, reaping and confirmed cleanup, as a step relation. Times
  // are integers; whether a kill, a wait or a containment call succeeds is up to the
  // environment.

  import opened Basics
  import Runs

  const GRACE: nat := 250

  datatype Stop = Stop(forceAt: int, deadline: int)

  /** The collector handle: in use, inside its destructor, or gone. */
  datatype Owner = Alive | Dropping | Gone

  /** The watch channel that carries stop schedules. */
  datatype Watch = Watch(value: Option<Stop>, unseen: bool, owner: Owner)

  /** A cleanup pass asks the containment to terminate, polls it until the deadline and
      publishes the outcome; a failed pass waits for another schedule. */
  datatype Phase =
    | Watching
    | Requesting
    | Polling(failed: bool, deadline: int)
    | Publishing(error: bool)
    | Rearming
    | Done

  datatype Control = Control(stopping: Option<Stop>, forced: bool, open: bool, phase: Phase)

  datatype Status = Status(running: bool, cleanupError: bool)

  /** What happened so far: schedules adopted, forced kills, kills since the last adoption,
      the child's wait result, and what containment said in the current cleanup pass. */
  datatype History = History(
    adopted: nat,
    forces: nat,
    recent: nat,
    waited: Option<bool>,
    requested: bool,
    terminated: bool)

  datatype State = State(now: int, watch: Watch, control: Control, status: Status, history: History)

  const INITIAL :=
    State(0, Watch(None, false, Alive), Control(None, false, true, Watching), Status(true, false),
          History(0, 0, 0, None, false, false))

  datatype Report = Terminated | Running | CheckFailed

  datatype Event =
    | Tick(elapsed: nat)
    | StopCall(timeout: nat)
    | DropStarts
    | DropEnds
    | Notice
    | NoticeClosed
    | Force(ok: bool)
    | Waited(ok: bool)
    | Request(ok: bool)
    | Poll(report: Report)
    | Publish
    | Rearm
    | GiveUp

  function ScheduleFor(now: int, timeout: nat): Stop {
    Stop(now + timeout - Min(timeout / 2, GRACE), now + timeout)
  }

  /** The rule shared by the stop call and the supervisor: a schedule is replaced when its
      deadline has passed or the new one forces earlier. */
  predicate Replaces(current: Option<Stop>, next: Stop, now: int) {
    current.None? || current.value.deadline <= now || next.forceAt < current.value.forceAt
  }

  predicate Enabled(s: State, e: Event) {
    var phase := s.control.phase;
    match e
    case Tick(_) => true
    case StopCall(_) => s.watch.owner == Alive
    case DropStarts => s.watch.owner == Alive
    case DropEnds => s.watch.owner == Dropping
    case Notice => phase == Watching && s.control.open && s.watch.unseen
    case NoticeClosed => phase == Watching && s.control.open && !s.watch.unseen && s.watch.owner == Gone
    case Force(_) =>
      phase == Watching && s.control.stopping.Some? && !s.control.forced && s.control.stopping.value.forceAt <= s.now
    case Waited(_) => phase == Watching
    case Request(_) => phase == Requesting
    case Poll(_) => phase.Polling?
    case Publish => phase.Publishing?
    case Rearm => phase == Rearming && s.watch.unseen
    case GiveUp => phase == Rearming && !s.watch.unseen && s.watch.owner == Gone
  }

  function CallStop(s: State, timeout: nat): State {
    var next := ScheduleFor(s.now, timeout);
    if Replaces(s.watch.value, next, s.now) then s.(watch := s.watch.(value := Some(next), unseen := true)) else s
  }

  function Adopt(s: State, next: Stop): State {
    s.(control := s.control.(stopping := Some(next), forced := false),
       history := s.history.(adopted := s.history.adopted + 1, recent := 0))
  }

  function TakeNotice(s: State): State {
    var seen := s.(watch := s.watch.(unseen := false));
    if s.watch.value.Some? && Replaces(s.control.stopping, s.watch.value.value, s.now)
    then Adopt(seen, s.watch.value.value)
    else seen
  }

  function ForceKill(s: State, ok: bool): State {
    s.(control := s.control.(forced := true), status := s.status.(cleanupError := !ok),
       history := s.history.(forces := s.history.forces + 1, recent := s.history.recent + 1))
  }

  function SetPhase(s: State, phase: Phase): State {
    s.(control := s.control.(phase := phase))
  }

  function RequestTermination(s: State, ok: bool): State {
    var deadline := if s.control.stopping.Some? then s.control.stopping.value.deadline else s.now + GRACE;
    SetPhase(s, Polling(s.history.waited != Some(true) || !ok, deadline))
      .(history := s.history.(requested := ok, terminated := false))
  }

  function PollContainment(s: State, report: Report): State
    requires s.control.phase.Polling?
  {
    var p := s.control.phase;
    match report
    case Terminated => SetPhase(s, Publishing(p.failed)).(history := s.history.(terminated := true))
    case Running => if s.now < p.deadline then s else SetPhase(s, Publishing(true))
    case CheckFailed => SetPhase(s, Publishing(true))
  }

  function PublishStatus(s: State): State
    requires s.control.phase.Publishing?
  {
    var error := s.control.phase.error;
    SetPhase(s, if error then Rearming else Done).(status := Status(s.history.waited != Some(true), error))
  }

  function Step(s: State, e: Event): State
    requires Enabled(s, e)
  {
    match e
    case Tick(elapsed) => s.(now := s.now + elapsed)
    case StopCall(timeout) => CallStop(s, timeout)
    case DropStarts => s.(watch := Watch(Some(Stop(s.now, s.now + GRACE)), true, Dropping))
    case DropEnds => s.(watch := s.watch.(owner := Gone))
    case Notice => TakeNotice(s)
    case NoticeClosed =>
      var t := Adopt(s, Stop(s.now, s.now + GRACE));
      t.(control := t.control.(open := false))
    case Force(ok) => ForceKill(s, ok)
    case Waited(ok) => SetPhase(s, Requesting).(history := s.history.(waited := Some(ok)))
    case Request(ok) => RequestTermination(s, ok)
    case Poll(report) => PollContainment(s, report)
    case Publish => PublishStatus(s)
    case Rearm =>
      SetPhase(s.(watch := s.watch.(unseen := false), control := s.control.(stopping := s.watch.value)), Requesting)
    case GiveUp => SetPhase(s, Done)
  }

  predicate Confirmed(s: State) {
    !s.status.running && !s.status.cleanupError
  }

  // ------------------------------------------------------------------ invariant

  /** A cleanup is confirmed only by a pass without error, and that needs a successful
      wait, an accepted termination request and a report that everything is dead. */
  predicate Honest(s: State) {
    var phase, history := s.control.phase, s.history;
    && (phase == Watching <==> history.waited.None?)
    && (phase == Watching ==> s.status.running)
    && (phase.Polling? && !phase.failed ==> history.waited == Some(true) && history.requested)
    && (phase.Publishing? && !phase.error ==>
          history.waited == Some(true) && history.requested && history.terminated)
    && (history.waited == Some(false) ==> s.status.running)
    && (Confirmed(s) ==>
          phase == Done && history.waited == Some(true) && history.requested && history.terminated)
    && (phase == Rearming ==> s.status.cleanupError)
  }

  /** One forced kill for every adopted schedule, and none without one. */
  predicate Measured(s: State) {
    var history := s.history;
    && history.recent <= 1
    && (history.recent == 1 <==> s.control.forced)
    && history.forces + (if history.recent == 0 && history.adopted > 0 then 1 else 0) <= history.adopted
    && (s.control.phase == Watching && s.control.stopping.Some? ==> history.adopted > 0)
    && (s.control.phase == Watching && history.adopted > 0 ==> s.control.stopping.Some?)
  }

  predicate Watchful(s: State) {
    && (s.watch.unseen ==> s.watch.value.Some?)
    && (s.watch.owner != Alive ==> s.watch.value.Some?)
    && (!s.control.open ==> s.watch.owner == Gone)
  }

  predicate Inv(s: State) {
    Honest(s) && Measured(s) && Watchful(s)
  }

  lemma InvStep(s: State, e: Event)
    requires Inv(s) && Enabled(s, e)
    ensures Inv(Step(s, e))
  {
  }

  // ----------------------------------------------------------------------- runs

  predicate Moves(s: State, e: Event, t: State) {
    Enabled(s, e) && t == Step(s, e)
  }

  /** Any interleaving of callers, time, the supervisor and the outcomes of its calls. */
  ghost predicate Run(states: seq<State>, events: seq<Event>) {
    Runs.IsRun(INITIAL, Moves, states, events)
  }

  lemma InvInductive()
    ensures Runs.Inductive(INITIAL, Moves, Inv)
  {
    hide Honest, Measured, Watchful, Step, Enabled;
    InitialInv();
    forall s, e, t | Inv(s) && Moves(s, e, t) ensures Inv(t) {
      InvStep(s, e);
    }
  }

  lemma Reachable(states: seq<State>, events: seq<Event>, i: nat)
    requires Run(states, events) && i < |states|
    ensures Inv(states[i])
  {
    hide Inv, Moves;
    InvInductive();
    Runs.Always(INITIAL, Moves, Inv, states, events, i);
  }

  lemma InitialInv()
    ensures Inv(INITIAL)
  {
  }

  /** What a later state keeps: a confirmation with its status, a wait result, and, once the
      child has been waited for, the number of kills. */
  predicate Keeps(s: State, t: State) {
    && (Confirmed(s) ==> t.status == s.status)
    && (s.history.waited.Some? ==> t.history.waited == s.history.waited && t.history.forces == s.history.forces)
    && s.history.adopted <= t.history.adopted && s.history.forces <= t.history.forces
    && (s.history.adopted == t.history.adopted ==>
          t.history.forces - s.history.forces == t.history.recent - s.history.recent)
  }

  lemma KeepsStep(s: State, e: Event)
    requires Inv(s) && Enabled(s, e)
    ensures Keeps(s, Step(s, e))
  {
    hide Measured, Watchful;
  }

  lemma HistoryKept(states: seq<State>, events: seq<Event>, i: nat, j: nat)
    requires Run(states, events) && i <= j < |states|
    ensures Keeps(states[i], states[j])
  {
    hide Inv, Step, Enabled;
    InvInductive();
    forall s, e, t | Inv(s) && Moves(s, e, t) ensures Keeps(s, t) {
      KeepsStep(s, e);
    }
    Runs.Between(INITIAL, Moves, Inv, Keeps, states, events, i, j);
  }

  /** A confirmed cleanup rests on a successful wait and on the containment having accepted
      the termination request and reported everything dead, and it is never withdrawn. */
  lemma ConfirmedForever(states: seq<State>, events: seq<Event>, i: nat, j: nat)
    requires Run(states, events) && i <= j < |states| && Confirmed(states[i])
    ensures Confirmed(states[j])
    ensures states[i].history.waited == Some(true) && states[i].history.requested && states[i].history.terminated
  {
    hide Measured, Watchful, Step, Enabled, Run;
    Reachable(states, events, i);
    HistoryKept(states, events, i, j);
  }

  /** Only publishing a pass without error confirms. */
  lemma ConfirmedBy(states: seq<State>, events: seq<Event>, i: nat, j: nat)
    requires Run(states, events) && i < |events| && j == i + 1 && !Confirmed(states[i]) && Confirmed(states[j])
    ensures events[i] == Publish && states[i].control.phase == Publishing(false)
  {
    Reachable(states, events, i);
    Runs.Moved(INITIAL, Moves, states, events, i);
  }

  /** When waiting for the child fails, nothing confirms its cleanup any more. */
  lemma FailedWaitNeverConfirmed(states: seq<State>, events: seq<Event>, i: nat, j: nat)
    requires Run(states, events) && i <= j < |states| && states[i].history.waited == Some(false)
    ensures !Confirmed(states[j])
  {
    hide Measured, Watchful, Step, Enabled, Run;
    Reachable(states, events, j);
    HistoryKept(states, events, i, j);
  }

  /** Kills never outnumber adopted schedules, no stretch without an adoption has two, and
      none follows the wait. */
  lemma OneForcePerSchedule(states: seq<State>, events: seq<Event>, i: nat, j: nat)
    requires Run(states, events) && i <= j < |states|
    ensures states[j].history.forces <= states[j].history.adopted
    ensures states[i].history.adopted == states[j].history.adopted ==>
              states[j].history.forces <= states[i].history.forces + 1
    ensures states[i].history.waited.Some? ==> states[j].history.forces == states[i].history.forces
  {
    hide Honest, Watchful, Step, Enabled, Run;
    Reachable(states, events, i);
    Reachable(states, events, j);
    HistoryKept(states, events, i, j);
  }

  /** The child is being watched under a schedule that has not expired. */
  predicate Armed(s: State) {
    s.control.phase == Watching && s.control.stopping.Some? && s.now < s.control.stopping.value.deadline
  }

  function ForceTime(s: State): int {
    if s.control.stopping.Some? then s.control.stopping.value.forceAt else 0
  }

  /** The collector handle has gone, and the supervisor takes the present as force time
      although an earlier one was adopted. */
  predicate Postpones(s: State, e: Event) {
    e == NoticeClosed && ForceTime(s) < s.now
  }

  /** An unexpired force time is put later by exactly one kind of step. */
  lemma ForceTimeLaterIff(s: State, e: Event)
    requires Armed(s) && Enabled(s, e)
    ensures ForceTime(Step(s, e)) > ForceTime(s) <==> Postpones(s, e)
  {
  }

  /** While the adopted schedule has not expired, its force time never moves later, except
      when the supervisor notices that the handle is gone after that time has passed. */
  lemma {:induction false} ForceTimeNeverLater(states: seq<State>, events: seq<Event>, i: nat, j: nat)
    requires Run(states, events) && i <= j < |states|
    requires forall k :: i <= k <= j ==> Armed(states[k])
    requires forall k :: i <= k < j ==> !Postpones(states[k], events[k])
    ensures ForceTime(states[j]) <= ForceTime(states[i])
    decreases j
  {
    hide Step, Enabled, Postpones;
    if i < j {
      ForceTimeNeverLater(states, events, i, j - 1);
      Runs.Moved(INITIAL, Moves, states, events, j - 1);
      assert Armed(states[j - 1]) && !Postpones(states[j - 1], events[j - 1]);
      ForceTimeLaterIff(states[j - 1], events[j - 1]);
    }
  }

  /** That exception happens: the handle is dropped, its schedule is adopted, and ten units
      later the closed channel moves the force time from 0 to 10, long before the deadline. */
  lemma ClosedChannelPostpones()
    ensures var s1 := Step(INITIAL, DropStarts);
            var s2 := Step(s1, Notice);
            var s3 := Step(s2, DropEnds);
            var s4 := Step(s3, Tick(10));
            var s5 := Step(s4, NoticeClosed);
            Armed(s4) && Armed(s5) && ForceTime(s4) == 0 && ForceTime(s5) == 10 && s4.control.stopping.value.deadline == GRACE
  {
  }

  /** A stop leaves half its time, but no more than 250 units, for the cleanup: until then
      the child may end by itself, from then on it may be killed. */
  lemma ForcedAfterReserve(timeout: nat, elapsed: nat)
    ensures var s1 := Step(INITIAL, StopCall(timeout));
            var s2 := Step(s1, Notice);
            var s3 := Step(s2, Tick(elapsed));
            && s3.control.stopping.Some? && s3.control.stopping.value.deadline == timeout
            && (Enabled(s3, Force(true)) <==> elapsed >= if timeout >= 500 then timeout - 250 else timeout - timeout / 2)
  {
  }

  /** A cleanup pass polls until the deadline of the schedule in force, or 250 units from its
      start when there is none, and fails if something still runs then. */
  lemma PassTimesOut(s: State, ok: bool, elapsed: nat)
    requires s.control.phase == Requesting
    ensures var polling := Step(Step(s, Request(ok)), Tick(elapsed));
            var limit := if s.control.stopping.Some? then s.control.stopping.value.deadline else s.now + 250;
            && polling.control.phase.Polling?
            && Step(polling, Poll(Running)).control.phase
               == if s.now + elapsed < limit then polling.control.phase else Publishing(true)
  {
  }

  /** A stop call after a failed cleanup starts another pass exactly when no schedule was
      offered before, the last one has expired, or the new one forces earlier. */
  lemma LaterStopRearmsIff(states: seq<State>, events: seq<Event>, i: nat, timeout: nat)
    requires Run(states, events) && i < |states|
    requires states[i].control.phase == Rearming && states[i].watch.owner == Alive && !states[i].watch.unseen
    ensures var s := states[i];
            Enabled(Step(s, StopCall(timeout)), Rearm)
            <==> || s.watch.value.None? || s.watch.value.value.deadline <= s.now
                 || s.now + (if timeout >= 500 then timeout - 250 else timeout - timeout / 2) < s.watch.value.value.forceAt
  {
    hide Honest, Measured, Run;
    Reachable(states, events, i);
  }

  /** While the child is watched, an offered schedule takes the place of the one in force
      exactly when there is none, it has expired, or the new one forces earlier; only then
      may the child be killed again. */
  lemma NoticeAdoptsIff(s: State)
    requires Enabled(s, Notice) && s.watch.value.Some?
    ensures var t, next, current := Step(s, Notice), s.watch.value, s.control.stopping;
            var adopted := current.None? || current.value.deadline <= s.now || next.value.forceAt < current.value.forceAt;
            && t.control.stopping == (if adopted then next else current)
            && (t.control.forced <==> s.control.forced && !adopted)
            && t.control.phase == Watching && !t.watch.unseen
  {
  }

  /** A rearmed pass can still confirm the cleanup, provided the wait succeeded. */
  lemma RearmedPassConfirmsIff(states: seq<State>, events: seq<Event>, i: nat)
    requires Run(states, events) && i < |states| && Enabled(states[i], Rearm)
    ensures var requested := Step(Step(states[i], Rearm), Request(true));
            && requested.control.phase.Polling?
            && Step(requested, Poll(Terminated)).control.phase.Publishing?
            && (Confirmed(Step(Step(requested, Poll(Terminated)), Publish))
                <==> states[i].history.waited == Some(true))
  {
    hide Measured, Watchful, Run;
    Reachable(states, events, i);
  }

  /** A stop that repeats the same timeout before the first one expired is dropped, although
      the cleanup has failed: containment could not be checked, so the pass ended early. */
  lemma PromptSecondStopIgnored()
    ensures var s1 := Step(INITIAL, StopCall(1000));
            var s2 := Step(s1, Notice);
            var s3 := Step(s2, Waited(true));
            var s4 := Step(s3, Request(true));
            var s5 := Step(s4, Poll(CheckFailed));
            var s6 := Step(s5, Publish);
            var s7 := Step(s6, StopCall(1000));
            s6.status.cleanupError && s6.control.phase == Rearming && !Enabled(s7, Rearm)
  {
  }
}
