/** Integrity journals in a shared store (src/runtime_integrity.rs). */
module JournalStore {
  // Sessions of any number of processes write their journal while they hold its liveness
  // lock; recovery closes the journals of dead sessions (src/private_state.rs). Every read
  // and write is one step, as it runs under the store's operation lock. A process may stop
  // between any two steps; its locks are then free.

  import opened Basics
  import Runs

  type SessionId = nat

  type Entry = int

  datatype Status = Active | Final | Recovered

  datatype Journal = Journal(status: Status, events: seq<Entry>)

  /** A session's own copy; `created` once the first write has been made. */
  datatype Session = Session(alive: bool, created: bool, journal: Journal)

  datatype Holder = Nobody | Owner | Helper(index: nat)

  /** A recovery at one record: it has read the journal, holds the lock, has read again. */
  datatype Recovery =
    | Idle
    | Seen(id: SessionId, first: Journal)
    | Locked(id: SessionId, first: Journal)
    | Confirmed(id: SessionId, journal: Journal)

  datatype State = State(
    disk: map<SessionId, Journal>,
    sessions: map<SessionId, Session>,
    locks: map<SessionId, Holder>,
    helpers: seq<Recovery>)

  datatype Event =
    | Start(id: SessionId)
    | Observe(id: SessionId, entries: seq<Entry>)
    | Persist(id: SessionId)
    | Finalize(id: SessionId)
    | Stop(id: SessionId)
    | NewHelper
    | Read(index: nat, id: SessionId)
    | TryLock(index: nat)
    | ReadAgain(index: nat)
    | Skip(index: nat)
    | Close(index: nat)

  const INITIAL := State(map[], map[], map[], [])

  function HolderOf(s: State, id: SessionId): Holder {
    if id in s.locks then s.locks[id] else Nobody
  }

  predicate Alive(s: State, id: SessionId) {
    id in s.sessions && s.sessions[id].alive
  }

  predicate IsHelper(s: State, index: nat) {
    index < |s.helpers|
  }

  predicate Enabled(s: State, e: Event) {
    match e
    case Start(id) => id !in s.sessions && HolderOf(s, id) == Nobody && id !in s.disk
    case Observe(id, _) => Alive(s, id)
    case Persist(id) => Alive(s, id)
    case Finalize(id) => Alive(s, id)
    case Stop(id) => Alive(s, id)
    case NewHelper => true
    case Read(i, id) => IsHelper(s, i) && s.helpers[i] == Idle && id in s.disk
    case TryLock(i) => IsHelper(s, i) && s.helpers[i].Seen?
    case ReadAgain(i) => IsHelper(s, i) && s.helpers[i].Locked? && s.helpers[i].id in s.disk
    case Skip(i) => IsHelper(s, i) && s.helpers[i] != Idle
    case Close(i) => IsHelper(s, i) && s.helpers[i].Confirmed?
  }

  function SetSession(s: State, id: SessionId, session: Session): State {
    s.(sessions := s.sessions[id := session])
  }

  function SetHelper(s: State, i: nat, r: Recovery): State
    requires IsHelper(s, i)
  {
    s.(helpers := s.helpers[i := r])
  }

  /** The lock a recovery gives up when it is done or its process stops. */
  function Released(s: State, i: nat): State
    requires IsHelper(s, i)
  {
    var r := s.helpers[i];
    var t := SetHelper(s, i, Idle);
    if r.Locked? || r.Confirmed? then t.(locks := t.locks[r.id := Nobody]) else t
  }

  function Step(s: State, e: Event): State
    requires Enabled(s, e)
  {
    match e
    case Start(id) =>
      SetSession(s, id, Session(true, false, Journal(Active, []))).(locks := s.locks[id := Owner])
    case Observe(id, entries) =>
      var session := s.sessions[id];
      SetSession(s, id, session.(journal := session.journal.(events := session.journal.events + entries)))
    case Persist(id) =>
      SetSession(s, id, s.sessions[id].(created := true)).(disk := s.disk[id := s.sessions[id].journal])
    case Finalize(id) =>
      var session := s.sessions[id];
      SetSession(s, id, session.(journal := session.journal.(status := Final)))
    case Stop(id) =>
      SetSession(s, id, s.sessions[id].(alive := false)).(locks := s.locks[id := Nobody])
    case NewHelper => s.(helpers := s.helpers + [Idle])
    case Read(i, id) =>
      if s.disk[id].status == Active then SetHelper(s, i, Seen(id, s.disk[id])) else s
    case TryLock(i) =>
      var r := s.helpers[i];
      if HolderOf(s, r.id) == Nobody
      then SetHelper(s, i, Locked(r.id, r.first)).(locks := s.locks[r.id := Helper(i)])
      else SetHelper(s, i, Idle)
    case ReadAgain(i) =>
      var r := s.helpers[i];
      if s.disk[r.id].status == Active then SetHelper(s, i, Confirmed(r.id, s.disk[r.id])) else Released(s, i)
    case Skip(i) => Released(s, i)
    case Close(i) =>
      var r := s.helpers[i];
      Released(s, i).(disk := s.disk[r.id := Journal(Recovered, r.journal.events)])
  }

  // ------------------------------------------------------------------ invariant

  /** A live session holds its lock; its journal on disk is one it wrote, and was never
      closed by anybody else. */
  predicate SessionOk(s: State, id: SessionId) {
    && (Alive(s, id) <==> HolderOf(s, id) == Owner)
    && (id in s.disk ==> id in s.sessions)
    && (Alive(s, id) ==> s.sessions[id].journal.status != Recovered)
    && (id in s.disk && Alive(s, id) ==>
          && s.disk[id].status != Recovered
          && s.disk[id].events <= s.sessions[id].journal.events
          && (s.disk[id].status == Final ==> s.sessions[id].journal.status == Final))
  }

  /** A recovery that has the lock is the one recorded as its holder, and what it read
      under the lock is still on disk. */
  predicate HelperOk(s: State, i: nat) {
    && (IsHelper(s, i) && s.helpers[i].Seen? ==> s.helpers[i].id in s.sessions)
    && (IsHelper(s, i) && (s.helpers[i].Locked? || s.helpers[i].Confirmed?) ==>
          HolderOf(s, s.helpers[i].id) == Helper(i) && s.helpers[i].id in s.sessions)
    && (IsHelper(s, i) && s.helpers[i].Confirmed? ==>
          && s.helpers[i].id in s.disk
          && s.disk[s.helpers[i].id] == s.helpers[i].journal && s.helpers[i].journal.status == Active)
  }

  ghost predicate Inv(s: State) {
    (forall id :: SessionOk(s, id)) && (forall i :: HelperOk(s, i))
  }

  lemma InitialInv()
    ensures Inv(INITIAL)
  {
    forall id ensures SessionOk(INITIAL, id) {
    }
    forall i ensures HelperOk(INITIAL, i) {
    }
  }

  lemma SessionStep(s: State, e: Event, id: SessionId)
    requires Inv(s) && Enabled(s, e)
    ensures SessionOk(Step(s, e), id)
  {
    hide HelperOk;
    assert SessionOk(s, id);
    match e
    case TryLock(i) => assert SessionOk(s, s.helpers[i].id);
    case ReadAgain(i) => HelperHolds(s, i);
    case Skip(i) => HelperHolds(s, i);
    case Close(i) => HelperHolds(s, i);
    case _ =>
  }

  lemma HelperHolds(s: State, i: nat)
    requires Inv(s) && IsHelper(s, i)
    ensures s.helpers[i].Locked? || s.helpers[i].Confirmed? ==>
              HolderOf(s, s.helpers[i].id) == Helper(i) && !Alive(s, s.helpers[i].id)
    ensures s.helpers[i] != Idle ==> s.helpers[i].id in s.sessions
    ensures s.helpers[i].Confirmed? ==>
              && s.helpers[i].id in s.disk
              && s.disk[s.helpers[i].id] == s.helpers[i].journal && s.helpers[i].journal.status == Active
  {
    assert HelperOk(s, i);
    if s.helpers[i].Locked? || s.helpers[i].Confirmed? {
      assert SessionOk(s, s.helpers[i].id);
    }
  }

  lemma HelperStep(s: State, e: Event, i: nat)
    requires Inv(s) && Enabled(s, e)
    ensures HelperOk(Step(s, e), i)
  {
    hide SessionOk;
    assert HelperOk(s, i);
    match e
    case Start(id) => HelperApart(s, id, i);
    case Persist(id) => HelperApart(s, id, i);
    case Stop(id) => HelperApart(s, id, i);
    case Read(k, id) => assert id in s.sessions by { assert SessionOk(s, id); DiskHasSession(s, id); }
    case TryLock(k) => assert HelperOk(s, k);
    case ReadAgain(k) => assert HelperOk(s, k);
    case Skip(k) => assert HelperOk(s, k);
    case Close(k) => assert HelperOk(s, k);
    case _ =>
  }

  lemma DiskHasSession(s: State, id: SessionId)
    requires SessionOk(s, id) && id in s.disk
    ensures id in s.sessions
  {
  }

  /** What a live or starting session does concerns no recovery that holds a lock. */
  lemma HelperApart(s: State, id: SessionId, i: nat)
    requires Inv(s) && (Alive(s, id) || HolderOf(s, id) == Nobody)
    ensures IsHelper(s, i) && (s.helpers[i].Locked? || s.helpers[i].Confirmed?) ==> s.helpers[i].id != id
  {
    assert SessionOk(s, id);
    assert HelperOk(s, i);
  }

  lemma InvStep(s: State, e: Event)
    requires Inv(s) && Enabled(s, e)
    ensures Inv(Step(s, e))
  {
    hide SessionOk, HelperOk, Step, Enabled;
    forall id ensures SessionOk(Step(s, e), id) {
      SessionStep(s, e, id);
    }
    forall i ensures HelperOk(Step(s, e), i) {
      HelperStep(s, e, i);
    }
  }

  // ----------------------------------------------------------------------- runs

  predicate Moves(s: State, e: Event, t: State) {
    Enabled(s, e) && t == Step(s, e)
  }

  /** Any interleaving of sessions and recoveries, each stopping anywhere. */
  ghost predicate Run(states: seq<State>, events: seq<Event>) {
    Runs.IsRun(INITIAL, Moves, states, events)
  }

  lemma InvInductive()
    ensures Runs.Inductive(INITIAL, Moves, Inv)
  {
    hide Inv, Step, Enabled;
    InitialInv();
    forall s, e, t | Inv(s) && Moves(s, e, t) ensures Inv(t) {
      InvStep(s, e);
    }
  }

  lemma Reachable(states: seq<State>, events: seq<Event>, i: nat)
    requires Run(states, events) && i < |states|
    ensures Inv(states[i])
  {
    hide Inv, Moves;
    InvInductive();
    Runs.Always(INITIAL, Moves, Inv, states, events, i);
  }

  /** A step that changes a journal on disk is its live session's write, or a recovery that
      closes the Active journal of a dead session without touching its events. */
  lemma WrittenBy(states: seq<State>, events: seq<Event>, i: nat, j: nat, id: SessionId)
    requires Run(states, events) && i < |events| && j == i + 1
    requires id in states[i].disk && (id in states[j].disk ==> states[j].disk[id] != states[i].disk[id])
    ensures id in states[j].disk
    ensures if Alive(states[i], id) then events[i] == Persist(id)
            else events[i].Close? && states[i].disk[id].status == Active
                 && states[j].disk[id] == Journal(Recovered, states[i].disk[id].events)
  {
    hide SessionOk, HelperOk;
    Reachable(states, events, i);
    Runs.Moved(INITIAL, Moves, states, events, i);
    if events[i].Close? {
      HelperHolds(states[i], events[i].index);
    }
  }

  /** What no later step takes back: recorded events, a final status, a recovered journal,
      and the death of a session. */
  predicate KeepsOf(s: State, t: State, id: SessionId) {
    && (id in s.disk ==>
          && id in t.disk && s.disk[id].events <= t.disk[id].events
          && (s.disk[id].status == Final ==> t.disk[id].status == Final)
          && (s.disk[id].status == Recovered ==> t.disk[id] == s.disk[id]))
    && (id in s.sessions ==> id in t.sessions && (Alive(t, id) ==> Alive(s, id)))
  }

  ghost predicate Keeps(s: State, t: State) {
    forall id :: KeepsOf(s, t, id)
  }

  lemma KeepsStep(s: State, e: Event, id: SessionId)
    requires Inv(s) && Enabled(s, e)
    ensures KeepsOf(s, Step(s, e), id)
  {
    hide HelperOk;
    assert SessionOk(s, id);
    match e
    case Close(i) => HelperHolds(s, i);
    case _ =>
  }

  lemma KeepsLasts()
    ensures Runs.Lasting(Moves, Inv, Keeps)
  {
    hide Inv, Step, Enabled;
    forall s, t, u | Keeps(s, t) && Keeps(t, u) ensures Keeps(s, u) {
      forall id ensures KeepsOf(s, u, id) {
        assert KeepsOf(s, t, id) && KeepsOf(t, u, id);
      }
    }
    forall s, e, t | Inv(s) && Moves(s, e, t) ensures Keeps(s, t) {
      forall id ensures KeepsOf(s, t, id) {
        KeepsStep(s, e, id);
      }
    }
  }

  /** Over any stretch of any run a finalized journal stays finalized: it never becomes
      Active or recovered again; events are only added; a recovered journal never changes;
      and a dead session never writes again. */
  lemma HistoryKept(states: seq<State>, events: seq<Event>, i: nat, j: nat, id: SessionId)
    requires Run(states, events) && i <= j < |states|
    ensures KeepsOf(states[i], states[j], id)
  {
    hide Inv, Moves, KeepsOf;
    InvInductive();
    KeepsLasts();
    Runs.Between(INITIAL, Moves, Inv, Keeps, states, events, i, j);
  }

  /** A journal is recovered only after its session has died, so a live session never finds
      its journal closed. */
  lemma RecoveredMeansDead(states: seq<State>, events: seq<Event>, i: nat, j: nat, id: SessionId)
    requires Run(states, events) && i <= j < |states|
    requires id in states[i].disk && states[i].disk[id].status == Recovered
    ensures !Alive(states[j], id)
  {
    hide HelperOk, Run;
    HistoryKept(states, events, i, j, id);
    Reachable(states, events, j);
    assert SessionOk(states[j], id);
  }

  const OPEN := Journal(Active, [])
  const SHUT := Journal(Final, [])

  function Story(): seq<State> {
    var live, done, dead := Session(true, true, OPEN), Session(true, true, SHUT), Session(false, true, SHUT);
    [ INITIAL,
      State(map[], map[7 := Session(true, false, OPEN)], map[7 := Owner], []),
      State(map[7 := OPEN], map[7 := live], map[7 := Owner], []),
      State(map[7 := OPEN], map[7 := live], map[7 := Owner], [Idle]),
      State(map[7 := OPEN], map[7 := live], map[7 := Owner], [Seen(7, OPEN)]),
      State(map[7 := OPEN], map[7 := done], map[7 := Owner], [Seen(7, OPEN)]),
      State(map[7 := SHUT], map[7 := done], map[7 := Owner], [Seen(7, OPEN)]),
      State(map[7 := SHUT], map[7 := dead], map[7 := Nobody], [Seen(7, OPEN)]),
      State(map[7 := SHUT], map[7 := dead], map[7 := Helper(0)], [Locked(7, OPEN)]) ]
  }

  lemma StoryStarts()
    ensures Moves(Story()[0], Start(7), Story()[1]) && Moves(Story()[1], Persist(7), Story()[2])
  {
  }

  lemma StoryReads()
    ensures Moves(Story()[2], NewHelper, Story()[3]) && Moves(Story()[3], Read(0, 7), Story()[4])
  {
  }

  lemma StoryFinalizes()
    ensures Moves(Story()[4], Finalize(7), Story()[5]) && Moves(Story()[5], Persist(7), Story()[6])
  {
  }

  lemma StoryEnds()
    ensures Moves(Story()[6], Stop(7), Story()[7]) && Moves(Story()[7], TryLock(0), Story()[8])
  {
  }

  /** The second read is needed: a recovery can hold the lock on the strength of a first
      read that still showed an Active journal, when the disk already has the final one. */
  lemma FirstReadCanBeStale() returns (states: seq<State>, events: seq<Event>)
    ensures Run(states, events)
    ensures var s := states[|events|];
            && |s.helpers| == 1 && s.helpers[0].Locked? && s.helpers[0].first.status == Active
            && s.helpers[0].id in s.disk && s.disk[s.helpers[0].id].status == Final
  {
    hide Moves, Step, Enabled;
    states := Story();
    events := [Start(7), Persist(7), NewHelper, Read(0, 7), Finalize(7), Persist(7), Stop(7), TryLock(0)];
    StoryStarts();
    StoryReads();
    StoryFinalizes();
    StoryEnds();
  }

  // ------------------------------------------------------- what gets done

  /** A recovery that meets the active journal of a dead session, whose lock is free, closes
      it: the events stay, nothing else on disk changes, and the lock is free again. */
  lemma DeadIsRecovered(s: State, i: nat, id: SessionId)
    requires IsHelper(s, i) && s.helpers[i] == Idle && id in s.disk && s.disk[id].status == Active
    requires HolderOf(s, id) == Nobody
    ensures var s1 := Step(s, Read(i, id));
            var s2 := Step(s1, TryLock(i));
            var s3 := Step(s2, ReadAgain(i));
            var s4 := Step(s3, Close(i));
            && s4.disk == s.disk[id := Journal(Recovered, s.disk[id].events)]
            && s4.helpers[i] == Idle && HolderOf(s4, id) == Nobody && s4.sessions == s.sessions
  {
  }

  /** A recovery that meets the journal of a live session leaves it alone. */
  lemma LiveIsLeftAlone(states: seq<State>, events: seq<Event>, k: nat, i: nat, id: SessionId)
    requires Run(states, events) && k < |states|
    requires IsHelper(states[k], i) && states[k].helpers[i] == Idle && id in states[k].disk && Alive(states[k], id)
    ensures var s := states[k];
            var t := Step(s, Read(i, id));
            if s.disk[id].status == Active then
              Step(t, TryLock(i)).helpers[i] == Idle && Step(t, TryLock(i)).disk == s.disk && HolderOf(Step(t, TryLock(i)), id) == Owner
            else t == s
  {
    hide HelperOk, Run;
    Reachable(states, events, k);
    assert SessionOk(states[k], id);
  }

  /** What a live session observes and finalizes is what its next write stores. */
  lemma SessionStores(s: State, id: SessionId, entries: seq<Entry>)
    requires Alive(s, id)
    ensures var observed := Step(s, Observe(id, entries));
            var all := s.sessions[id].journal.events + entries;
            && Step(observed, Persist(id)).disk == s.disk[id := Journal(s.sessions[id].journal.status, all)]
            && Step(Step(observed, Finalize(id)), Persist(id)).disk == s.disk[id := Journal(Final, all)]
  {
  }
}
