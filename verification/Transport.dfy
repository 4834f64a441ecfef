/** The collector's request/response transport as a step relation at lock granularity
    (src/tracy_collector.rs). */
module Transport {
  import opened Basics
  import Runs

  const MAX_PENDING: nat := 256
  const MAX_ABANDONED: nat := 256
  const MAX_REQUEST_BYTES: nat := 0x10_0000

  type Id = nat
  type Reason = string

  /** A reply as read from the helper; its id decides where it goes. */
  datatype Document = Document(id: Id, payload: int)

  /** What a request's reply channel receives. */
  datatype Message = Reply(document: Document) | Failure(reason: Reason)

  // ------------------------------------------------------------------ registry

  /** The shared registry. `pending` ids own a reply channel that has not been used;
      `abandoned` ids still expect one late reply. */
  datatype Registry = Registry(pending: set<Id>, abandoned: set<Id>, terminal: Option<Reason>)

  datatype Refusal = AlreadyTerminal(reason: Reason) | PendingFull

  /** Latches the first failure and hands back the channels that must be told. */
  function Fail(r: Registry, reason: Reason): (Registry, set<Id>) {
    if r.terminal.Some? then (r, {}) else (Registry({}, {}, Some(reason)), r.pending)
  }

  function Admit(r: Registry, id: Id): (Registry, Option<Refusal>) {
    if r.terminal.Some? then (r, Some(AlreadyTerminal(r.terminal.value)))
    else if |r.pending| == MAX_PENDING then (r, Some(PendingFull))
    else (r.(pending := r.pending + {id}), None)
  }

  datatype Verdict = Ignored | Deliverable | Absorbed | Unknown

  function Accept(r: Registry, id: Id): (Registry, Verdict) {
    if r.terminal.Some? then (r, Ignored)
    else if id in r.pending then (r.(pending := r.pending - {id}), Deliverable)
    else if id in r.abandoned then (r.(abandoned := r.abandoned - {id}), Absorbed)
    else (r, Unknown)
  }

  /** What a dropped guard of a completely written request does under the lock; the flag
      says that the abandoned set was full, so the transport must fail. */
  function Leave(r: Registry, id: Id): (Registry, bool) {
    if id !in r.pending then (r, false)
    else
      var removed := r.(pending := r.pending - {id});
      if r.terminal.Some? then (removed, false)
      else if |r.abandoned| == MAX_ABANDONED then (removed, true)
      else (removed.(abandoned := r.abandoned + {id}), false)
  }

  /** The registry as the source keeps it: fields updated under one lock. */
  class RegistryCell {
    var pending: set<Id>
    var abandoned: set<Id>
    var terminal: Option<Reason>

    function View(): Registry
      reads this
    {
      Registry(pending, abandoned, terminal)
    }

    constructor ()
      ensures View() == Registry({}, {}, None)
    {
      pending, abandoned, terminal := {}, {}, None;
    }

    method FailTransport(reason: Reason) returns (told: set<Id>)
      modifies this
      ensures (View(), told) == Fail(old(View()), reason)
    {
      if terminal.Some? {
        return {};
      }
      terminal := Some(reason);
      abandoned := {};
      told := pending;
      pending := {};
    }

    method Insert(id: Id) returns (refused: Option<Refusal>)
      modifies this
      ensures (View(), refused) == Admit(old(View()), id)
    {
      if terminal.Some? {
        return Some(AlreadyTerminal(terminal.value));
      }
      if |pending| == MAX_PENDING {
        return Some(PendingFull);
      }
      pending := pending + {id};
      refused := None;
    }

    method Match(id: Id) returns (verdict: Verdict)
      modifies this
      ensures (View(), verdict) == Accept(old(View()), id)
    {
      if terminal.Some? {
        return Ignored;
      }
      if id in pending {
        pending := pending - {id};
        verdict := Deliverable;
      } else if id in abandoned {
        abandoned := abandoned - {id};
        verdict := Absorbed;
      } else {
        verdict := Unknown;
      }
    }

    method DropGuard(id: Id) returns (overflow: bool)
      modifies this
      ensures (View(), overflow) == Leave(old(View()), id)
    {
      overflow := false;
      if id in pending {
        pending := pending - {id};
        if terminal.None? {
          if |abandoned| == MAX_ABANDONED {
            overflow := true;
          } else {
            abandoned := abandoned + {id};
          }
        }
      }
    }
  }

  // -------------------------------------------------------------------- system

  /** Where a request stands. `Holding` up to `Releasing` own the writer lock. */
  datatype Phase =
    | Queued
    | Holding
    | Writing(written: nat)
    | Aborting
    | Releasing
    | Written
    | Waiting
    | Leaving
    | Overflowing
    | Finished

  datatype ReaderPhase = Reading | Delivering(document: Document) | Failing(reason: Reason) | Stopped

  datatype Torn = Torn(id: Id, count: nat)

  /** `doomed` channels were taken by a failure and are still to be told; `inbox` holds
      what channels received. `registered`, `accepted`, `completed` and `torn` record
      history: which requests entered the registry, which replies were matched, which
      frames were written in full, and what an abandoned write left behind. */
  datatype State = State(
    registry: Registry,
    frames: map<Id, seq<Byte>>,
    phases: map<Id, Phase>,
    nextId: Id,
    holder: Option<Id>,
    writerOpen: bool,
    wire: seq<Byte>,
    reader: ReaderPhase,
    doomed: map<Id, Reason>,
    inbox: map<Id, Message>,
    registered: set<Id>,
    accepted: multiset<Id>,
    completed: seq<Id>,
    torn: Option<Torn>)

  const INITIAL :=
    State(Registry({}, {}, None), map[], map[], 1, None, true, [], Reading, map[], map[], {}, multiset{}, [], None)

  datatype Event =
    | Begin(frame: seq<Byte>)
    | GiveUpQueued(id: Id)
    | Lock(id: Id)
    | Register(id: Id)
    | WriteChunk(id: Id, count: nat)
    | WriteDone(id: Id)
    | AbandonWrite(id: Id)
    | FailAbandoned(id: Id)
    | Unlock(id: Id)
    | Receive(id: Id)
    | GiveUpWaiting(id: Id)
    | DropCompleteGuard(id: Id)
    | FailOverflow(id: Id)
    | ReadReply(document: Document)
    | ReadError(reason: Reason)
    | Deliver
    | ReaderFail
    | ReaderStop
    | SendFailure(id: Id)
    | OwnerDrop(reason: Reason)
    | CloseWriter

  predicate InPhase(s: State, id: Id, p: Phase) {
    id in s.phases && s.phases[id] == p
  }

  predicate IsWriting(s: State, id: Id) {
    id in s.phases && id in s.frames && s.phases[id].Writing?
  }

  predicate Enabled(s: State, e: Event) {
    match e
    case Begin(frame) => 0 < |frame| && s.nextId < U64_MAX
    case GiveUpQueued(id) => InPhase(s, id, Queued)
    case Lock(id) => InPhase(s, id, Queued) && s.holder.None?
    case Register(id) => InPhase(s, id, Holding)
    case WriteChunk(id, count) => IsWriting(s, id) && 0 < count && s.phases[id].written + count <= |s.frames[id]|
    case WriteDone(id) => IsWriting(s, id) && s.phases[id].written == |s.frames[id]|
    case AbandonWrite(id) => IsWriting(s, id) && s.phases[id].written < |s.frames[id]|
    case FailAbandoned(id) => InPhase(s, id, Aborting)
    case Unlock(id) => InPhase(s, id, Releasing) || InPhase(s, id, Written)
    case Receive(id) => InPhase(s, id, Waiting) && id in s.inbox
    case GiveUpWaiting(id) => InPhase(s, id, Waiting)
    case DropCompleteGuard(id) => InPhase(s, id, Leaving)
    case FailOverflow(id) => InPhase(s, id, Overflowing)
    case ReadReply(_) => s.reader == Reading
    case ReadError(_) => s.reader == Reading
    case Deliver => s.reader.Delivering?
    case ReaderFail => s.reader.Failing?
    case ReaderStop => s.reader == Reading && s.registry.terminal.Some?
    case SendFailure(id) => id in s.doomed
    case OwnerDrop(_) => true
    case CloseWriter => s.holder.None?
  }

  function SetPhase(s: State, id: Id, p: Phase): State {
    s.(phases := s.phases[id := p])
  }

  const ABANDONED_FRAME := "collector request frame was abandoned during write"
  const ABANDONED_FULL := "collector abandoned-request capacity exceeded"
  const UNKNOWN_ID := "collector returned unknown or duplicate response id"

  /** One locked failure: the taken channels wait to be told. */
  function FailState(s: State, reason: Reason): (t: State)
    ensures t == s.(registry := t.registry, doomed := t.doomed)
  {
    var (r, told) := Fail(s.registry, reason);
    s.(registry := r, doomed := s.doomed + (map id | id in told :: reason))
  }

  function RegisterTask(s: State, id: Id): (t: State)
    requires InPhase(s, id, Holding)
    ensures t == s.(registry := t.registry, phases := t.phases, registered := t.registered)
    ensures s.registered <= t.registered
    ensures t.registry.terminal == s.registry.terminal
  {
    if !s.writerOpen then SetPhase(s, id, Releasing)
    else
      var (r, refused) := Admit(s.registry, id);
      if refused.Some? then SetPhase(s, id, Releasing)
      else SetPhase(s, id, Writing(0)).(registry := r, registered := s.registered + {id})
  }

  function Write(s: State, id: Id, count: nat): State
    requires Enabled(s, WriteChunk(id, count))
  {
    var from := s.phases[id].written;
    SetPhase(s, id, Writing(from + count)).(wire := s.wire + s.frames[id][from..from + count])
  }

  /** The write stops early: its timeout elapsed, its task was cancelled or it failed. */
  function Abandon(s: State, id: Id): State
    requires Enabled(s, AbandonWrite(id))
  {
    var count := s.phases[id].written;
    SetPhase(s, id, Aborting).(torn := if count == 0 then s.torn else Some(Torn(id, count)))
  }

  function LeaveTask(s: State, id: Id): (t: State)
    requires InPhase(s, id, Leaving)
    ensures t == s.(registry := t.registry, phases := t.phases)
    ensures t.registry.terminal == s.registry.terminal
  {
    var (r, overflow) := Leave(s.registry, id);
    SetPhase(s, id, if overflow then Overflowing else Finished).(registry := r)
  }

  function Handle(s: State, d: Document): (t: State)
    ensures t == s.(registry := t.registry, reader := t.reader, accepted := t.accepted)
    ensures t.registry.terminal == s.registry.terminal
  {
    var (r, verdict) := Accept(s.registry, d.id);
    match verdict
    case Ignored => s
    case Deliverable => s.(registry := r, reader := Delivering(d), accepted := s.accepted + multiset{d.id})
    case Absorbed => s.(registry := r, accepted := s.accepted + multiset{d.id})
    case Unknown => s.(reader := Failing(UNKNOWN_ID))
  }

  function Open(s: State, frame: seq<Byte>): State {
    s.(phases := s.phases[s.nextId := if |frame| > MAX_REQUEST_BYTES then Finished else Queued],
       frames := s.frames[s.nextId := frame],
       nextId := s.nextId + 1)
  }

  function Release(s: State, id: Id): (t: State)
    ensures t == s.(phases := t.phases, holder := t.holder)
  {
    SetPhase(s, id, if InPhase(s, id, Written) then Waiting else Finished).(holder := None)
  }

  function Hand(s: State): (t: State)
    requires s.reader.Delivering?
    ensures t == s.(reader := t.reader, inbox := t.inbox)
  {
    var d := s.reader.document;
    s.(reader := Reading, inbox := s.inbox[d.id := Reply(d)])
  }

  function Tell(s: State, id: Id): (t: State)
    requires id in s.doomed
    ensures t == s.(doomed := t.doomed, inbox := t.inbox)
  {
    s.(doomed := s.doomed - {id}, inbox := s.inbox[id := Failure(s.doomed[id])])
  }

  function Step(s: State, e: Event): State
    requires Enabled(s, e)
  {
    match e
    case Begin(frame) => Open(s, frame)
    case GiveUpQueued(id) => SetPhase(s, id, Finished)
    case Lock(id) => SetPhase(s, id, Holding).(holder := Some(id))
    case Register(id) => RegisterTask(s, id)
    case WriteChunk(id, count) => Write(s, id, count)
    case WriteDone(id) => SetPhase(s, id, Written).(completed := s.completed + [id])
    case AbandonWrite(id) => Abandon(s, id)
    case FailAbandoned(id) => SetPhase(FailState(s, ABANDONED_FRAME), id, Releasing)
    case Unlock(id) => Release(s, id)
    case Receive(id) => SetPhase(s, id, Leaving)
    case GiveUpWaiting(id) => SetPhase(s, id, Leaving)
    case DropCompleteGuard(id) => LeaveTask(s, id)
    case FailOverflow(id) => SetPhase(FailState(s, ABANDONED_FULL), id, Finished)
    case ReadReply(d) => Handle(s, d)
    case ReadError(reason) => s.(reader := Failing(reason))
    case Deliver => Hand(s)
    case ReaderFail => FailState(s, s.reader.reason).(reader := Stopped)
    case ReaderStop => s.(reader := Stopped)
    case SendFailure(id) => Tell(s, id)
    case OwnerDrop(reason) => FailState(s, reason)
    case CloseWriter => s.(writerOpen := false)
  }

  // ------------------------------------------------------------------ invariant

  predicate Overflowed(s: State, id: Id) {
    InPhase(s, id, Overflowing)
  }

  predicate InDelivery(s: State, id: Id) {
    s.reader.Delivering? && s.reader.document.id == id
  }

  predicate OwnsLock(p: Phase) {
    p == Holding || p.Writing? || p == Aborting || p == Releasing || p == Written
  }

  /** A request whose task still owns its guard. */
  predicate Live(p: Phase) {
    p.Writing? || p == Aborting || p == Written || p == Waiting || p == Leaving
  }

  /** Conservation of registered requests: until the transport fails, each is in exactly
      one of four places; it is pending, abandoned, on its way to fail the transport for
      lack of room, or has had its one reply. */
  predicate Conserved(s: State, id: Id) {
    var pending, abandoned, overflowed, accepted :=
      id in s.registry.pending, id in s.registry.abandoned, Overflowed(s, id), id in s.accepted;
    && (s.registry.terminal.None? ==>
          id !in s.doomed && (id in s.registered <==> pending || abandoned || overflowed || accepted))
    && (s.registry.terminal.Some? ==> !pending && !abandoned)
    && (pending ==> !abandoned && !overflowed && !accepted)
    && (abandoned ==> !overflowed && !accepted)
    && (overflowed ==> !accepted)
    && (pending || abandoned || overflowed || accepted ==> id in s.registered)
    && s.accepted[id] <= 1
  }

  /** A reply channel is used at most once: it is unused, in the reader's hand, doomed or
      has its message. A reply in a channel is the request's own. */
  predicate Channel(s: State, id: Id) {
    var unused := id in s.registry.pending || id in s.registry.abandoned || Overflowed(s, id);
    && (unused ==> !InDelivery(s, id) && id !in s.doomed && id !in s.inbox)
    && (InDelivery(s, id) ==> id !in s.doomed && id !in s.inbox && id in s.accepted)
    && (id in s.doomed ==>
          id !in s.inbox && id !in s.accepted && id in s.registered && s.registry.terminal == Some(s.doomed[id]))
    && (id in s.inbox ==>
          && id in s.registered
          && match s.inbox[id]
             case Reply(d) => d.id == id && id in s.accepted
             case Failure(reason) => s.registry.terminal == Some(reason))
  }

  /** Nothing is lost: while the task of a registered request owns its guard, its channel
      is unused, or its reply is in the reader's hand, or its failure is still to be told, or
      the channel has its message. */
  predicate Placed(s: State, id: Id) {
    id in s.registered && id in s.phases && Live(s.phases[id]) ==>
      id in s.registry.pending || InDelivery(s, id) || id in s.doomed || id in s.inbox
  }

  predicate TaskOk(s: State, id: Id) {
    && (id in s.phases <==> id in s.frames)
    && (id in s.registered ==> id in s.phases && s.phases[id] != Queued && s.phases[id] != Holding)
    && (id in s.registry.pending ==> id in s.phases && Live(s.phases[id]))
    && (id in s.completed ==> id in s.registered)
    && (s.holder == Some(id) ==> id in s.phases)
    && (id in s.phases ==>
          && id < s.nextId
          && |s.frames[id]| > 0
          && (OwnsLock(s.phases[id]) <==> s.holder == Some(id))
          && (IsWriting(s, id) ==>
                id in s.registered && id !in s.completed && s.phases[id].written <= |s.frames[id]|))
  }

  predicate IdOk(s: State, id: Id) {
    Conserved(s, id) && Channel(s, id) && Placed(s, id) && TaskOk(s, id)
  }

  ghost predicate AllOk(s: State) {
    forall id :: IdOk(s, id)
  }

  predicate Small(r: Registry) {
    && |r.pending| <= MAX_PENDING && |r.abandoned| <= MAX_ABANDONED
    && (r.terminal.Some? ==> r.pending == {} && r.abandoned == {})
  }

  predicate Bounded(s: State) {
    Small(s.registry) && (s.reader == Stopped ==> s.registry.terminal.Some?)
  }

  function FrameOf(frames: map<Id, seq<Byte>>, id: Id): seq<Byte> {
    if id in frames then frames[id] else []
  }

  /** The frames of the given requests, one after the other. */
  function Joined(frames: map<Id, seq<Byte>>, ids: seq<Id>): seq<Byte> {
    if ids == [] then [] else Joined(frames, ids[..|ids| - 1]) + FrameOf(frames, ids[|ids| - 1])
  }

  /** Nobody writes, and nobody can start: the transport has failed, or its failure is the
      next thing the holder of the writer lock does. */
  predicate Sealed(s: State) {
    && (s.holder.Some? ==> !IsWriting(s, s.holder.value))
    && (s.registry.terminal.Some? || (s.holder.Some? && InPhase(s, s.holder.value, Aborting)))
  }

  /** What follows the complete frames on the wire. */
  function Rest(s: State): seq<Byte> {
    match s.torn
    case Some(t) =>
      var frame := FrameOf(s.frames, t.id);
      if t.count <= |frame| then frame[..t.count] else []
    case None =>
      if s.holder.Some? && IsWriting(s, s.holder.value) && s.phases[s.holder.value].written <= |s.frames[s.holder.value]|
      then s.frames[s.holder.value][..s.phases[s.holder.value].written]
      else []
  }

  /** The wire carries complete frames, each once, then the part written so far of one
      frame; if that part was abandoned, the wire is sealed. */
  predicate Framed(s: State) {
    && s.wire == Joined(s.frames, s.completed) + Rest(s)
    && (forall i, j :: 0 <= i < j < |s.completed| ==> s.completed[i] != s.completed[j])
    && (s.torn.Some? ==>
          && s.torn.value.id in s.frames && s.torn.value.id !in s.completed
          && 0 < s.torn.value.count < |s.frames[s.torn.value.id]|
          && Sealed(s))
  }

  ghost predicate Inv(s: State) {
    AllOk(s) && Bounded(s) && Framed(s)
  }

  lemma InitialInv()
    ensures Inv(INITIAL)
  {
    forall id ensures IdOk(INITIAL, id) {
    }
    assert Joined(INITIAL.frames, INITIAL.completed) == [];
  }

  // --------------------------------------------------------------- preservation

  lemma SmallKept(r: Registry, id: Id, reason: Reason)
    requires Small(r)
    ensures Small(Fail(r, reason).0) && Small(Admit(r, id).0) && Small(Accept(r, id).0) && Small(Leave(r, id).0)
  {
  }

  lemma FailLatches(s: State, reason: Reason)
    ensures Small(s.registry) ==> Small(FailState(s, reason).registry)
    ensures FailState(s, reason).registry.terminal.Some?
    ensures s.registry.terminal.Some? ==> FailState(s, reason).registry.terminal == s.registry.terminal
  {
  }

  lemma BoundedStep(s: State, e: Event)
    requires Bounded(s) && Enabled(s, e)
    ensures Bounded(Step(s, e))
  {
    hide Small, Fail, FailState, RegisterTask, Release, LeaveTask, Handle, Tell;
    match e
    case Register(id) => SmallSteps(s, id, Document(id, 0));
    case FailAbandoned(_) => FailLatches(s, ABANDONED_FRAME);
    case FailOverflow(_) => FailLatches(s, ABANDONED_FULL);
    case DropCompleteGuard(id) => SmallSteps(s, id, Document(id, 0));
    case ReadReply(d) => SmallSteps(s, d.id, d);
    case ReaderFail => FailLatches(s, s.reader.reason);
    case OwnerDrop(reason) => FailLatches(s, reason);
    case _ =>
  }

  lemma SmallSteps(s: State, id: Id, d: Document)
    requires Small(s.registry)
    ensures InPhase(s, id, Holding) ==> Small(RegisterTask(s, id).registry)
    ensures InPhase(s, id, Leaving) ==> Small(LeaveTask(s, id).registry)
    ensures Small(Handle(s, d).registry) && (Handle(s, d).reader.Stopped? ==> s.reader.Stopped?)
  {
    hide Small, Admit, Accept, Leave;
    SmallKept(s.registry, id, "");
    SmallKept(s.registry, d.id, "");
  }

  lemma OpenOk(s: State, frame: seq<Byte>, x: Id)
    requires IdOk(s, x) && IdOk(s, s.nextId) && |frame| > 0
    ensures IdOk(Open(s, frame), x)
  {
  }

  lemma MoveOk(s: State, id: Id, p: Phase, x: Id)
    requires IdOk(s, x) && IdOk(s, id)
    requires (InPhase(s, id, Queued) && p == Finished) || (InPhase(s, id, Waiting) && p == Leaving)
    ensures IdOk(SetPhase(s, id, p), x)
  {
  }

  lemma LockOk(s: State, id: Id, x: Id)
    requires IdOk(s, x) && IdOk(s, id) && InPhase(s, id, Queued) && s.holder.None?
    ensures IdOk(SetPhase(s, id, Holding).(holder := Some(id)), x)
  {
  }

  lemma RegisterOk(s: State, id: Id, x: Id)
    requires IdOk(s, x) && IdOk(s, id) && InPhase(s, id, Holding)
    ensures IdOk(RegisterTask(s, id), x)
  {
  }

  lemma WriteOk(s: State, id: Id, count: nat, x: Id)
    requires IdOk(s, x) && IdOk(s, id) && Enabled(s, WriteChunk(id, count))
    ensures IdOk(Write(s, id, count), x)
  {
  }

  lemma WriteDoneOk(s: State, id: Id, x: Id)
    requires IdOk(s, x) && IdOk(s, id) && IsWriting(s, id)
    ensures IdOk(SetPhase(s, id, Written).(completed := s.completed + [id]), x)
  {
  }

  lemma AbandonOk(s: State, id: Id, x: Id)
    requires IdOk(s, x) && IdOk(s, id) && Enabled(s, AbandonWrite(id))
    ensures IdOk(Abandon(s, id), x)
  {
  }

  lemma FailOk(s: State, reason: Reason, x: Id)
    requires IdOk(s, x)
    ensures IdOk(FailState(s, reason), x)
  {
  }

  lemma AfterFailOk(s: State, id: Id, p: Phase, x: Id)
    requires IdOk(s, x) && IdOk(s, id) && s.registry.terminal.Some?
    requires (InPhase(s, id, Aborting) && p == Releasing) || (InPhase(s, id, Overflowing) && p == Finished)
    ensures IdOk(SetPhase(s, id, p), x)
  {
  }

  lemma ReleaseOk(s: State, id: Id, x: Id)
    requires IdOk(s, x) && IdOk(s, id) && Enabled(s, Unlock(id))
    ensures IdOk(Release(s, id), x)
  {
  }

  lemma LeaveOk(s: State, id: Id, x: Id)
    requires IdOk(s, x) && IdOk(s, id) && InPhase(s, id, Leaving)
    ensures IdOk(LeaveTask(s, id), x)
  {
  }

  lemma HandleOk(s: State, d: Document, x: Id)
    requires IdOk(s, x) && IdOk(s, d.id) && s.reader == Reading
    ensures IdOk(Handle(s, d), x)
  {
    if s.registry.terminal.Some? {
    } else if d.id in s.registry.pending {
    } else {
    }
  }

  lemma ReaderOk(s: State, p: ReaderPhase, x: Id)
    requires IdOk(s, x) && !p.Delivering? && !s.reader.Delivering?
    ensures IdOk(s.(reader := p), x)
  {
  }

  lemma HandOk(s: State, x: Id)
    requires IdOk(s, x) && s.reader.Delivering?
    ensures IdOk(Hand(s), x)
  {
  }

  lemma TellOk(s: State, id: Id, x: Id)
    requires IdOk(s, x) && id in s.doomed
    ensures IdOk(Tell(s, id), x)
  {
  }

  lemma CloseOk(s: State, x: Id)
    requires IdOk(s, x)
    ensures IdOk(s.(writerOpen := false), x)
  {
  }

  predicate WriterSide(e: Event) {
    || e.Begin? || e.GiveUpQueued? || e.Lock? || e.Register? || e.WriteChunk? || e.WriteDone? || e.AbandonWrite?
    || e.FailAbandoned? || e.Unlock? || e.CloseWriter?
  }

  lemma WriterStep(s: State, e: Event, x: Id)
    requires AllOk(s) && Enabled(s, e) && WriterSide(e)
    ensures IdOk(Step(s, e), x)
  {
    hide IdOk, RegisterTask, Write, Abandon, Release, Open, FailState;
    assert IdOk(s, x);
    match e
    case Begin(frame) => OpenOk(s, frame, x);
    case GiveUpQueued(id) => MoveOk(s, id, Finished, x);
    case Lock(id) => LockOk(s, id, x);
    case Register(id) => RegisterOk(s, id, x);
    case WriteChunk(id, count) => WriteOk(s, id, count, x);
    case WriteDone(id) => WriteDoneOk(s, id, x);
    case AbandonWrite(id) => AbandonOk(s, id, x);
    case FailAbandoned(id) =>
      FailOk(s, ABANDONED_FRAME, x);
      FailOk(s, ABANDONED_FRAME, id);
      FailLatches(s, ABANDONED_FRAME);
      AfterFailOk(FailState(s, ABANDONED_FRAME), id, Releasing, x);
    case Unlock(id) => ReleaseOk(s, id, x);
    case CloseWriter => CloseOk(s, x);
  }

  lemma ReplyStep(s: State, e: Event, x: Id)
    requires AllOk(s) && Enabled(s, e) && !WriterSide(e)
    ensures IdOk(Step(s, e), x)
  {
    hide IdOk, LeaveTask, Handle, Hand, Tell, FailState;
    assert IdOk(s, x);
    match e
    case Receive(id) => MoveOk(s, id, Leaving, x);
    case GiveUpWaiting(id) => MoveOk(s, id, Leaving, x);
    case DropCompleteGuard(id) => LeaveOk(s, id, x);
    case FailOverflow(id) =>
      FailOk(s, ABANDONED_FULL, x);
      FailOk(s, ABANDONED_FULL, id);
      FailLatches(s, ABANDONED_FULL);
      AfterFailOk(FailState(s, ABANDONED_FULL), id, Finished, x);
    case ReadReply(d) => HandleOk(s, d, x);
    case ReadError(reason) => ReaderOk(s, Failing(reason), x);
    case Deliver => HandOk(s, x);
    case ReaderFail =>
      FailOk(s, s.reader.reason, x);
      ReaderOk(FailState(s, s.reader.reason), Stopped, x);
    case ReaderStop => ReaderOk(s, Stopped, x);
    case SendFailure(id) => TellOk(s, id, x);
    case OwnerDrop(reason) => FailOk(s, reason, x);
  }

  lemma AllOkStep(s: State, e: Event)
    requires AllOk(s) && Enabled(s, e)
    ensures AllOk(Step(s, e))
  {
    hide IdOk, Step, Enabled;
    forall x ensures IdOk(Step(s, e), x) {
      if WriterSide(e) {
        WriterStep(s, e, x);
      } else {
        ReplyStep(s, e, x);
      }
    }
  }

  // ----------------------------------------------------------------------- wire

  lemma {:induction false} JoinedGrows(frames: map<Id, seq<Byte>>, id: Id, frame: seq<Byte>, ids: seq<Id>)
    requires id !in ids
    ensures Joined(frames[id := frame], ids) == Joined(frames, ids)
  {
    if ids != [] {
      JoinedGrows(frames, id, frame, ids[..|ids| - 1]);
    }
  }

  lemma LockOwner(s: State, id: Id)
    requires IdOk(s, id)
    ensures id in s.phases ==> id < s.nextId && id in s.frames && (OwnsLock(s.phases[id]) <==> s.holder == Some(id))
    ensures s.holder == Some(id) ==> id in s.phases
  {
  }

  /** Only the three writing steps touch what the wire carries. */
  lemma WireKept(s: State, e: Event)
    requires Enabled(s, e) && !e.WriteChunk? && !e.WriteDone? && !e.AbandonWrite?
    ensures Step(s, e).wire == s.wire && Step(s, e).completed == s.completed && Step(s, e).torn == s.torn
    ensures Step(s, e).frames == if e.Begin? then s.frames[s.nextId := e.frame] else s.frames
  {
    hide FailState, RegisterTask, Release, LeaveTask, Handle, Hand, Tell;
  }

  /** Once sealed, the wire is never written again. */
  lemma SealedStep(s: State, e: Event)
    requires AllOk(s) && Enabled(s, e) && Sealed(s)
    ensures Sealed(Step(s, e)) && Step(s, e).wire == s.wire
    ensures Step(s, e).completed == s.completed && Step(s, e).torn == s.torn
  {
    SealedBy(s, e);
    WireKept(s, e);
    SealedHolds(s, e);
  }

  lemma SealedHolds(s: State, e: Event)
    requires AllOk(s) && Enabled(s, e) && Sealed(s) && !e.WriteChunk? && !e.WriteDone? && !e.AbandonWrite?
    requires e.Lock? || e.Unlock? || e.Register? ==> s.registry.terminal.Some?
    ensures Sealed(Step(s, e))
  {
    hide AllOk, Sealed, Step, Enabled;
    if WriterSide(e) {
      SealedByWriter(s, e);
    } else {
      SealedByReply(s, e);
    }
  }

  lemma SealedByWriter(s: State, e: Event)
    requires AllOk(s) && Enabled(s, e) && Sealed(s) && WriterSide(e)
    requires !e.WriteChunk? && !e.WriteDone? && !e.AbandonWrite?
    requires e.Lock? || e.Unlock? || e.Register? ==> s.registry.terminal.Some?
    ensures Sealed(Step(s, e))
  {
    hide IdOk, Admit, FailState, Handle, Hand, Tell, LeaveTask;
    if s.holder.Some? {
      LockOwner(s, s.holder.value);
    }
    match e
    case Register(id) => AdmitFailed(s.registry, id);
    case FailAbandoned(id) => FailLatches(s, ABANDONED_FRAME);
    case _ =>
  }

  lemma SealedByReply(s: State, e: Event)
    requires AllOk(s) && Enabled(s, e) && Sealed(s) && !WriterSide(e)
    ensures Sealed(Step(s, e))
  {
    hide IdOk, FailState, Handle, Hand, Tell, RegisterTask, Release;
    match e
    case FailOverflow(id) => FailLatches(s, ABANDONED_FULL);
    case ReaderFail => FailLatches(s, s.reader.reason);
    case OwnerDrop(reason) => FailLatches(s, reason);
    case _ =>
  }

  lemma AdmitFailed(r: Registry, id: Id)
    requires r.terminal.Some?
    ensures Admit(r, id) == (r, Some(AlreadyTerminal(r.terminal.value)))
  {
  }

  lemma SealedBy(s: State, e: Event)
    requires AllOk(s) && Enabled(s, e) && Sealed(s)
    ensures !e.WriteChunk? && !e.WriteDone? && !e.AbandonWrite?
    ensures e.Lock? || e.Unlock? || e.Register? ==> s.registry.terminal.Some?
  {
    hide IdOk;
    match e
    case Register(id) => LockOwner(s, id);
    case WriteChunk(id, _) => LockOwner(s, id);
    case WriteDone(id) => LockOwner(s, id);
    case AbandonWrite(id) => LockOwner(s, id);
    case Unlock(id) => LockOwner(s, id);
    case _ =>
  }

  /** Outside the three writing steps the unfinished part on the wire stays what it was. */
  lemma RestKept(s: State, e: Event)
    requires AllOk(s) && Enabled(s, e) && !e.WriteChunk? && !e.WriteDone? && !e.AbandonWrite?
    requires s.torn.None?
    ensures Rest(Step(s, e)) == Rest(s)
  {
    hide AllOk, Rest, Step, Enabled;
    if WriterSide(e) {
      RestKeptByWriter(s, e);
    } else {
      RestKeptByReply(s, e);
    }
  }

  lemma RestKeptByWriter(s: State, e: Event)
    requires AllOk(s) && Enabled(s, e) && s.torn.None? && WriterSide(e)
    requires !e.WriteChunk? && !e.WriteDone? && !e.AbandonWrite?
    ensures Rest(Step(s, e)) == Rest(s)
  {
    hide IdOk, FailState, Handle, Hand, Tell, Admit, LeaveTask;
    if s.holder.Some? {
      LockOwner(s, s.holder.value);
    }
    match e
    case Unlock(id) => LockOwner(s, id);
    case Register(id) => LockOwner(s, id);
    case FailAbandoned(id) => LockOwner(s, id); FailLatches(s, ABANDONED_FRAME);
    case _ =>
  }

  lemma RestKeptByReply(s: State, e: Event)
    requires AllOk(s) && Enabled(s, e) && s.torn.None? && !WriterSide(e)
    ensures Rest(Step(s, e)) == Rest(s)
  {
    hide IdOk, FailState, Handle, Hand, Tell, RegisterTask, Release;
    match e
    case FailOverflow(id) => LockOwner(s, id); FailLatches(s, ABANDONED_FULL);
    case _ =>
  }

  lemma WriterIsWhole(s: State, id: Id)
    requires IdOk(s, id) && Framed(s) && IsWriting(s, id)
    ensures s.holder == Some(id) && s.torn.None? && s.phases[id].written <= |s.frames[id]|
    ensures Rest(s) == s.frames[id][..s.phases[id].written]
  {
    hide Joined;
  }

  lemma PartGrows(done: seq<Byte>, frame: seq<Byte>, from: nat, count: nat)
    requires from + count <= |frame|
    ensures done + frame[..from] + frame[from..from + count] == done + frame[..from + count]
  {
    assert frame[..from] + frame[from..from + count] == frame[..from + count];
  }

  lemma WriteFramed(s: State, id: Id, count: nat)
    requires IdOk(s, id) && Framed(s) && Enabled(s, WriteChunk(id, count))
    ensures Framed(Write(s, id, count))
  {
    hide Joined, IdOk, Sealed;
    WriterIsWhole(s, id);
    PartGrows(Joined(s.frames, s.completed), s.frames[id], s.phases[id].written, count);
  }

  lemma WriteDoneFramed(s: State, id: Id)
    requires IdOk(s, id) && Framed(s) && Enabled(s, WriteDone(id))
    ensures Framed(SetPhase(s, id, Written).(completed := s.completed + [id]))
  {
    assert s.holder == Some(id) && s.torn.None?;
    assert s.frames[id][..|s.frames[id]|] == s.frames[id];
    assert (s.completed + [id])[..|s.completed|] == s.completed;
    var t := SetPhase(s, id, Written).(completed := s.completed + [id]);
    assert Joined(t.frames, t.completed) == Joined(s.frames, s.completed) + s.frames[id];
    assert Rest(t) == [];
  }

  lemma AbandonFramed(s: State, id: Id)
    requires IdOk(s, id) && Framed(s) && Enabled(s, AbandonWrite(id))
    ensures Framed(Abandon(s, id))
  {
    hide Joined;
    assert s.holder == Some(id) && s.torn.None?;
  }

  lemma BeginFramed(s: State, e: Event)
    requires AllOk(s) && Framed(s) && Enabled(s, e) && e.Begin?
    ensures Joined(Step(s, e).frames, s.completed) == Joined(s.frames, s.completed)
    ensures s.torn.Some? ==> s.torn.value.id != s.nextId
  {
    forall id | id in s.completed ensures id != s.nextId {
      assert IdOk(s, id);
    }
    if s.torn.Some? {
      assert IdOk(s, s.torn.value.id);
    }
    JoinedGrows(s.frames, s.nextId, e.frame, s.completed);
  }

  lemma QuietFramed(s: State, e: Event)
    requires AllOk(s) && Framed(s) && Enabled(s, e) && !e.WriteChunk? && !e.WriteDone? && !e.AbandonWrite?
    ensures Framed(Step(s, e))
  {
    hide IdOk, Joined, Sealed, Enabled, Step, Open;
    WireKept(s, e);
    if e.Begin? {
      BeginFramed(s, e);
    }
    if s.torn.Some? {
      SealedStep(s, e);
    } else {
      RestKept(s, e);
    }
  }

  lemma FramedStep(s: State, e: Event)
    requires AllOk(s) && Framed(s) && Enabled(s, e)
    ensures Framed(Step(s, e))
  {
    hide IdOk, Framed, Write, Abandon;
    match e
    case WriteChunk(id, count) => WriteFramed(s, id, count);
    case WriteDone(id) => WriteDoneFramed(s, id);
    case AbandonWrite(id) => AbandonFramed(s, id);
    case _ => QuietFramed(s, e);
  }

  /** Every step keeps the whole invariant. */
  lemma InvStep(s: State, e: Event)
    requires Inv(s) && Enabled(s, e)
    ensures Inv(Step(s, e))
  {
    hide AllOk, Bounded, Framed, Step, Enabled;
    AllOkStep(s, e);
    BoundedStep(s, e);
    FramedStep(s, e);
  }

  // ---- runs -------------------------------------------------------------------

  predicate Moves(s: State, e: Event, t: State) {
    Enabled(s, e) && t == Step(s, e)
  }

  /** Any interleaving of tasks, reader, failures and drops. */
  ghost predicate Run(states: seq<State>, events: seq<Event>) {
    Runs.IsRun(INITIAL, Moves, states, events)
  }

  lemma InvInductive()
    ensures Runs.Inductive(INITIAL, Moves, Inv)
  {
    hide Inv, Step, Enabled;
    InitialInv();
    forall s, e, t | Inv(s) && Moves(s, e, t) ensures Inv(t) {
      InvStep(s, e);
    }
  }

  lemma Reachable(states: seq<State>, events: seq<Event>, i: nat)
    requires Run(states, events) && i < |states|
    ensures Inv(states[i])
  {
    hide Inv, Moves;
    InvInductive();
    Runs.Always(INITIAL, Moves, Inv, states, events, i);
  }

  /** What no later state takes back: the terminal reason, a message in a channel, a
      matched reply, a registration; and a reader that failed stays failed. */
  predicate Remembers(s: State, t: State) {
    && (s.registry.terminal.Some? ==> t.registry.terminal == s.registry.terminal)
    && (forall id :: id in s.inbox ==> id in t.inbox && t.inbox[id] == s.inbox[id])
    && s.accepted <= t.accepted
    && s.registered <= t.registered
    && (s.reader.Failing? ==> t.reader == s.reader || t.reader == Stopped)
    && (s.reader == Stopped ==> t.reader == Stopped)
    && (s.reader.Failing? || s.reader == Stopped ==> t.accepted == s.accepted)
  }

  /** A doomed channel keeps its reason until it has been told that reason. */
  predicate Told(s: State, t: State) {
    forall id :: id in s.doomed ==>
                   || (id in t.doomed && t.doomed[id] == s.doomed[id])
                   || (id in t.inbox && t.inbox[id] == Failure(s.doomed[id]))
  }

  /** A matched reply stays in the reader's hand until it is in its channel. */
  predicate Handed(s: State, t: State) {
    s.reader.Delivering? ==>
      var d := s.reader.document;
      t.reader == s.reader || (d.id in t.inbox && t.inbox[d.id] == Reply(d))
  }

  predicate WireGrows(s: State, t: State) {
    && s.wire <= t.wire && s.completed <= t.completed
    && (s.torn.Some? ==> t.torn == s.torn && t.wire == s.wire)
    && (Sealed(s) ==> Sealed(t) && t.wire == s.wire)
  }

  lemma RemembersStep(s: State, e: Event)
    requires Inv(s) && Enabled(s, e)
    ensures Remembers(s, Step(s, e))
  {
    hide Inv, Remembers, Step, Enabled;
    if WriterSide(e) {
      WriterRemembers(s, e);
    } else {
      ReplyRemembers(s, e);
    }
  }

  lemma WriterRemembers(s: State, e: Event)
    requires Enabled(s, e) && WriterSide(e)
    ensures Remembers(s, Step(s, e))
  {
    hide RegisterTask, Release, Fail, FailState;
    match e
    case FailAbandoned(_) => FailLatches(s, ABANDONED_FRAME);
    case _ =>
  }

  lemma ReplyRemembers(s: State, e: Event)
    requires Inv(s) && Enabled(s, e) && !WriterSide(e)
    ensures Remembers(s, Step(s, e))
  {
    hide Inv, LeaveTask, Fail, FailState, Handle, Hand, Tell, Sealed;
    match e
    case ReadReply(d) => HandleRemembers(s, d);
    case Deliver => HandRemembers(s);
    case SendFailure(id) => TellRemembers(s, id);
    case FailOverflow(_) => FailLatches(s, ABANDONED_FULL);
    case ReaderFail => FailLatches(s, s.reader.reason);
    case OwnerDrop(reason) => FailLatches(s, reason);
    case _ =>
  }

  lemma HandleRemembers(s: State, d: Document)
    requires s.reader == Reading
    ensures Remembers(s, Handle(s, d))
  {
  }

  lemma HandRemembers(s: State)
    requires Inv(s) && s.reader.Delivering?
    ensures s.reader.document.id !in s.inbox
    ensures Remembers(s, Hand(s))
  {
    hide Bounded, Framed;
    assert IdOk(s, s.reader.document.id);
  }

  lemma TellRemembers(s: State, id: Id)
    requires Inv(s) && id in s.doomed
    ensures Remembers(s, Tell(s, id))
  {
    hide Bounded, Framed;
    assert IdOk(s, id);
  }

  lemma ToldStep(s: State, e: Event)
    requires Inv(s) && Enabled(s, e)
    ensures Told(s, Step(s, e))
  {
    hide Inv, RegisterTask, LeaveTask, Release, FailState, Handle, Hand, Tell;
    match e
    case Deliver => HandTold(s);
    case SendFailure(id) => TellTold(s, id);
    case FailAbandoned(_) => FailTold(s, ABANDONED_FRAME);
    case FailOverflow(_) => FailTold(s, ABANDONED_FULL);
    case ReaderFail => FailTold(s, s.reader.reason);
    case OwnerDrop(reason) => FailTold(s, reason);
    case _ =>
  }

  lemma HandTold(s: State)
    requires Inv(s) && s.reader.Delivering?
    ensures Told(s, Hand(s))
  {
    hide Inv;
  }

  lemma TellTold(s: State, id: Id)
    requires Inv(s) && id in s.doomed
    ensures Told(s, Tell(s, id))
  {
    hide Inv;
  }

  lemma FailTold(s: State, reason: Reason)
    requires Inv(s)
    ensures Told(s, FailState(s, reason))
  {
    hide Bounded, Framed;
    forall id | id in s.doomed ensures s.registry.terminal.Some? {
      assert IdOk(s, id);
    }
  }

  lemma HandedStep(s: State, e: Event)
    requires Enabled(s, e)
    ensures Handed(s, Step(s, e))
  {
    hide RegisterTask, LeaveTask, Release, FailState, Handle, Tell;
  }

  lemma WireGrowsStep(s: State, e: Event)
    requires Inv(s) && Enabled(s, e)
    ensures WireGrows(s, Step(s, e))
  {
    hide AllOk, Bounded, RegisterTask, LeaveTask, Release, FailState, Handle, Hand, Tell, Sealed, Joined;
    if Sealed(s) {
      SealedStep(s, e);
    } else if !e.WriteChunk? && !e.WriteDone? && !e.AbandonWrite? {
      WireKept(s, e);
    }
  }

  predicate Keeps(s: State, t: State) {
    Remembers(s, t) && Told(s, t) && Handed(s, t) && WireGrows(s, t)
  }

  lemma KeepsLasts()
    ensures Runs.Lasting(Moves, Inv, Keeps)
  {
    hide Inv, Step, Enabled, Remembers, Told, Handed, WireGrows;
    forall s ensures Keeps(s, s) {
      KeptNow(s);
    }
    forall s, t, u | Keeps(s, t) && Keeps(t, u) ensures Keeps(s, u) {
      KeptAcross(s, t, u);
    }
    forall s, e, t | Inv(s) && Moves(s, e, t) ensures Keeps(s, t) {
      RemembersStep(s, e);
      ToldStep(s, e);
      HandedStep(s, e);
      WireGrowsStep(s, e);
    }
  }

  /** In every run, over any stretch of it: a terminal reason never changes; a channel
      that got its message keeps exactly that one; matched replies are never unmatched;
      a failure still to be told and a reply in the reader's hand reach their channels if
      they leave their place; a reader that saw an unknown or repeated id matches nothing any
      more and stops; and the wire only grows, and not at all after a frame was abandoned on
      it. */
  lemma HistoryKept(states: seq<State>, events: seq<Event>, i: nat, j: nat)
    requires Run(states, events) && i <= j < |states|
    ensures Remembers(states[i], states[j]) && Told(states[i], states[j])
    ensures Handed(states[i], states[j]) && WireGrows(states[i], states[j])
  {
    hide Inv, Moves, Remembers, Told, Handed, WireGrows;
    InvInductive();
    KeepsLasts();
    Runs.Between(INITIAL, Moves, Inv, Keeps, states, events, i, j);
  }

  lemma KeptNow(s: State)
    ensures Remembers(s, s) && Told(s, s) && Handed(s, s) && WireGrows(s, s)
  {
  }

  lemma KeptAcross(s: State, t: State, u: State)
    requires Remembers(s, t) && Remembers(t, u) && Told(s, t) && Told(t, u)
    requires Handed(s, t) && Handed(t, u) && WireGrows(s, t) && WireGrows(t, u)
    ensures Remembers(s, u) && Told(s, u) && Handed(s, u) && WireGrows(s, u)
  {
    hide Sealed;
  }

  /** Both bounds hold in every reachable state, and after a failure nothing is kept. */
  lemma CapacityHolds(states: seq<State>, events: seq<Event>, i: nat)
    requires Run(states, events) && i < |states|
    ensures |states[i].registry.pending| <= 256 && |states[i].registry.abandoned| <= 256
    ensures states[i].registry.terminal.Some? ==>
              states[i].registry.pending == {} && states[i].registry.abandoned == {}
  {
    hide AllOk, Framed, Run;
    Reachable(states, events, i);
  }

  /** A request gets its own reply or a failure, its id is matched at most once, and a
      reply in its channel is that one match. */
  lemma OwnOutcome(states: seq<State>, events: seq<Event>, i: nat, id: Id)
    requires Run(states, events) && i < |states|
    ensures states[i].accepted[id] <= 1
    ensures id in states[i].inbox ==>
              match states[i].inbox[id]
              case Reply(d) => d.id == id && states[i].accepted[id] == 1
              case Failure(reason) => states[i].registry.terminal == Some(reason)
  {
    hide Bounded, Framed, Run;
    Reachable(states, events, i);
    assert IdOk(states[i], id);
  }

  /** No request is left without an outcome on its way: while its task owns its guard, its
      channel has its message, or a step that gives it one is enabled, or a reply with its id
      would be taken for it. */
  lemma NoRequestLost(states: seq<State>, events: seq<Event>, i: nat, id: Id)
    requires Run(states, events) && i < |states|
    requires id in states[i].registered && id in states[i].phases && Live(states[i].phases[id])
    ensures var s := states[i];
            || id in s.inbox
            || (Enabled(s, Deliver) && id in Step(s, Deliver).inbox && Step(s, Deliver).inbox[id] == Reply(s.reader.document))
            || (Enabled(s, SendFailure(id)) && id in Step(s, SendFailure(id)).inbox)
            || (s.registry.terminal.None? && id in s.registry.pending)
    ensures states[i].reader == Reading && id in states[i].registry.pending ==>
              forall payload :: Step(states[i], ReadReply(Document(id, payload))).reader == Delivering(Document(id, payload))
  {
    hide Bounded, Framed, Run;
    Reachable(states, events, i);
    assert IdOk(states[i], id);
  }

  /** Nobody writes, and there is room for one more request. */
  predicate Idle(s: State) {
    && s.holder.None? && s.writerOpen && s.registry.terminal.None?
    && |s.registry.pending| < 256 && s.nextId < U64_MAX
  }

  function Locked(s: State, frame: seq<Byte>): (t: State)
    requires Idle(s) && 0 < |frame| <= 0x10_0000
    ensures InPhase(t, s.nextId, Holding)
    ensures t == s.(phases := t.phases, frames := s.frames[s.nextId := frame], nextId := s.nextId + 1, holder := Some(s.nextId))
  {
    Step(Step(s, Begin(frame)), Lock(s.nextId))
  }

  function Entered(s: State, id: Id): (t: State)
    requires InPhase(s, id, Holding) && s.writerOpen && s.registry.terminal.None? && |s.registry.pending| < 256
    ensures t == s.(phases := s.phases[id := Writing(0)], registry := s.registry.(pending := s.registry.pending + {id}),
                    registered := s.registered + {id})
  {
    Step(s, Register(id))
  }

  function Wrote(s: State, id: Id): (t: State)
    requires InPhase(s, id, Writing(0)) && id in s.frames && |s.frames[id]| > 0
    ensures InPhase(t, id, Written)
    ensures t == s.(phases := t.phases, wire := s.wire + s.frames[id], completed := s.completed + [id])
  {
    assert s.frames[id][0..|s.frames[id]|] == s.frames[id];
    Step(Step(s, WriteChunk(id, |s.frames[id]|)), WriteDone(id))
  }

  function Replied(s: State, d: Document): (t: State)
    requires InPhase(s, d.id, Written) && s.reader == Reading && s.registry.terminal.None? && d.id in s.registry.pending
    ensures InPhase(t, d.id, Waiting)
    ensures t == s.(phases := t.phases, holder := None, registry := s.registry.(pending := s.registry.pending - {d.id}),
                    accepted := s.accepted + multiset{d.id}, inbox := s.inbox[d.id := Reply(d)])
  {
    Step(Step(Step(s, Unlock(d.id)), ReadReply(d)), Deliver)
  }

  /** A request that finds the transport idle and with room can be carried through: by these
      steps its frame goes onto the wire whole, its reply comes back to it, and the registry
      is as before. */
  lemma RequestAnswered(states: seq<State>, events: seq<Event>, i: nat, frame: seq<Byte>, payload: int)
    requires Run(states, events) && i < |states| && Idle(states[i]) && states[i].reader == Reading
    requires 0 < |frame| <= 0x10_0000
    ensures var s := states[i];
            var sent := Wrote(Entered(Locked(s, frame), s.nextId), s.nextId);
            && sent.wire == s.wire + frame && sent.completed == s.completed + [s.nextId]
            && var t := Replied(sent, Document(s.nextId, payload));
            && t.inbox == s.inbox[s.nextId := Reply(Document(s.nextId, payload))] && Enabled(t, Receive(s.nextId))
            && t.wire == sent.wire && t.registry == s.registry && t.holder.None? && t.reader == Reading
  {
    hide Bounded, Framed, Run, Step, IdOk;
    Reachable(states, events, i);
    FreshId(states[i]);
    var pending := states[i].registry.pending;
    assert pending + {states[i].nextId} - {states[i].nextId} == pending;
  }

  lemma FreshId(s: State)
    requires Inv(s)
    ensures s.nextId !in s.registry.pending
  {
    hide Bounded, Framed;
    assert IdOk(s, s.nextId);
  }

  /** The exact set of replies that end the transport: while it runs, a reply is refused
      unless its request was registered, had no reply yet, and is not the request whose
      dropped guard has found the abandoned set full but has not failed the transport. */
  lemma ReplyRefusedIff(states: seq<State>, events: seq<Event>, i: nat, d: Document)
    requires Run(states, events) && i < |states|
    requires states[i].reader == Reading && states[i].registry.terminal.None?
    ensures Step(states[i], ReadReply(d)).reader == Failing(UNKNOWN_ID)
            <==> d.id !in states[i].registered || d.id in states[i].accepted || Overflowed(states[i], d.id)
  {
    hide Bounded, Framed, Run;
    Reachable(states, events, i);
    assert IdOk(states[i], d.id);
  }

  /** A late reply is absorbed once: it frees the abandoned slot, reaches no channel, and
      the next reply with that id is refused. */
  lemma LateReplyAbsorbedOnce(states: seq<State>, events: seq<Event>, i: nat, d: Document)
    requires Run(states, events) && i < |states|
    requires states[i].reader == Reading && d.id in states[i].registry.abandoned
    ensures var t := Step(states[i], ReadReply(d));
            && t.registry.abandoned == states[i].registry.abandoned - {d.id}
            && t.registry.pending == states[i].registry.pending
            && t.inbox == states[i].inbox && t.reader == Reading
            && (forall again: Document :: again.id == d.id ==>
                  Step(t, ReadReply(again)).reader == Failing(UNKNOWN_ID))
  {
    hide Bounded, Framed, Run;
    Reachable(states, events, i);
    assert IdOk(states[i], d.id);
  }

  /** The step that fails the transport dooms exactly the requests still pending. */
  lemma FailureReachesPending(states: seq<State>, events: seq<Event>, i: nat, j: nat)
    requires Run(states, events) && i < |events| && j == i + 1
    requires states[i].registry.terminal.None? && states[j].registry.terminal.Some?
    ensures states[j].doomed.Keys == states[i].registry.pending
    ensures forall id :: id in states[j].doomed ==> states[j].doomed[id] == states[j].registry.terminal.value
  {
    hide Inv, Step;
    Reachable(states, events, i);
    Runs.Moved(INITIAL, Moves, states, events, i);
    FailingStep(states[i], events[i]);
  }

  lemma FailingStep(s: State, e: Event)
    requires Inv(s) && Enabled(s, e) && s.registry.terminal.None? && Step(s, e).registry.terminal.Some?
    ensures var t := Step(s, e);
            && t.registry.terminal.Some? && t.doomed.Keys == s.registry.pending
            && (forall id :: id in t.doomed ==> t.doomed[id] == t.registry.terminal.value)
  {
    hide Bounded, Framed, AllOk, RegisterTask, LeaveTask, Release, Handle, Hand, Tell, FailState;
    match e
    case FailAbandoned(_) => DoomsPending(s, ABANDONED_FRAME);
    case FailOverflow(_) => DoomsPending(s, ABANDONED_FULL);
    case ReaderFail => DoomsPending(s, s.reader.reason);
    case OwnerDrop(reason) => DoomsPending(s, reason);
    case _ =>
  }

  lemma DoomsPending(s: State, reason: Reason)
    requires AllOk(s) && s.registry.terminal.None?
    ensures var t := FailState(s, reason);
            && t.registry.terminal.Some? && t.doomed.Keys == s.registry.pending
            && (forall id :: id in t.doomed ==> t.doomed[id] == t.registry.terminal.value)
  {
    forall id ensures id !in s.doomed {
      assert IdOk(s, id);
    }
  }

  /** The helper always reads complete request frames, no request twice, then at most one
      incomplete frame; nothing follows a frame that was left incomplete. */
  lemma WireIsFramed(states: seq<State>, events: seq<Event>, i: nat, j: nat)
    requires Run(states, events) && i <= j < |states|
    ensures states[i].wire == Joined(states[i].frames, states[i].completed) + Rest(states[i])
    ensures Rest(states[i]) == [] || PartOfFrame(states[i], Rest(states[i]))
    ensures forall m, n :: 0 <= m < n < |states[i].completed| ==> states[i].completed[m] != states[i].completed[n]
    ensures states[i].torn.Some? ==> states[j].wire == states[i].wire
  {
    hide Run, Bounded, Joined, Sealed, Remembers, Told, Handed;
    Reachable(states, events, i);
    HistoryKept(states, events, i, j);
    RestIsPrefix(states[i]);
  }

  /** The bytes begin the frame of a request that is not among the completed ones. */
  ghost predicate PartOfFrame(s: State, bytes: seq<Byte>) {
    exists id :: id in s.frames && id !in s.completed && bytes <= s.frames[id]
  }

  lemma RestIsPrefix(s: State)
    requires AllOk(s) && Framed(s)
    ensures Rest(s) == [] || PartOfFrame(s, Rest(s))
  {
    hide Joined, Sealed;
    if s.torn.Some? {
      assert Rest(s) <= s.frames[s.torn.value.id];
    } else if s.holder.Some? {
      assert IdOk(s, s.holder.value);
      if Rest(s) != [] {
        assert Rest(s) <= s.frames[s.holder.value];
      }
    }
  }
}
