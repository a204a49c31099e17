/**
 * The send side of ServerCore/Session.cpp as a state machine: any number of threads in Send,
 * RegisterSend and ProcessSend, one step for each access to shared state.  WSASend, its completion
 * and disconnections are outcomes chosen by the environment.
 */
module SendPipeline {
  import opened Options

  type Buffer = int

  /** Where a thread is.  `nested` tells a RegisterSend called by ProcessSend, under the session
      lock, from one called by Send. */
  datatype Pc =
    | Idle
    // Send
    | SLock(buffer: Buffer) | SPush(buffer: Buffer) | SExchange | SUnlock(register: bool)
    // RegisterSend
    | RCheck(nested: bool) | RLock(nested: bool) | RDrain(nested: bool) | RUnlock(nested: bool)
    | RSubmit(nested: bool) | RFailClear(nested: bool) | RFailStore(nested: bool)
    // ProcessSend
    | PClear(bytes: int) | PBytes(bytes: int) | PLock | PTest | PUnlock

  /** The session.  The last three fields record the past: the buffers in the order they entered the
      queue, the batch of each WSASend, and whether one of them failed. */
  datatype Session = Session(
    connected: bool,
    registered: bool,
    queue: seq<Buffer>,
    event: seq<Buffer>,
    lock: Option<nat>,
    outstanding: bool,
    pushed: seq<Buffer>,
    submitted: seq<seq<Buffer>>,
    sendFailed: bool)

  datatype State = State(session: Session, threads: seq<Pc>)

  datatype Action =
    | CallSend(buffer: Buffer)
    | Deliver(bytes: int)
    | Advance
    | SubmitOk
    | SubmitFail(reset: bool)
    | Disconnect

  predicate CanAct(s: Session, pc: Pc, a: Action) {
    match a
    case CallSend(_) => pc.Idle?
    case Deliver(_) => pc.Idle? && s.outstanding
    case SubmitOk => pc.RSubmit?
    case SubmitFail(_) => pc.RSubmit?
    case Disconnect => true
    case Advance =>
      match pc
      case Idle => false
      case RSubmit(_) => false
      case SLock(_) => s.lock.None?
      case RLock(nested) => nested || s.lock.None?
      case PLock => s.lock.None?
      case _ => true
  }

  /** The end of RegisterSend. */
  function Return(nested: bool): Pc {
    if nested then PUnlock else Idle
  }

  /** One step of thread `i`, which is at `pc`. */
  function Act(s: Session, i: nat, pc: Pc, a: Action): (Session, Pc)
    requires CanAct(s, pc, a)
  {
    match a
    case CallSend(buffer) => (s, if s.connected then SLock(buffer) else Idle)
    case Deliver(bytes) => (s.(outstanding := false), PClear(bytes))
    case SubmitOk => (s.(submitted := s.submitted + [s.event], outstanding := true), Return(pc.nested))
    case SubmitFail(reset) =>
      (s.(submitted := s.submitted + [s.event], sendFailed := true, connected := s.connected && !reset),
       RFailClear(pc.nested))
    case Disconnect => (s.(connected := false), pc)
    case Advance => Continue(s, i, pc)
  }

  function Continue(s: Session, i: nat, pc: Pc): (Session, Pc) {
    match pc
    case Idle => (s, pc)
    case SLock(buffer) => (s.(lock := Some(i)), SPush(buffer))
    case SPush(buffer) => (s.(queue := s.queue + [buffer], pushed := s.pushed + [buffer]), SExchange)
    case SExchange => (s.(registered := true), SUnlock(!s.registered))
    case SUnlock(register) => (s.(lock := None), if register then RCheck(false) else Idle)
    case RCheck(nested) => (s, if s.connected then RLock(nested) else Return(nested))
    case RLock(nested) => (s.(lock := Some(i)), RDrain(nested))
    case RDrain(nested) =>
      if s.queue == [] then (s, RUnlock(nested))
      else (s.(queue := s.queue[1..], event := s.event + [s.queue[0]]), pc)
    case RUnlock(nested) => (s.(lock := if nested then s.lock else None), RSubmit(nested))
    case RSubmit(_) => (s, pc)
    case RFailClear(nested) => (s.(event := []), RFailStore(nested))
    case RFailStore(nested) => (s.(registered := false), Return(nested))
    case PClear(bytes) => (s.(event := []), PBytes(bytes))
    case PBytes(bytes) => if bytes == 0 then (s.(connected := false), Idle) else (s, PLock)
    case PLock => (s.(lock := Some(i)), PTest)
    case PTest => if s.queue == [] then (s.(registered := false), PUnlock) else (s, RCheck(true))
    case PUnlock => (s.(lock := None), Idle)
  }

  predicate Enabled(s: State, i: nat, a: Action) {
    i < |s.threads| && CanAct(s.session, s.threads[i], a)
  }

  function Step(s: State, i: nat, a: Action): State
    requires Enabled(s, i, a)
  {
    var (session, pc) := Act(s.session, i, s.threads[i], a);
    State(session, s.threads[i := pc])
  }

  // ---------------------------------------------------------------- who owns what

  predicate HoldsLock(pc: Pc) {
    pc.SPush? || pc.SExchange? || pc.SUnlock? || pc.RDrain? || pc.RUnlock? || pc.PTest? || pc.PUnlock?
    || ((pc.RCheck? || pc.RLock? || pc.RSubmit? || pc.RFailClear? || pc.RFailStore?) && pc.nested)
  }

  /** The thread owns the send event: it is registering or completing. */
  predicate Owns(pc: Pc) {
    (pc.SUnlock? && pc.register) || pc.RCheck? || pc.RLock? || pc.RDrain? || pc.RUnlock? || pc.RSubmit?
    || pc.RFailClear? || pc.RFailStore? || pc.PClear? || pc.PBytes? || pc.PLock? || pc.PTest?
  }

  function Flat(batches: seq<seq<Buffer>>): seq<Buffer> {
    if batches == [] then [] else Flat(batches[..|batches| - 1]) + batches[|batches| - 1]
  }

  lemma FlatAppend(batches: seq<seq<Buffer>>, batch: seq<Buffer>)
    ensures Flat(batches + [batch]) == Flat(batches) + batch
  {
    assert (batches + [batch])[..|batches|] == batches;
  }

  predicate LockInv(s: State) {
    && (s.session.lock.Some? ==> s.session.lock.value < |s.threads|)
    && (forall i :: 0 <= i < |s.threads| ==> (HoldsLock(s.threads[i]) <==> s.session.lock == Some(i)))
  }

  /** At most one party owns the send event, and only while the token is taken. */
  predicate OneOwner(s: State) {
    && (forall i, j :: 0 <= i < j < |s.threads| ==> !(Owns(s.threads[i]) && Owns(s.threads[j])))
    && (forall i :: 0 <= i < |s.threads| && Owns(s.threads[i]) ==> s.session.registered && !s.session.outstanding)
    && (s.session.outstanding ==> s.session.registered)
  }

  predicate AllSubmitted(s: Session) {
    s.pushed == Flat(s.submitted) + s.queue
  }

  predicate EventIsLastBatch(s: Session) {
    s.submitted != [] && s.event == s.submitted[|s.submitted| - 1]
  }

  /** The thread has taken the event over and not yet given it to WSASend. */
  predicate Loading(pc: Pc) {
    pc.RDrain? || pc.RUnlock? || pc.RSubmit?
  }

  /** What the event holds while a thread owns it: buffers for the next WSASend, those of the last
      one, or nothing ... */
  predicate EventOk(s: Session, pc: Pc) {
    if Loading(pc) then s.pushed == Flat(s.submitted) + s.event + s.queue
    else AllSubmitted(s) && if pc.RFailClear? || pc.PClear? then EventIsLastBatch(s) else s.event == []
  }

  /** ... and while none does. */
  predicate EventIdle(s: Session) {
    AllSubmitted(s) && if s.outstanding then EventIsLastBatch(s) else s.event == []
  }

  predicate NoneOwns(s: State) {
    forall i :: 0 <= i < |s.threads| ==> !Owns(s.threads[i])
  }

  predicate EventInv(s: State) {
    && (forall i :: 0 <= i < |s.threads| && Owns(s.threads[i]) ==> EventOk(s.session, s.threads[i]))
    && (NoneOwns(s) ==> EventIdle(s.session))
  }

  /** The token is only ever held with something to send. */
  predicate WorkOk(s: Session, pc: Pc) {
    match pc
    case SExchange => s.queue != []
    case SUnlock(register) => register ==> s.queue != []
    case RCheck(_) => s.queue != []
    case RLock(_) => s.queue != []
    case RDrain(_) => s.queue != [] || s.event != []
    case RUnlock(_) => s.event != [] && s.queue == []
    case RSubmit(_) => s.event != []
    case RFailClear(_) => s.sendFailed
    case RFailStore(_) => s.sendFailed
    case _ => true
  }

  predicate WorkInv(s: State) {
    && (forall i :: 0 <= i < |s.threads| ==> WorkOk(s.session, s.threads[i]))
    && (forall k :: 0 <= k < |s.session.submitted| ==> s.session.submitted[k] != [])
  }

  predicate OwnerExists(s: State) {
    s.session.outstanding || exists i :: 0 <= i < |s.threads| && Owns(s.threads[i])
  }

  predicate Exchanging(s: State) {
    exists i :: 0 <= i < |s.threads| && s.threads[i].SExchange?
  }

  predicate WakeInv(s: State) {
    s.session.connected ==>
      && (s.session.registered ==> OwnerExists(s))
      && (!s.session.sendFailed && s.session.queue != [] ==> s.session.registered || Exchanging(s))
  }

  predicate Inv(s: State) {
    LockInv(s) && OneOwner(s) && EventInv(s) && WorkInv(s) && WakeInv(s)
  }

  predicate Init(s: State) {
    && s.session == Session(true, false, [], [], None, false, [], [], false)
    && (forall i :: 0 <= i < |s.threads| ==> s.threads[i].Idle?)
  }

  // ---------------------------------------------------------------- what one step does

  lemma LockStep(s: Session, i: nat, pc: Pc, a: Action)
    requires CanAct(s, pc, a) && (HoldsLock(pc) <==> s.lock == Some(i))
    ensures var (s', pc') := Act(s, i, pc, a);
            && (HoldsLock(pc') <==> s'.lock == Some(i))
            && (s'.lock == s.lock || (s.lock in {None, Some(i)} && s'.lock in {None, Some(i)}))
  {
    if a.Advance? {
      LockContinue(s, i, pc);
    }
    hide Continue;
  }

  lemma LockContinue(s: Session, i: nat, pc: Pc)
    requires CanAct(s, pc, Advance) && (HoldsLock(pc) <==> s.lock == Some(i))
    ensures var (s', pc') := Continue(s, i, pc);
            && (HoldsLock(pc') <==> s'.lock == Some(i))
            && (s'.lock == s.lock || (s.lock in {None, Some(i)} && s'.lock in {None, Some(i)}))
  {
  }

  lemma OwnerStep(s: Session, i: nat, pc: Pc, a: Action)
    requires CanAct(s, pc, a)
    requires Owns(pc) ==> s.registered && !s.outstanding
    requires s.outstanding ==> s.registered
    ensures var (s', pc') := Act(s, i, pc, a);
            && (Owns(pc') && !Owns(pc) ==> !s.registered || s.outstanding)
            && (Owns(pc') ==> s'.registered && !s'.outstanding)
            && (s'.outstanding ==> s'.registered && (s.outstanding || (Owns(pc) && !Owns(pc'))))
            && (s.registered && !s'.registered ==> Owns(pc))
  {
  }

  /** The event after a step of a thread at `pc` that leaves it at `pc'`. */
  predicate EventKept(s: Session, pc: Pc, s': Session, pc': Pc) {
    (if Owns(pc) then EventOk(s, pc) else EventIdle(s)) ==>
      if Owns(pc') then EventOk(s', pc') else EventIdle(s')
  }

  lemma EventContinue(s: Session, i: nat, pc: Pc)
    requires CanAct(s, pc, Advance)
    requires (Owns(pc) ==> !s.outstanding) && (s.outstanding ==> s.registered)
    ensures EventKept(s, pc, Continue(s, i, pc).0, Continue(s, i, pc).1)
  {
    hide Flat;
    if pc.RDrain? && s.queue != [] {
      assert s.event + s.queue == s.event + [s.queue[0]] + s.queue[1..];
    }
  }

  lemma EventStep(s: Session, i: nat, pc: Pc, a: Action)
    requires CanAct(s, pc, a)
    requires (Owns(pc) ==> !s.outstanding) && (s.outstanding ==> s.registered)
    ensures EventKept(s, pc, Act(s, i, pc, a).0, Act(s, i, pc, a).1)
  {
    if a.Advance? {
      EventContinue(s, i, pc);
    } else if a.SubmitOk? || a.SubmitFail? {
      EventSubmitted(s, i, pc, a);
    }
    hide Continue, Flat;
  }

  lemma EventSubmitted(s: Session, i: nat, pc: Pc, a: Action)
    requires CanAct(s, pc, a) && (a.SubmitOk? || a.SubmitFail?)
    ensures EventKept(s, pc, Act(s, i, pc, a).0, Act(s, i, pc, a).1)
  {
    hide Continue, Flat;
    FlatAppend(s.submitted, s.event);
  }

  /** The step of a thread that does not own the event, seen from the owner. */
  lemma EventStepOfOther(s: Session, i: nat, pc: Pc, a: Action, owner: Pc)
    requires CanAct(s, pc, a) && !Owns(pc) && !Owns(Act(s, i, pc, a).1) && EventOk(s, owner)
    ensures EventOk(Act(s, i, pc, a).0, owner)
  {
    var s' := Act(s, i, pc, a).0;
    assert s'.event == s.event && s'.submitted == s.submitted;
    assert (s'.queue == s.queue && s'.pushed == s.pushed)
        || exists b :: s'.queue == s.queue + [b] && s'.pushed == s.pushed + [b];
    hide Act, Continue, CanAct, Owns;
  }

  lemma WorkStep(s: Session, i: nat, pc: Pc, a: Action, other: Pc)
    requires CanAct(s, pc, a) && WorkOk(s, pc)
    requires !(Owns(pc) && Owns(other)) && !(HoldsLock(pc) && HoldsLock(other))
    ensures var (s', pc') := Act(s, i, pc, a);
            && WorkOk(s', pc')
            && (WorkOk(s, other) ==> WorkOk(s', other))
            && (s'.submitted == s.submitted || (s'.submitted == s.submitted + [s.event] && s.event != []))
  {
  }

  lemma WakeStep(s: Session, i: nat, pc: Pc, a: Action)
    requires CanAct(s, pc, a) && WorkOk(s, pc)
    ensures var (s', pc') := Act(s, i, pc, a);
            s'.connected ==>
              && s.connected && (s.sendFailed ==> s'.sendFailed)
              && (Owns(pc) && s'.registered ==> Owns(pc') || s'.outstanding)
              && (s.outstanding ==> s'.outstanding || Owns(pc'))
              && (s'.registered && !s.registered ==> Owns(pc'))
              && (s.registered && !s'.registered ==> s'.queue == [] || s'.sendFailed)
              && (s.queue == [] && s'.queue != [] ==> pc'.SExchange?)
              && (pc.SExchange? && !pc'.SExchange? ==> s'.registered)
  {
  }

  // ---------------------------------------------------------------- every step keeps the invariant

  lemma StepKeepsLock(s: State, i: nat, a: Action)
    requires LockInv(s) && Enabled(s, i, a)
    ensures LockInv(Step(s, i, a))
  {
    LockStep(s.session, i, s.threads[i], a);
    hide Act, CanAct, HoldsLock;
  }

  lemma StepKeepsOneOwner(s: State, i: nat, a: Action)
    requires OneOwner(s) && Enabled(s, i, a)
    ensures OneOwner(Step(s, i, a))
  {
    OwnerStep(s.session, i, s.threads[i], a);
    hide Act, CanAct, Owns;
  }

  lemma StepKeepsEvent(s: State, i: nat, a: Action)
    requires OneOwner(s) && EventInv(s) && Enabled(s, i, a)
    ensures EventInv(Step(s, i, a))
  {
    var pc, s' := s.threads[i], Step(s, i, a);
    OwnerStep(s.session, i, pc, a);
    EventStep(s.session, i, pc, a);
    hide Act, CanAct, Owns, EventOk, EventIdle;
    if Owns(pc) || Owns(s'.threads[i]) {
      assert forall j :: 0 <= j < |s.threads| && j != i ==> !Owns(s.threads[j]);
      assert !Owns(pc) ==> NoneOwns(s);
      assert if Owns(s'.threads[i]) then EventOk(s'.session, s'.threads[i]) else EventIdle(s'.session);
      forall j | 0 <= j < |s'.threads| && Owns(s'.threads[j]) ensures j == i {
        assert s'.threads[j] == s.threads[j] || j == i;
      }
    } else {
      forall j | 0 <= j < |s.threads| && Owns(s.threads[j]) ensures EventOk(s'.session, s'.threads[j]) {
        EventStepOfOther(s.session, i, pc, a, s.threads[j]);
      }
      assert NoneOwns(s') ==> NoneOwns(s) by {
        assert forall j :: 0 <= j < |s.threads| && j != i ==> s'.threads[j] == s.threads[j];
      }
    }
  }

  lemma StepKeepsWork(s: State, i: nat, a: Action)
    requires LockInv(s) && OneOwner(s) && WorkInv(s) && Enabled(s, i, a)
    ensures WorkInv(Step(s, i, a))
  {
    WorkStep(s.session, i, s.threads[i], a, Idle);
    hide Act, CanAct, Owns, HoldsLock, WorkOk;
    forall j | 0 <= j < |s.threads| && j != i ensures WorkOk(Step(s, i, a).session, s.threads[j]) {
      WorkStep(s.session, i, s.threads[i], a, s.threads[j]);
    }
  }

  lemma StepKeepsWake(s: State, i: nat, a: Action)
    requires WorkInv(s) && WakeInv(s) && Enabled(s, i, a)
    ensures WakeInv(Step(s, i, a))
  {
    var s' := Step(s, i, a);
    WakeStep(s.session, i, s.threads[i], a);
    hide Act, CanAct, Owns, WorkOk;
    if s'.session.connected {
      if s'.session.registered {
        if s.session.registered && !s.session.outstanding {
          var j :| 0 <= j < |s.threads| && Owns(s.threads[j]);
          assert j != i ==> Owns(s'.threads[j]);
        }
        assert Owns(s'.threads[i]) ==> OwnerExists(s');
      } else if s'.session.sendFailed {
      } else if s'.session.queue != [] && s.session.queue != [] {
        var j :| 0 <= j < |s.threads| && s.threads[j].SExchange?;
        assert s'.threads[j].SExchange?;
      } else if s'.session.queue != [] {
        assert s'.threads[i].SExchange?;
      }
    }
  }

  lemma StepKeepsInv(s: State, i: nat, a: Action)
    requires Inv(s) && Enabled(s, i, a)
    ensures Inv(Step(s, i, a))
  {
    StepKeepsLock(s, i, a);
    StepKeepsOneOwner(s, i, a);
    StepKeepsEvent(s, i, a);
    StepKeepsWork(s, i, a);
    StepKeepsWake(s, i, a);
  }

  // ---------------------------------------------------------------- runs

  datatype Event = Event(thread: nat, action: Action)

  predicate Run(s: State, trace: seq<Event>, end: State)
    decreases |trace|
  {
    if trace == [] then end == s
    else
      && Enabled(s, trace[0].thread, trace[0].action)
      && Run(Step(s, trace[0].thread, trace[0].action), trace[1..], end)
  }

  lemma {:induction false} RunKeepsInv(s: State, trace: seq<Event>, end: State)
    requires Inv(s) && Run(s, trace, end)
    ensures Inv(end)
    decreases |trace|
  {
    hide Inv, Step, Enabled;
    if trace != [] {
      StepKeepsInv(s, trace[0].thread, trace[0].action);
      RunKeepsInv(Step(s, trace[0].thread, trace[0].action), trace[1..], end);
    }
  }

  lemma Reachable(start: State, trace: seq<Event>, end: State)
    requires Init(start) && Run(start, trace, end)
    ensures Inv(end)
  {
    RunKeepsInv(start, trace, end);
  }

  /** In every interleaving at most one party (a registering thread, a completing thread or the
      outstanding send) owns the send event, and an owner exists only while the token is taken. */
  lemma OwnershipIsExclusive(start: State, trace: seq<Event>, end: State, i: nat, j: nat)
    requires Init(start) && Run(start, trace, end)
    requires i < |end.threads| && j < |end.threads|
    ensures Owns(end.threads[i]) && Owns(end.threads[j]) ==> i == j
    ensures Owns(end.threads[i]) ==> !end.session.outstanding
    ensures OwnerExists(end) ==> end.session.registered
  {
    Reachable(start, trace, end);
  }

  /** Only the owner's steps change the send event. */
  lemma OnlyOwnerTouchesEvent(start: State, trace: seq<Event>, end: State, i: nat, a: Action)
    requires Init(start) && Run(start, trace, end) && Enabled(end, i, a)
    ensures Step(end, i, a).session.event != end.session.event ==>
              Owns(end.threads[i]) && !end.session.outstanding
  {
    Reachable(start, trace, end);
  }

  /** Every buffer is given to WSASend exactly once, in the order it was pushed: the batches so far,
      what a loading thread has moved to the event, and the queue make up the buffers pushed.  No
      batch is empty, and while a send is outstanding the event still holds its batch. */
  lemma BatchesArePushOrder(start: State, trace: seq<Event>, end: State)
    requires Init(start) && Run(start, trace, end)
    ensures forall i :: 0 <= i < |end.threads| && Loading(end.threads[i]) ==>
              end.session.pushed == Flat(end.session.submitted) + end.session.event + end.session.queue
    ensures (forall i :: 0 <= i < |end.threads| ==> !Loading(end.threads[i])) ==> AllSubmitted(end.session)
    ensures end.session.outstanding ==> EventIsLastBatch(end.session)
    ensures forall k :: 0 <= k < |end.session.submitted| ==> end.session.submitted[k] != []
  {
    Reachable(start, trace, end);
    forall i | 0 <= i < |end.threads| && Owns(end.threads[i]) ensures EventOk(end.session, end.threads[i]) {
    }
    if !NoneOwns(end) {
      var i :| 0 <= i < |end.threads| && Owns(end.threads[i]);
      assert EventOk(end.session, end.threads[i]);
    }
  }

  /** Nothing queued is left out of a batch: when RegisterSend gives the lock back, the queue is empty. */
  lemma BatchesTakeAll(start: State, trace: seq<Event>, end: State, i: nat)
    requires Init(start) && Run(start, trace, end) && i < |end.threads| && end.threads[i].RUnlock?
    ensures end.session.queue == []
    ensures end.session.pushed == Flat(end.session.submitted) + end.session.event
  {
    hide Run;
    Reachable(start, trace, end);
    assert WorkOk(end.session, end.threads[i]) && EventOk(end.session, end.threads[i]);
  }

  /** No wakeup is lost: while the session stays connected and no WSASend has failed, a non-empty
      queue under a free session lock has an owner that will send it. */
  lemma NoLostWakeup(start: State, trace: seq<Event>, end: State)
    requires Init(start) && Run(start, trace, end)
    requires end.session.connected && !end.session.sendFailed
    requires end.session.lock.None? && end.session.queue != []
    ensures OwnerExists(end)
  {
    Reachable(start, trace, end);
    assert forall i :: 0 <= i < |end.threads| ==> !HoldsLock(end.threads[i]);
  }

  /** Failures included: while the session is connected, there is an owner exactly while the token is
      taken. */
  lemma OwnerIffRegistered(start: State, trace: seq<Event>, end: State)
    requires Init(start) && Run(start, trace, end) && end.session.connected
    ensures OwnerExists(end) <==> end.session.registered
  {
    hide Run;
    Reachable(start, trace, end);
  }

  /** Buffers wait on a connected session and nobody will send them: nobody owns the event, nor is about to
      take the token. */
  predicate Stranded(s: State) {
    s.session.connected && s.session.queue != [] && !OwnerExists(s) && !Exchanging(s)
  }

  /** A queue is stranded exactly while it is not empty, the token is free, and no thread is between
      queueing a buffer and asking for the token; and only after some WSASend has failed. */
  lemma StrandedIff(start: State, trace: seq<Event>, end: State)
    requires Init(start) && Run(start, trace, end)
    ensures Stranded(end) <==> end.session.connected && end.session.queue != [] && !end.session.registered && !Exchanging(end)
    ensures Stranded(end) ==> end.session.sendFailed
  {
    hide Run;
    Reachable(start, trace, end);
  }

  /** One step strands a queue exactly when it gives the token back after a failed WSASend while buffers
      are queued and nobody is about to ask for the token. */
  lemma StrandsIff(start: State, trace: seq<Event>, end: State, i: nat, a: Action)
    requires Init(start) && Run(start, trace, end) && Enabled(end, i, a) && !Stranded(end)
    ensures Stranded(Step(end, i, a)) <==>
            end.session.connected && end.threads[i].RFailStore? && a.Advance?
            && end.session.queue != [] && !Exchanging(end)
  {
    hide Run;
    Reachable(start, trace, end);
    StepKeepsInv(end, i, a);
    var s' := Step(end, i, a);
    hide EventOk, EventIdle, Flat;
    StrandStep(end.session, i, end.threads[i], a);
    assert forall j :: 0 <= j < |end.threads| && j != i ==> s'.threads[j] == end.threads[j];
    hide Act, CanAct, EventInv;
    if Exchanging(end) {
      var j :| 0 <= j < |end.threads| && end.threads[j].SExchange?;
      assert j != i ==> s'.threads[j].SExchange?;
    }
    if Exchanging(s') && !Exchanging(end) {
      var j :| 0 <= j < |s'.threads| && s'.threads[j].SExchange?;
      assert j == i;
    }
  }

  /** What one thread's step does to the things a stranded queue is made of. */
  lemma StrandStep(s: Session, i: nat, pc: Pc, a: Action)
    requires CanAct(s, pc, a) && WorkOk(s, pc)
    ensures var (s', pc') := Act(s, i, pc, a);
            && (s'.connected ==> s.connected)
            && (pc.SExchange? && !pc'.SExchange? ==> s'.registered)
            && (!pc.SExchange? && pc'.SExchange? ==> s'.queue != [])
            && (s.queue == [] && s'.queue != [] ==> pc'.SExchange?)
            && (s.registered && !s'.registered ==> (pc.RFailStore? && a.Advance?) || s'.queue == [])
            && (pc.RFailStore? && a.Advance? ==>
                  s' == s.(registered := false) && !pc'.SExchange?)
  {
  }

  /** One step ends the stranding exactly when it queues another buffer, so that its thread goes on to ask
      for the token, or disconnects the session. */
  lemma UnstrandsIff(start: State, trace: seq<Event>, end: State, i: nat, a: Action)
    requires Init(start) && Run(start, trace, end) && Enabled(end, i, a) && Stranded(end)
    ensures !Stranded(Step(end, i, a)) <==> a.Disconnect? || (a.Advance? && end.threads[i].SPush?)
  {
    hide Run, Inv;
    Reachable(start, trace, end);
    var s' := Step(end, i, a);
    assert !Owns(end.threads[i]) && !end.threads[i].SExchange? && !end.session.outstanding;
    QuietStep(end.session, i, end.threads[i], a);
    assert s'.threads[i] == Act(end.session, i, end.threads[i], a).1;
    assert forall j :: 0 <= j < |end.threads| && j != i ==> s'.threads[j] == end.threads[j];
    hide Act, CanAct, Owns;
  }

  /** What a thread can do that does not own the event, when nothing is outstanding. */
  lemma QuietStep(s: Session, i: nat, pc: Pc, a: Action)
    requires CanAct(s, pc, a) && s.connected && s.queue != [] && !s.outstanding && !Owns(pc) && !pc.SExchange?
    ensures var (s', pc') := Act(s, i, pc, a);
            && (s'.connected <==> !a.Disconnect?)
            && s'.queue != [] && !s'.outstanding && !Owns(pc')
            && (pc'.SExchange? <==> a.Advance? && pc.SPush?)
  {
  }

  /** A WSASend that fails without a reset loses its batch and gives the token back, so buffers queued
      meanwhile wait for the next Send. */
  lemma FailureStrandsTheQueue(s: State, i: nat)
    requires Inv(s) && i < |s.threads| && s.threads[i] == RSubmit(false) && s.session.queue != []
    ensures var s3 := Step(Step(Step(s, i, SubmitFail(false)), i, Advance), i, Advance);
            && s3.session.queue == s.session.queue && s3.session.connected == s.session.connected
            && !s3.session.registered && !OwnerExists(s3)
  {
    var s3 := Step(Step(Step(s, i, SubmitFail(false)), i, Advance), i, Advance);
    assert Owns(s.threads[i]);
    assert forall j :: 0 <= j < |s3.threads| && j != i ==> s3.threads[j] == s.threads[j];
  }

  // ---------------------------------------------------------------- calls that nobody disturbs

  /** Thread `i` alone leads from `s` to `end`. */
  ghost predicate Alone(s: State, i: nat, end: State) {
    exists trace: seq<Event> :: Run(s, trace, end) && ByOne(trace, i)
  }

  predicate ByOne(trace: seq<Event>, i: nat) {
    forall k :: 0 <= k < |trace| ==> trace[k].thread == i
  }

  lemma {:induction false} RunConcat(s: State, first: seq<Event>, mid: State, second: seq<Event>, end: State)
    requires Run(s, first, mid) && Run(mid, second, end)
    ensures Run(s, first + second, end)
    decreases |first|
  {
    hide Step, Enabled;
    if first == [] {
      assert first + second == second;
    } else {
      assert (first + second)[0] == first[0] && (first + second)[1..] == first[1..] + second;
      RunConcat(Step(s, first[0].thread, first[0].action), first[1..], mid, second, end);
    }
  }

  lemma AloneStart(s: State, i: nat)
    ensures Alone(s, i, s)
  {
    assert Run(s, [], s) && ByOne([], i);
  }

  /** One more step by thread `i`, which has come to `pc`, and the session to `session`. */
  lemma AloneStep(s: State, session: Session, threads: seq<Pc>, i: nat, pc: Pc, a: Action)
    requires i < |threads| && Alone(s, i, State(session, threads[i := pc])) && CanAct(session, pc, a)
    ensures var (session', pc') := Act(session, i, pc, a);
            Alone(s, i, State(session', threads[i := pc']))
  {
    hide Act, CanAct;
    var mid := State(session, threads[i := pc]);
    var trace :| Run(s, trace, mid) && ByOne(trace, i);
    var (session', pc') := Act(session, i, pc, a);
    assert threads[i := pc][i := pc'] == threads[i := pc'];
    assert Step(mid, i, a) == State(session', threads[i := pc']);
    assert [Event(i, a)][1..] == [] && Run(Step(mid, i, a), [], Step(mid, i, a));
    assert Run(mid, [Event(i, a)], Step(mid, i, a));
    RunConcat(s, trace, mid, [Event(i, a)], Step(mid, i, a));
    assert ByOne(trace + [Event(i, a)], i);
  }

  /** The loop moves the whole queue to the event, whatever its length. */
  lemma {:induction false} MovesAll(start: State, s: Session, threads: seq<Pc>, i: nat, nested: bool)
    requires i < |threads| && Alone(start, i, State(s, threads[i := RDrain(nested)]))
    ensures Alone(start, i, State(s.(queue := [], event := s.event + s.queue), threads[i := RUnlock(nested)]))
    decreases |s.queue|
  {
    AloneStep(start, s, threads, i, RDrain(nested), Advance);
    hide Alone;
    if s.queue == [] {
      assert s.event + s.queue == s.event;
    } else {
      assert s.event + [s.queue[0]] + s.queue[1..] == s.event + s.queue;
      MovesAll(start, s.(queue := s.queue[1..], event := s.event + [s.queue[0]]), threads, i, nested);
    }
  }

  /** RegisterSend, called by Send or by ProcessSend, loads all that is queued, in order. */
  lemma LoadsAll(start: State, s: Session, threads: seq<Pc>, i: nat, nested: bool)
    requires i < |threads| && Alone(start, i, State(s, threads[i := RCheck(nested)]))
    requires s.connected && s.event == [] && s.lock == if nested then Some(i) else None
    ensures Alone(start, i, State(s.(queue := [], event := s.queue), threads[i := RSubmit(nested)]))
  {
    var held := s.(lock := Some(i));
    assert [] + s.queue == s.queue;
    hide Alone;
    AloneStep(start, s, threads, i, RCheck(nested), Advance);
    AloneStep(start, s, threads, i, RLock(nested), Advance);
    MovesAll(start, held, threads, i, nested);
    AloneStep(start, held.(queue := [], event := s.queue), threads, i, RUnlock(nested), Advance);
  }

  /** A thread that may call, on a session whose lock is free. */
  predicate MayCall(s: State, i: nat) {
    i < |s.threads| && s.threads[i].Idle? && s.session.connected && s.session.lock.None?
  }

  lemma AtIdle(s: State, i: nat)
    requires i < |s.threads| && s.threads[i].Idle?
    ensures s.threads[i := Idle] == s.threads && Alone(s, i, State(s.session, s.threads[i := Idle]))
  {
    assert s.threads[i := Idle] == s.threads && s == State(s.session, s.threads);
    AloneStart(s, i);
  }

  /** A Send that finds the token free takes it and comes to WSASend with its buffer behind all that was still
      queued. */
  lemma SendLoads(s: State, i: nat, b: Buffer)
    requires MayCall(s, i) && !s.session.registered && s.session.event == []
    ensures var x := s.session;
            Alone(s, i, State(x.(queue := [], event := x.queue + [b], pushed := x.pushed + [b], registered := true),
                              s.threads[i := RSubmit(false)]))
  {
    AtIdle(s, i);
    var x, threads := s.session, s.threads;
    var queued := x.(queue := x.queue + [b], pushed := x.pushed + [b]);
    hide Alone;
    AloneStep(s, x, threads, i, Idle, CallSend(b));
    AloneStep(s, x, threads, i, SLock(b), Advance);
    AloneStep(s, x.(lock := Some(i)), threads, i, SPush(b), Advance);
    AloneStep(s, queued.(lock := Some(i)), threads, i, SExchange, Advance);
    AloneStep(s, queued.(lock := Some(i), registered := true), threads, i, SUnlock(true), Advance);
    LoadsAll(s, queued.(registered := true), threads, i, false);
  }

  lemma FreeTokenFreeEvent(s: State)
    requires Inv(s) && !s.session.registered
    ensures s.session.event == [] && !s.session.outstanding
  {
    assert NoneOwns(s);
  }

  /** If WSASend accepts them, they are one batch. */
  lemma SendIsSubmitted(start: State, trace: seq<Event>, s: State, i: nat, b: Buffer)
    requires Init(start) && Run(start, trace, s) && MayCall(s, i) && !s.session.registered
    ensures var x, batch := s.session, s.session.queue + [b];
            Alone(s, i, State(x.(queue := [], event := batch, pushed := x.pushed + [b], registered := true,
                                 outstanding := true, submitted := x.submitted + [batch]), s.threads))
  {
    Reachable(start, trace, s);
    FreeTokenFreeEvent(s);
    AtIdle(s, i);
    var x, batch := s.session, s.session.queue + [b];
    hide Alone, Inv, Run;
    SendLoads(s, i, b);
    AloneStep(s, x.(queue := [], event := batch, pushed := x.pushed + [b], registered := true), s.threads, i, RSubmit(false), SubmitOk);
  }

  /** A Send that finds the token taken leaves its buffer in the queue and returns. */
  lemma SendQueues(s: State, i: nat, b: Buffer)
    requires MayCall(s, i) && s.session.registered
    ensures var x := s.session;
            Alone(s, i, State(x.(queue := x.queue + [b], pushed := x.pushed + [b]), s.threads))
  {
    AtIdle(s, i);
    var x, threads := s.session, s.threads;
    var queued := x.(queue := x.queue + [b], pushed := x.pushed + [b]);
    hide Alone;
    AloneStep(s, x, threads, i, Idle, CallSend(b));
    AloneStep(s, x, threads, i, SLock(b), Advance);
    AloneStep(s, x.(lock := Some(i)), threads, i, SPush(b), Advance);
    AloneStep(s, queued.(lock := Some(i)), threads, i, SExchange, Advance);
    AloneStep(s, queued.(lock := Some(i)), threads, i, SUnlock(false), Advance);
  }

  /** A completion that has sent bytes. */
  lemma Completes(s: State, i: nat, bytes: int)
    requires i < |s.threads| && s.threads[i].Idle? && s.session.outstanding && s.session.lock.None? && bytes != 0
    ensures Alone(s, i, State(s.session.(outstanding := false, event := [], lock := Some(i)), s.threads[i := PTest]))
  {
    AtIdle(s, i);
    var x, threads := s.session, s.threads;
    hide Alone;
    AloneStep(s, x, threads, i, Idle, Deliver(bytes));
    AloneStep(s, x.(outstanding := false), threads, i, PClear(bytes), Advance);
    AloneStep(s, x.(outstanding := false, event := []), threads, i, PBytes(bytes), Advance);
    AloneStep(s, x.(outstanding := false, event := []), threads, i, PLock, Advance);
  }

  /** A completion with nothing queued gives the token back ... */
  lemma CompletionEnds(s: State, i: nat, bytes: int)
    requires i < |s.threads| && s.threads[i].Idle? && s.session.outstanding && s.session.lock.None? && bytes != 0
    requires s.session.queue == []
    ensures Alone(s, i, State(s.session.(outstanding := false, event := [], registered := false), s.threads))
  {
    Completes(s, i, bytes);
    AtIdle(s, i);
    var held := s.session.(outstanding := false, event := [], lock := Some(i));
    hide Alone;
    AloneStep(s, held, s.threads, i, PTest, Advance);
    AloneStep(s, held.(registered := false), s.threads, i, PUnlock, Advance);
  }

  /** ... and otherwise sends all that was queued meanwhile, in one batch. */
  lemma CompletionSendsOn(s: State, i: nat, bytes: int)
    requires MayCall(s, i) && s.session.outstanding && bytes != 0 && s.session.queue != []
    ensures var x := s.session;
            Alone(s, i, State(x.(queue := [], event := x.queue, submitted := x.submitted + [x.queue]), s.threads))
  {
    Completes(s, i, bytes);
    AtIdle(s, i);
    var x, threads := s.session, s.threads;
    var held := x.(outstanding := false, event := [], lock := Some(i));
    hide Alone;
    AloneStep(s, held, threads, i, PTest, Advance);
    LoadsAll(s, held, threads, i, true);
    var loaded := held.(queue := [], event := x.queue);
    AloneStep(s, loaded, threads, i, RSubmit(true), SubmitOk);
    AloneStep(s, loaded.(submitted := x.submitted + [x.queue], outstanding := true), threads, i, PUnlock, Advance);
  }

  /** A completion without bytes disconnects and keeps the token. */
  lemma EmptyCompletionDisconnects(s: State, i: nat)
    requires i < |s.threads| && s.threads[i].Idle? && s.session.outstanding
    ensures Alone(s, i, State(s.session.(outstanding := false, event := [], connected := false), s.threads))
  {
    AtIdle(s, i);
    var x, threads := s.session, s.threads;
    hide Alone;
    AloneStep(s, x, threads, i, Idle, Deliver(0));
    AloneStep(s, x.(outstanding := false), threads, i, PClear(0), Advance);
    AloneStep(s, x.(outstanding := false, event := []), threads, i, PBytes(0), Advance);
  }

  /** On a disconnected session Send and RegisterSend return at once. */
  lemma NothingAfterDisconnect(s: State, i: nat, b: Buffer)
    requires i < |s.threads| && !s.session.connected
    ensures s.threads[i].Idle? ==> Step(s, i, CallSend(b)) == s
    ensures s.threads[i].RCheck? ==>
              Step(s, i, Advance) == s.(threads := s.threads[i := if s.threads[i].nested then PUnlock else Idle])
  {
    assert s.threads[i := s.threads[i]] == s.threads;
  }

  /** A WSASend that fails loses its batch and gives the token back, whichever called it; with a reset it also
      disconnects. */
  lemma FailsAlone(s: State, i: nat, nested: bool, reset: bool)
    requires i < |s.threads| && s.threads[i] == RSubmit(nested)
    ensures var x := s.session;
            Alone(s, i, State(x.(submitted := x.submitted + [x.event], sendFailed := true, event := [], registered := false,
                                 connected := if reset then false else x.connected),
                              s.threads[i := if nested then PUnlock else Idle]))
  {
    AloneStart(s, i);
    assert s == State(s.session, s.threads[i := RSubmit(nested)]) by {
      assert s.threads[i := RSubmit(nested)] == s.threads;
    }
    var x, threads := s.session, s.threads;
    var failed := x.(submitted := x.submitted + [x.event], sendFailed := true, connected := if reset then false else x.connected);
    hide Alone;
    AloneStep(s, x, threads, i, RSubmit(nested), SubmitFail(reset));
    AloneStep(s, failed, threads, i, RFailClear(nested), Advance);
    AloneStep(s, failed.(event := []), threads, i, RFailStore(nested), Advance);
  }

  lemma RunOn(s: State, trace: seq<Event>, mid: State, i: nat, end: State) returns (longer: seq<Event>)
    requires Run(s, trace, mid) && Alone(mid, i, end)
    ensures Run(s, longer, end)
  {
    hide Run;
    var more :| Run(mid, more, end) && ByOne(more, i);
    RunConcat(s, trace, mid, more, end);
    longer := trace + more;
  }

  /** From any initial state two threads can strand a queue: the one comes to WSASend with its buffer loaded,
      the other queues a buffer behind it, and the WSASend fails without a reset. */
  lemma StrandingIsReachable(start: State, i: nat, j: nat)
    requires Init(start) && i < |start.threads| && j < |start.threads| && i != j
    ensures exists trace, end :: Run(start, trace, end) && Stranded(end)
  {
    var threads, x := start.threads, start.session;
    var loaded := State(x.(queue := [], event := [1], pushed := [1], registered := true), threads[i := RSubmit(false)]);
    var behind := State(loaded.session.(queue := [2], pushed := [1, 2]), loaded.threads);
    var failed := behind.session.(submitted := [[1]], sendFailed := true, event := [], registered := false);
    var end := State(failed, threads[i := Idle]);
    assert Stranded(end);
    assert [] + [1] == [1] && [] + [2] == [2] && [1] + [2] == [1, 2] && [] + [[1]] == [[1]];
    assert behind.threads[i := Idle] == end.threads;
    assert Run(start, [], start);
    assert MayCall(start, i) && MayCall(loaded, j);
    hide Run, Alone, Init, Stranded;
    SendLoads(start, i, 1);
    var t1 := RunOn(start, [], start, i, loaded);
    SendQueues(loaded, j, 2);
    var t2 := RunOn(start, t1, loaded, j, behind);
    FailsAlone(behind, i, false, false);
    var t3 := RunOn(start, t2, behind, i, end);
  }
}
