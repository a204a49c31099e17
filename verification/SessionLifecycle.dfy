/**
 * Connecting and disconnecting sessions, and the service's session table: Session::ProcessConnect,
 * Disconnect and ProcessDisconnect, Service::AddSession and ReleaseSession, as a state machine of any
 * number of threads and sessions.
 *
 * Every way to disconnect a published session (a user's call, a zero-byte receive or send, a socket
 * error) is the same call of Disconnect; DisconnectEx is pending or fails as the environment chooses.
 * A session connects once, and nobody else knows it before OnConnected.
 */
module SessionLifecycle {
  import opened Options

  /** Where a session is in its life, and which thread is taking it further: a record of the past. */
  datatype Stage =
    | New
    | Connecting(thread: nat)
    | Adding(thread: nat)
    | Live
    | Closing(thread: nat)
    | Pending
    | Failed
    | Ending(thread: nat)
    | Over

  /** `_connected`, and how often AddSession, OnDisconnected and ReleaseSession have run for the session. */
  datatype Session = Session(connected: bool, stage: Stage, added: nat, disconnected: nat, released: nat)

  datatype Pc =
    | Idle
    // ProcessConnect, with AddSession inlined
    | Store(k: nat) | AddLock(k: nat) | AddCount(k: nat) | AddInsert(k: nat) | AddUnlock(k: nat) | Publish(k: nat)
    | Published(k: nat)
    // Disconnect, called from OnConnected or RegisterRecv of the connecting thread, or from elsewhere
    | Exchange(k: nat, connecting: bool) | Submit(k: nat, connecting: bool)
    // ProcessDisconnect, with ReleaseSession inlined
    | Notify(k: nat) | DropLock(k: nat) | Erase(k: nat) | DropCount(k: nat) | DropUnlock(k: nat)

  datatype State = State(sessions: seq<Session>, members: set<nat>, count: int, lock: Option<nat>,
                         threads: seq<Pc>, crashed: bool)

  datatype Action =
    | Connect(k: nat)
    | Disconnect(k: nat)
    | Complete(k: nat)
    | SubmitFails
    | Advance

  /** OnConnected has made the session known. */
  predicate Known(stage: Stage) {
    stage.Live? || stage.Closing? || stage.Pending? || stage.Failed? || stage.Ending? || stage.Over?
  }

  predicate CanAct(s: State, i: nat, a: Action) {
    && i < |s.threads| && !s.crashed
    && (s.threads[i].Idle? || s.threads[i].k < |s.sessions|)
    && match a
       case Connect(k) => s.threads[i].Idle? && k < |s.sessions| && s.sessions[k].stage.New?
       case Disconnect(k) => (s.threads[i].Idle? || s.threads[i].Published?) && k < |s.sessions| && Known(s.sessions[k].stage)
                             && (s.threads[i].Published? ==> k == s.threads[i].k)
       case Complete(k) => s.threads[i].Idle? && k < |s.sessions| && s.sessions[k].stage.Pending?
       case SubmitFails => s.threads[i].Submit?
       case Advance =>
         match s.threads[i]
         case Idle => false
         case AddLock(_) => s.lock.None?
         case DropLock(_) => s.lock.None?
         case _ => true
  }

  /** One step of thread `i` at `pc`: the new session record, and the rest of the state. */
  function Set(s: State, i: nat, pc: Pc, k: nat, session: Session): State
    requires i < |s.threads| && k < |s.sessions|
  {
    s.(threads := s.threads[i := pc], sessions := s.sessions[k := session])
  }

  function Back(k: nat, connecting: bool): Pc { if connecting then Published(k) else Idle }

  function Step(s: State, i: nat, a: Action): State
    requires CanAct(s, i, a)
  {
    var pc := s.threads[i];
    match a
    case Connect(k) => Set(s, i, Store(k), k, s.sessions[k].(stage := Connecting(i)))
    case Disconnect(k) => s.(threads := s.threads[i := Exchange(k, pc.Published?)])
    case Complete(k) => Set(s, i, Notify(k), k, s.sessions[k].(stage := Ending(i)))
    case SubmitFails => Set(s, i, Back(pc.k, pc.connecting), pc.k, s.sessions[pc.k].(stage := Failed))
    case Advance => if pc.Idle? then s else Continue(s, i, pc, pc.k, s.sessions[pc.k])
  }

  function Continue(s: State, i: nat, pc: Pc, k: nat, x: Session): State
    requires i < |s.threads| && k < |s.sessions|
  {
    match pc
    case Idle => s
    case Store(_) => Set(s, i, AddLock(k), k, x.(connected := true, stage := Adding(i)))
    case AddLock(_) => Set(s, i, AddCount(k), k, x).(lock := Some(i))
    case AddCount(_) => Set(s, i, AddInsert(k), k, x).(count := s.count + 1)
    case AddInsert(_) => Set(s, i, AddUnlock(k), k, x.(added := x.added + 1)).(members := s.members + {k})
    case AddUnlock(_) => Set(s, i, Publish(k), k, x).(lock := None)
    case Publish(_) => Set(s, i, Published(k), k, x.(stage := Live))
    case Published(_) => Set(s, i, Idle, k, x)
    case Exchange(_, connecting) =>
      if x.connected then Set(s, i, Submit(k, connecting), k, x.(connected := false, stage := Closing(i)))
      else Set(s, i, Back(k, connecting), k, x)
    case Submit(_, connecting) => Set(s, i, Back(k, connecting), k, x.(stage := Pending))
    case Notify(_) => Set(s, i, DropLock(k), k, x.(disconnected := x.disconnected + 1))
    case DropLock(_) => Set(s, i, Erase(k), k, x).(lock := Some(i))
    case Erase(_) =>
      if k !in s.members then s.(crashed := true)
      else Set(s, i, DropCount(k), k, x.(stage := Over, released := x.released + 1)).(members := s.members - {k})
    case DropCount(_) => Set(s, i, DropUnlock(k), k, x).(count := s.count - 1)
    case DropUnlock(_) => Set(s, i, Idle, k, x).(lock := None)
  }

  // ---- The invariant ------------------------------------------------------------------------

  predicate HoldsLock(pc: Pc) {
    pc.AddCount? || pc.AddInsert? || pc.AddUnlock? || pc.Erase? || pc.DropCount? || pc.DropUnlock?
  }

  /** What being at `pc` says of the session's stage. */
  predicate PcOk(s: State, i: nat)
    requires i < |s.threads|
  {
    var pc := s.threads[i];
    pc.Idle? ||
    (pc.k < |s.sessions| &&
     var stage := s.sessions[pc.k].stage;
     match pc
     case Idle => true
     case Store(_) => stage == Connecting(i)
     case AddLock(_) => stage == Adding(i)
     case AddCount(_) => stage == Adding(i)
     case AddInsert(_) => stage == Adding(i)
     case AddUnlock(_) => stage == Adding(i)
     case Publish(_) => stage == Adding(i)
     case Published(_) => Known(stage)
     case Exchange(_, _) => Known(stage)
     case Submit(_, _) => stage == Closing(i)
     case Notify(_) => stage == Ending(i)
     case DropLock(_) => stage == Ending(i)
     case Erase(_) => stage == Ending(i)
     case DropCount(_) => stage == Over
     case DropUnlock(_) => stage == Over)
  }

  predicate Adds(pc: Pc) { pc.AddLock? || pc.AddCount? || pc.AddInsert? || pc.AddUnlock? || pc.Publish? }

  predicate Ends(pc: Pc) { pc.Notify? || pc.DropLock? || pc.Erase? }

  /** What the session's stage says of everything else. */
  predicate SessionOk(s: State, k: nat)
    requires k < |s.sessions|
  {
    var x := s.sessions[k];
    && (x.connected <==> x.stage.Adding? || x.stage.Live?)
    && (k in s.members <==> x.added == 1 && x.released == 0)
    && match x.stage
       case New => x.added == 0 && x.disconnected == 0 && x.released == 0
       case Connecting(t) =>
         t < |s.threads| && s.threads[t] == Store(k) && x.added == 0 && x.disconnected == 0 && x.released == 0
       case Adding(t) =>
         t < |s.threads| && Adds(s.threads[t]) && s.threads[t].k == k && x.disconnected == 0 && x.released == 0
         && x.added == (if s.threads[t].AddUnlock? || s.threads[t].Publish? then 1 else 0)
       case Live => x.added == 1 && x.disconnected == 0 && x.released == 0
       case Closing(t) =>
         t < |s.threads| && s.threads[t].Submit? && s.threads[t].k == k
         && x.added == 1 && x.disconnected == 0 && x.released == 0
       case Pending => x.added == 1 && x.disconnected == 0 && x.released == 0
       case Failed => x.added == 1 && x.disconnected == 0 && x.released == 0
       case Ending(t) =>
         t < |s.threads| && Ends(s.threads[t]) && s.threads[t].k == k && x.added == 1 && x.released == 0
         && x.disconnected == (if s.threads[t].Notify? then 0 else 1)
       case Over => x.added == 1 && x.disconnected == 1 && x.released == 1
  }

  /** The count runs ahead of the table only inside the lock. */
  predicate CountOk(s: State) {
    && (forall t :: 0 <= t < |s.threads| && HoldsLock(s.threads[t]) ==> s.lock == Some(t))
    && match s.lock
       case None => s.count == |s.members|
       case Some(t) =>
         t < |s.threads| && HoldsLock(s.threads[t])
         && s.count == |s.members| + (if s.threads[t].AddInsert? || s.threads[t].DropCount? then 1 else 0)
  }

  ghost predicate Inv(s: State) {
    && !s.crashed && CountOk(s)
    && (forall k :: k in s.members ==> k < |s.sessions|)
    && (forall t :: 0 <= t < |s.threads| ==> PcOk(s, t))
    && (forall k :: 0 <= k < |s.sessions| ==> SessionOk(s, k))
  }

  lemma ThreadsStay(s: State, i: nat, a: Action, t: nat)
    requires CanAct(s, i, a) && Inv(s) && t < |s.threads|
    ensures |Step(s, i, a).threads| == |s.threads| && PcOk(Step(s, i, a), t)
  {
    hide CountOk;
    assert PcOk(s, t) && PcOk(s, i);
    if !s.threads[i].Idle? {
      assert SessionOk(s, s.threads[i].k);
    }
  }

  lemma SessionsStay(s: State, i: nat, a: Action, k: nat)
    requires CanAct(s, i, a) && Inv(s) && k < |s.sessions|
    ensures |Step(s, i, a).sessions| == |s.sessions| && SessionOk(Step(s, i, a), k)
  {
    if a.Advance? && s.threads[i].k == k {
      ActingSessionStays(s, i, k);
    } else {
      OtherSessionStays(s, i, a, k);
    }
  }

  lemma ActingSessionStays(s: State, i: nat, k: nat)
    requires CanAct(s, i, Advance) && Inv(s) && k < |s.sessions| && s.threads[i].k == k
    ensures |Step(s, i, Advance).sessions| == |s.sessions| && SessionOk(Step(s, i, Advance), k)
  {
    hide CountOk;
    assert SessionOk(s, k) && PcOk(s, i);
  }

  lemma OtherSessionStays(s: State, i: nat, a: Action, k: nat)
    requires CanAct(s, i, a) && Inv(s) && k < |s.sessions|
    requires a.Advance? ==> s.threads[i].k != k
    ensures |Step(s, i, a).sessions| == |s.sessions| && SessionOk(Step(s, i, a), k)
  {
    if a.Advance? {
      BystanderStays(s, i, k);
    } else {
      CalledSessionStays(s, i, a, k);
    }
  }

  lemma CalledSessionStays(s: State, i: nat, a: Action, k: nat)
    requires CanAct(s, i, a) && Inv(s) && k < |s.sessions| && !a.Advance?
    ensures |Step(s, i, a).sessions| == |s.sessions| && SessionOk(Step(s, i, a), k)
  {
    hide CountOk, Continue;
    assert SessionOk(s, k) && PcOk(s, i);
  }

  lemma BystanderStays(s: State, i: nat, k: nat)
    requires CanAct(s, i, Advance) && Inv(s) && k < |s.sessions| && s.threads[i].k != k
    ensures |Step(s, i, Advance).sessions| == |s.sessions| && SessionOk(Step(s, i, Advance), k)
  {
    hide CountOk, PcOk;
    assert SessionOk(s, k);
    var t := Step(s, i, Advance);
    assert t.sessions[k] == s.sessions[k] && (k in t.members <==> k in s.members);
    assert forall u :: 0 <= u < |s.threads| && u != i ==> t.threads[u] == s.threads[u];
    hide Step;
  }

  /** A session is inserted once, and there to be erased. */
  lemma MembersFit(s: State, i: nat)
    requires Inv(s) && i < |s.threads|
    ensures s.threads[i].AddInsert? ==> s.threads[i].k !in s.members
    ensures s.threads[i].Erase? ==> s.threads[i].k in s.members
  {
    assert PcOk(s, i);
    if !s.threads[i].Idle? {
      assert SessionOk(s, s.threads[i].k);
    }
  }

  lemma CountStays(s: State, i: nat, a: Action)
    requires CanAct(s, i, a) && Inv(s)
    ensures CountOk(Step(s, i, a)) && !Step(s, i, a).crashed
  {
    if a.Advance? && UsesTable(s.threads[i]) {
      MembersFit(s, i);
      CountInLock(s, i);
    } else {
      CountOutside(s, i, a);
    }
  }

  /** In AddSession or ReleaseSession. */
  predicate UsesTable(pc: Pc) { HoldsLock(pc) || pc.AddLock? || pc.DropLock? }

  lemma CountInLock(s: State, i: nat)
    requires CanAct(s, i, Advance) && CountOk(s) && UsesTable(s.threads[i])
    requires s.threads[i].AddInsert? ==> s.threads[i].k !in s.members
    requires s.threads[i].Erase? ==> s.threads[i].k in s.members
    ensures CountOk(Step(s, i, Advance)) && !Step(s, i, Advance).crashed
  {
  }

  lemma CountOutside(s: State, i: nat, a: Action)
    requires CanAct(s, i, a) && CountOk(s) && !(a.Advance? && UsesTable(s.threads[i]))
    ensures CountOk(Step(s, i, a)) && !Step(s, i, a).crashed
  {
    hide Known;
    var t := Step(s, i, a);
    assert t.lock == s.lock && t.members == s.members && t.count == s.count;
    assert !HoldsLock(s.threads[i]) && !HoldsLock(t.threads[i]);
  }

  lemma MembersStay(s: State, i: nat, a: Action)
    requires CanAct(s, i, a) && Inv(s)
    ensures forall k :: k in Step(s, i, a).members ==> k < |Step(s, i, a).sessions|
  {
    hide SessionOk, PcOk, Known, CountOk;
  }

  lemma StepKeepsInv(s: State, i: nat, a: Action)
    requires CanAct(s, i, a) && Inv(s)
    ensures Inv(Step(s, i, a))
  {
    hide SessionOk, CountOk, PcOk, Step;
    CountStays(s, i, a);
    MembersStay(s, i, a);
    SameShape(s, i, a);
    forall t | 0 <= t < |s.threads|
      ensures PcOk(Step(s, i, a), t)
    {
      ThreadsStay(s, i, a, t);
    }
    forall k | 0 <= k < |s.sessions|
      ensures SessionOk(Step(s, i, a), k)
    {
      SessionsStay(s, i, a, k);
    }
  }

  lemma SameShape(s: State, i: nat, a: Action)
    requires CanAct(s, i, a)
    ensures |Step(s, i, a).threads| == |s.threads| && |Step(s, i, a).sessions| == |s.sessions|
  {
  }

  predicate Start(s: State) {
    && s.members == {} && s.count == 0 && s.lock.None? && !s.crashed
    && (forall k :: 0 <= k < |s.sessions| ==> s.sessions[k] == Session(false, New, 0, 0, 0))
    && (forall t :: 0 <= t < |s.threads| ==> s.threads[t] == Idle)
  }

  ghost predicate Run(s: State, trace: seq<(nat, Action)>, end: State)
    decreases |trace|
  {
    if trace == [] then end == s
    else CanAct(s, trace[0].0, trace[0].1) && Run(Step(s, trace[0].0, trace[0].1), trace[1..], end)
  }

  lemma {:induction false} RunKeepsInv(s: State, trace: seq<(nat, Action)>, end: State)
    requires Inv(s) && Run(s, trace, end)
    ensures Inv(end)
    decreases |trace|
  {
    hide Inv, Step, CanAct;
    if trace != [] {
      StepKeepsInv(s, trace[0].0, trace[0].1);
      RunKeepsInv(Step(s, trace[0].0, trace[0].1), trace[1..], end);
    }
  }

  lemma StartIsInv(s: State)
    requires Start(s)
    ensures Inv(s)
  {
  }

  /** In every run, AddSession, OnDisconnected and ReleaseSession each run at most once for a session, in
      that order; the erase assertion never fails; and the table holds the session from the one to the
      other. */
  lemma OnceAndInOrder(start: State, trace: seq<(nat, Action)>, end: State, k: nat)
    requires Start(start) && Run(start, trace, end) && k < |end.sessions|
    ensures !end.crashed
    ensures end.sessions[k].released <= end.sessions[k].disconnected <= end.sessions[k].added <= 1
    ensures k in end.members <==> end.sessions[k].added == 1 && end.sessions[k].released == 0
  {
    hide Run, CountOk, PcOk;
    StartIsInv(start);
    RunKeepsInv(start, trace, end);
    assert SessionOk(end, k);
  }

  /** In every run, whenever the service's lock is free the count is the number of sessions in the table. */
  lemma CountIsTrue(start: State, trace: seq<(nat, Action)>, end: State)
    requires Start(start) && Run(start, trace, end) && end.lock.None?
    ensures end.count == |end.members|
  {
    hide Run, SessionOk, PcOk;
    StartIsInv(start);
    RunKeepsInv(start, trace, end);
  }

  /** When no thread is in a call and no DisconnectEx is outstanding, a session that has begun to connect
      is connected and in the table, or was disconnected and is out of it, or its DisconnectEx was refused. */
  lemma SettledSessions(start: State, trace: seq<(nat, Action)>, end: State, k: nat)
    requires Start(start) && Run(start, trace, end) && k < |end.sessions|
    requires forall t :: 0 <= t < |end.threads| ==> end.threads[t] == Idle
    requires !end.sessions[k].stage.New? && !end.sessions[k].stage.Pending?
    ensures end.sessions[k].connected <==> end.sessions[k].stage.Live?
    ensures k !in end.members <==> end.sessions[k].disconnected == 1
    ensures k in end.members && !end.sessions[k].connected <==> end.sessions[k].stage.Failed?
  {
    hide Run, CountOk;
    StartIsInv(start);
    RunKeepsInv(start, trace, end);
    assert SessionOk(end, k);
  }

  /** A session whose DisconnectEx was refused stays in the table for good, disconnected but never
      reported. */
  lemma {:induction false} RefusedStays(s: State, trace: seq<(nat, Action)>, end: State, k: nat)
    requires Inv(s) && k < |s.sessions| && s.sessions[k].stage.Failed? && Run(s, trace, end)
    ensures k < |end.sessions| && end.sessions[k].stage.Failed?
    ensures k in end.members && !end.sessions[k].connected && end.sessions[k].disconnected == 0
    decreases |trace|
  {
    hide SessionOk, CountOk, PcOk, Step, CanAct;
    if trace == [] {
      assert SessionOk(s, k);
      FailedIsMember(s, k);
    } else {
      StepKeepsInv(s, trace[0].0, trace[0].1);
      FailedStays(s, trace[0].0, trace[0].1, k);
      RefusedStays(Step(s, trace[0].0, trace[0].1), trace[1..], end, k);
    }
  }

  lemma FailedIsMember(s: State, k: nat)
    requires k < |s.sessions| && SessionOk(s, k) && s.sessions[k].stage.Failed?
    ensures k in s.members && !s.sessions[k].connected && s.sessions[k].disconnected == 0
  {
  }

  lemma FailedStays(s: State, i: nat, a: Action, k: nat)
    requires CanAct(s, i, a) && Inv(s) && k < |s.sessions| && s.sessions[k].stage.Failed?
    ensures |Step(s, i, a).sessions| == |s.sessions| && Step(s, i, a).sessions[k].stage.Failed?
  {
    hide CountOk;
    assert SessionOk(s, k) && PcOk(s, i);
  }

  // ---- Calls that nobody disturbs -----------------------------------------------------------

  /** Thread `i` alone leads from `s` to `end`. */
  ghost predicate Alone(s: State, i: nat, end: State) {
    exists trace :: Run(s, trace, end) && ByOne(trace, i)
  }

  predicate ByOne(trace: seq<(nat, Action)>, i: nat) {
    forall k :: 0 <= k < |trace| ==> trace[k].0 == i
  }

  lemma {:induction false} RunConcat(s: State, first: seq<(nat, Action)>, mid: State, second: seq<(nat, Action)>, end: State)
    requires Run(s, first, mid) && Run(mid, second, end)
    ensures Run(s, first + second, end)
    decreases |first|
  {
    hide Step, CanAct;
    if first == [] {
      assert first + second == second;
    } else {
      assert (first + second)[0] == first[0] && (first + second)[1..] == first[1..] + second;
      RunConcat(Step(s, first[0].0, first[0].1), first[1..], mid, second, end);
    }
  }

  lemma AloneStart(s: State, i: nat)
    ensures Alone(s, i, s)
  {
    assert Run(s, [], s) && ByOne([], i);
  }

  lemma AloneThen(s: State, i: nat, mid: State, end: State)
    requires Alone(s, i, mid) && Alone(mid, i, end)
    ensures Alone(s, i, end)
  {
    hide Run;
    var first :| Run(s, first, mid) && ByOne(first, i);
    var second :| Run(mid, second, end) && ByOne(second, i);
    RunConcat(s, first, mid, second, end);
    assert ByOne(first + second, i);
  }

  /** One more step, which makes `next` of the state. */
  lemma AloneStep(s: State, i: nat, mid: State, a: Action, next: State)
    requires Alone(s, i, mid) && CanAct(mid, i, a) && Step(mid, i, a) == next
    ensures Alone(s, i, next)
  {
    hide Step;
    var one := [(i, a)];
    assert one[1..] == [] && Run(next, [], next);
    assert Run(mid, one, next) && ByOne(one, i);
    hide Run;
    AloneThen(s, i, mid, next);
  }

  /** `s` with thread `i` at `pc` and session `k` as `x`. */
  function With(s: State, i: nat, pc: Pc, k: nat, x: Session): State
    requires i < |s.threads| && k < |s.sessions|
  {
    s.(threads := s.threads[i := pc], sessions := s.sessions[k := x])
  }

  /** A thread between calls, and a session. */
  predicate MayCall(s: State, i: nat, k: nat) {
    !s.crashed && i < |s.threads| && s.threads[i].Idle? && k < |s.sessions|
  }

  /** A connection reaches OnConnected with the session in the table, counted once, and returns from it. */
  lemma Connects(s: State, i: nat, k: nat)
    requires MayCall(s, i, k) && s.sessions[k].stage.New? && s.lock.None?
    ensures var x := s.sessions[k].(connected := true, stage := Live, added := s.sessions[k].added + 1);
            && Alone(s, i, With(s, i, Published(k), k, x).(members := s.members + {k}, count := s.count + 1))
            && Alone(s, i, With(s, i, Idle, k, x).(members := s.members + {k}, count := s.count + 1))
  {
    AloneStart(s, i);
    var x := s.sessions[k];
    var adding := x.(connected := true, stage := Adding(i));
    hide Alone;
    var s1 := With(s, i, Store(k), k, x.(stage := Connecting(i)));
    AloneStep(s, i, s, Connect(k), s1);
    var s2 := With(s, i, AddLock(k), k, adding);
    AloneStep(s, i, s1, Advance, s2);
    var s3 := With(s, i, AddCount(k), k, adding).(lock := Some(i));
    AloneStep(s, i, s2, Advance, s3);
    IsAdded(s, i, k, s3, adding);
  }

  lemma IsAdded(s: State, i: nat, k: nat, mid: State, adding: Session)
    requires i < |s.threads| && k < |s.sessions| && !s.crashed && s.lock.None? && Alone(s, i, mid)
    requires mid == With(s, i, AddCount(k), k, adding).(lock := Some(i))
    ensures var x := adding.(stage := Live, added := adding.added + 1);
            && Alone(s, i, With(s, i, Published(k), k, x).(members := s.members + {k}, count := s.count + 1))
            && Alone(s, i, With(s, i, Idle, k, x).(members := s.members + {k}, count := s.count + 1))
  {
    var added := adding.(added := adding.added + 1);
    hide Alone;
    var s1 := With(s, i, AddInsert(k), k, adding).(lock := Some(i), count := s.count + 1);
    AloneStep(s, i, mid, Advance, s1);
    var s2 := With(s, i, AddUnlock(k), k, added).(lock := Some(i), count := s.count + 1, members := s.members + {k});
    AloneStep(s, i, s1, Advance, s2);
    var s3 := With(s, i, Publish(k), k, added).(count := s.count + 1, members := s.members + {k});
    AloneStep(s, i, s2, Advance, s3);
    var s4 := With(s, i, Published(k), k, added.(stage := Live)).(count := s.count + 1, members := s.members + {k});
    AloneStep(s, i, s3, Advance, s4);
    AloneStep(s, i, s4, Advance, With(s, i, Idle, k, s4.sessions[k]).(count := s.count + 1, members := s.members + {k}));
  }

  /** Where Disconnect can be called from: elsewhere, or from OnConnected by the connecting thread. */
  predicate MayDisconnect(s: State, i: nat, k: nat) {
    !s.crashed && i < |s.threads| && k < |s.sessions| && Known(s.sessions[k].stage)
    && s.threads[i] in {Idle, Published(k)}
  }

  /** Disconnecting a connected session gives up the connection and comes to DisconnectEx ... */
  lemma ComesToDisconnectEx(s: State, i: nat, k: nat)
    requires MayDisconnect(s, i, k) && s.sessions[k].connected
    ensures Alone(s, i, With(s, i, Submit(k, s.threads[i].Published?), k, s.sessions[k].(connected := false, stage := Closing(i))))
  {
    AloneStart(s, i);
    var x, connecting := s.sessions[k], s.threads[i].Published?;
    hide Alone;
    var s1 := With(s, i, Exchange(k, connecting), k, x);
    AloneStep(s, i, s, Disconnect(k), s1);
    AloneStep(s, i, s1, Advance, With(s, i, Submit(k, connecting), k, x.(connected := false, stage := Closing(i))));
  }

  /** ... after which, if it is accepted, the session waits for the completion, and if not, for nothing. */
  lemma DisconnectExAnswers(s: State, i: nat, k: nat)
    requires MayDisconnect(s, i, k) && s.sessions[k].connected
    ensures Alone(s, i, With(s, i, s.threads[i], k, s.sessions[k].(connected := false, stage := Pending)))
    ensures Alone(s, i, With(s, i, s.threads[i], k, s.sessions[k].(connected := false, stage := Failed)))
  {
    ComesToDisconnectEx(s, i, k);
    var mid := With(s, i, Submit(k, s.threads[i].Published?), k, s.sessions[k].(connected := false, stage := Closing(i)));
    hide Alone;
    AloneStep(s, i, mid, Advance, With(s, i, s.threads[i], k, s.sessions[k].(connected := false, stage := Pending)));
    AloneStep(s, i, mid, SubmitFails, With(s, i, s.threads[i], k, s.sessions[k].(connected := false, stage := Failed)));
  }

  /** Disconnecting a session that is not connected any more changes nothing. */
  lemma SecondDisconnect(s: State, i: nat, k: nat)
    requires MayDisconnect(s, i, k) && !s.sessions[k].connected
    ensures Step(s, i, Disconnect(k)).threads[i].Exchange? && CanAct(Step(s, i, Disconnect(k)), i, Advance)
    ensures Step(Step(s, i, Disconnect(k)), i, Advance) == s
  {
    var s1 := Step(s, i, Disconnect(k));
    assert s1.threads == s.threads[i := Exchange(k, s.threads[i].Published?)] && s1.sessions == s.sessions;
    assert s.threads[i := Exchange(k, s.threads[i].Published?)][i := s.threads[i]] == s.threads;
    assert s.sessions[k := s.sessions[k]] == s.sessions;
  }

  /** The completion of an accepted DisconnectEx reports the session, takes it out of the table and out of the
      count, each once. */
  lemma CompletionReleases(s: State, i: nat, k: nat)
    requires MayCall(s, i, k) && s.sessions[k].stage.Pending? && s.lock.None? && k in s.members
    ensures var x := s.sessions[k];
            Alone(s, i, With(s, i, Idle, k, x.(stage := Over, disconnected := x.disconnected + 1, released := x.released + 1))
                        .(members := s.members - {k}, count := s.count - 1))
  {
    AloneStart(s, i);
    var x := s.sessions[k];
    var ending := x.(stage := Ending(i), disconnected := x.disconnected + 1);
    hide Alone;
    var s1 := With(s, i, Notify(k), k, x.(stage := Ending(i)));
    AloneStep(s, i, s, Complete(k), s1);
    var s2 := With(s, i, DropLock(k), k, ending);
    AloneStep(s, i, s1, Advance, s2);
    var s3 := With(s, i, Erase(k), k, ending).(lock := Some(i));
    AloneStep(s, i, s2, Advance, s3);
    IsReleased(s, i, k, s3, ending);
  }

  lemma IsReleased(s: State, i: nat, k: nat, mid: State, ending: Session)
    requires i < |s.threads| && k < |s.sessions| && !s.crashed && s.lock.None? && k in s.members && Alone(s, i, mid)
    requires mid == With(s, i, Erase(k), k, ending).(lock := Some(i))
    ensures Alone(s, i, With(s, i, Idle, k, ending.(stage := Over, released := ending.released + 1))
                        .(members := s.members - {k}, count := s.count - 1))
  {
    var x := ending.(stage := Over, released := ending.released + 1);
    hide Alone;
    var s1 := With(s, i, DropCount(k), k, x).(lock := Some(i), members := s.members - {k});
    AloneStep(s, i, mid, Advance, s1);
    var s2 := With(s, i, DropUnlock(k), k, x).(lock := Some(i), members := s.members - {k}, count := s.count - 1);
    AloneStep(s, i, s1, Advance, s2);
    var s3 := With(s, i, Idle, k, x).(members := s.members - {k}, count := s.count - 1);
    AloneStep(s, i, s2, Advance, s3);
  }

  /** Step by step: a session is given up exactly when its DisconnectEx is refused. */
  lemma RefusedIff(s: State, i: nat, a: Action, k: nat)
    requires CanAct(s, i, a) && Inv(s) && k < |s.sessions| && !s.sessions[k].stage.Failed?
    ensures |Step(s, i, a).sessions| == |s.sessions|
    ensures Step(s, i, a).sessions[k].stage.Failed? <==> a.SubmitFails? && s.threads[i].k == k
  {
    hide CountOk, SessionOk;
    assert PcOk(s, i);
  }

  /** From the start any thread can come to such a session: it connects, disconnects from OnConnected, and
      DisconnectEx is refused. */
  lemma RefusalIsReachable(start: State, i: nat, k: nat)
    requires Start(start) && i < |start.threads| && k < |start.sessions|
    ensures exists trace, end :: Run(start, trace, end) && k < |end.sessions| && end.sessions[k].stage.Failed?
  {
    Connects(start, i, k);
    var x := Session(true, Live, 1, 0, 0);
    var live := With(start, i, Published(k), k, x).(members := start.members + {k}, count := start.count + 1);
    var end := With(live, i, live.threads[i], k, x.(connected := false, stage := Failed));
    assert MayDisconnect(live, i, k) && live.sessions[k] == x;
    DisconnectExAnswers(live, i, k);
    assert end.sessions[k].stage.Failed?;
    AloneThen(start, i, live, end);
    var trace :| Run(start, trace, end) && ByOne(trace, i);
  }
}
