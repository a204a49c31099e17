/**
 * The re-entrant reader/writer spin lock of ServerCore/Lock.cpp, as a state machine.
 *
 * Every atomic access of the packed word (a load, a compare-exchange, a fetch_add, a fetch_sub, a
 * store) is a step of its own, and so are the read half and the write half of each plain
 * `_writeCount++` and `--_writeCount`.  Threads call the lock through the guards of Lock.h, so the
 * holds of one thread form a stack.
 */
module RwLock {
  import opened Options

  const FIELD: int := 0x1_0000
  const WORD: int := 0x1_0000_0000
  const EMPTY_FLAG: int := 0

  // [owner thread id : 16][reader count : 16], and uint32/uint16 wrap-around.
  function OwnerOf(word: int): int { word / FIELD }
  function ReadersOf(word: int): int { word % FIELD }
  function Desired(id: int): int { id % FIELD * FIELD }
  function Add32(word: int, delta: int): int { (word + delta) % WORD }
  function Add16(count: int, delta: int): int { (count + delta) % FIELD }

  datatype Mode = Read | Write
  datatype Crash = WriteTimeOut | ReadTimeOut | InvalidUnlockOrder | MultipleUnlock

  /** Where a thread is: between two atomic accesses of one of the four operations, or outside. */
  datatype Pc =
    | Idle
    | WLoad | WCas | WIncLoad | WIncStore(count: int)
    | ULoad | UDecLoad | UDecStore(count: int) | UStore
    | RLoad | RAdd | RSpinLoad | RSpinCas(expected: int)
    | RSub

  /** `held` is the stack of live guards: a guard enters when its lock call has taken effect and
      leaves when its unlock call has. */
  datatype Thread = Thread(id: int, held: seq<Mode>, pc: Pc)
  datatype State = State(flag: int, writeCount: int, threads: seq<Thread>, crash: Option<Crash>)
  datatype Action = CallWriteLock | CallReadLock | CallUnlock | Advance | TimeOut

  predicate Enabled(s: State, i: nat, a: Action) {
    s.crash.None? && i < |s.threads| &&
    match a
    case CallWriteLock => s.threads[i].pc.Idle?
    case CallReadLock => s.threads[i].pc.Idle?
    case CallUnlock => s.threads[i].pc.Idle? && s.threads[i].held != []
    case Advance => !s.threads[i].pc.Idle?
    case TimeOut => s.threads[i].pc.WCas? || s.threads[i].pc.RSpinLoad?
  }

  function Goto(s: State, i: nat, pc: Pc): State
    requires i < |s.threads|
  {
    s.(threads := s.threads[i := s.threads[i].(pc := pc)])
  }

  function Acquire(s: State, i: nat, mode: Mode): State
    requires i < |s.threads|
  {
    s.(threads := s.threads[i := s.threads[i].(held := s.threads[i].held + [mode], pc := Idle)])
  }

  function Release(s: State, i: nat): State
    requires i < |s.threads|
  {
    s.(threads := s.threads[i := s.threads[i].(held := Popped(s.threads[i].held), pc := Idle)])
  }

  function Popped(held: seq<Mode>): seq<Mode> {
    if held == [] then [] else held[..|held| - 1]
  }

  function Step(s: State, i: nat, a: Action): State
    requires Enabled(s, i, a)
  {
    match a
    case CallWriteLock => Goto(s, i, WLoad)
    case CallReadLock => Goto(s, i, RLoad)
    case CallUnlock => Goto(s, i, if Top(s.threads[i].held) == Write then ULoad else RSub)
    case TimeOut => s.(crash := Some(if s.threads[i].pc.WCas? then WriteTimeOut else ReadTimeOut))
    case Advance => Access(s, i)
  }

  function Top(held: seq<Mode>): Mode
    requires held != []
  {
    held[|held| - 1]
  }

  /** One memory access of the operation thread `i` is in. */
  function Access(s: State, i: nat): State
    requires i < |s.threads|
  {
    var t := s.threads[i];
    match t.pc
    case Idle => s
    // WriteLock
    case WLoad => Goto(s, i, if t.id == OwnerOf(s.flag) then WIncLoad else WCas)
    case WCas => if s.flag == EMPTY_FLAG then Goto(s, i, WIncLoad).(flag := Desired(t.id)) else s
    case WIncLoad => Goto(s, i, WIncStore(s.writeCount))
    case WIncStore(count) => Acquire(s, i, Write).(writeCount := Add16(count, 1))
    // WriteUnlock
    case ULoad => if ReadersOf(s.flag) != 0 then s.(crash := Some(InvalidUnlockOrder)) else Goto(s, i, UDecLoad)
    case UDecLoad => Goto(s, i, UDecStore(s.writeCount))
    case UDecStore(count) =>
      var left := Add16(count, -1);
      (if left == 0 then Goto(s, i, UStore) else Release(s, i)).(writeCount := left)
    case UStore => Release(s, i).(flag := EMPTY_FLAG)
    // ReadLock
    case RLoad => Goto(s, i, if t.id == OwnerOf(s.flag) then RAdd else RSpinLoad)
    case RAdd => Acquire(s, i, Read).(flag := Add32(s.flag, 1))
    case RSpinLoad => Goto(s, i, RSpinCas(ReadersOf(s.flag)))
    case RSpinCas(expected) =>
      if s.flag == expected then Acquire(s, i, Read).(flag := Add32(expected, 1)) else Goto(s, i, RSpinLoad)
    // ReadUnlock
    case RSub =>
      var s' := Release(s, i).(flag := Add32(s.flag, -1));
      if ReadersOf(s.flag) == 0 then s'.(crash := Some(MultipleUnlock)) else s'
  }

  // ---------------------------------------------------------------- counting holds

  function Count(held: seq<Mode>, mode: Mode): nat {
    if held == [] then 0
    else Count(Popped(held), mode) + if Top(held) == mode then 1 else 0
  }

  function Reads(threads: seq<Thread>): nat {
    if threads == [] then 0 else Reads(threads[1..]) + Count(threads[0].held, Read)
  }

  lemma CountPush(held: seq<Mode>, m: Mode, mode: Mode)
    ensures Count(held + [m], mode) == Count(held, mode) + if m == mode then 1 else 0
  {
    assert (held + [m])[..|held|] == held;
  }

  lemma {:induction false} CountZero(held: seq<Mode>, mode: Mode)
    ensures Count(held, mode) == 0 <==> mode !in held
  {
    if held != [] {
      CountZero(held[..|held| - 1], mode);
      assert held == held[..|held| - 1] + [Top(held)];
    }
  }

  lemma {:induction false} CountBoth(held: seq<Mode>)
    ensures Count(held, Read) + Count(held, Write) == |held|
  {
    if held != [] {
      CountBoth(held[..|held| - 1]);
    }
  }

  lemma {:induction false} ReadsUpdate(threads: seq<Thread>, i: nat, t: Thread)
    requires i < |threads|
    ensures Reads(threads[i := t]) == Reads(threads) - Count(threads[i].held, Read) + Count(t.held, Read)
  {
    if i == 0 {
      assert threads[i := t][1..] == threads[1..];
    } else {
      assert threads[i := t][1..] == threads[1..][i - 1 := t];
      ReadsUpdate(threads[1..], i - 1, t);
    }
  }

  lemma {:induction false} ReadsAtLeast(threads: seq<Thread>, i: nat)
    requires i < |threads|
    ensures Count(threads[i].held, Read) <= Reads(threads)
  {
    if i > 0 {
      ReadsAtLeast(threads[1..], i - 1);
    }
  }

  lemma {:induction false} ReadsOnlyAt(threads: seq<Thread>, i: nat)
    requires i < |threads|
    requires forall j :: 0 <= j < |threads| && j != i ==> threads[j].held == []
    ensures Reads(threads) == Count(threads[i].held, Read)
  {
    if i == 0 {
      if |threads| > 1 {
        assert forall j :: 0 <= j < |threads[1..]| ==> threads[1..][j] == threads[j + 1];
        ReadsOnlyAt(threads[1..], 0);
      }
    } else {
      assert threads[0].held == [];
      assert forall j :: 0 <= j < |threads[1..]| ==> threads[1..][j] == threads[j + 1];
      ReadsOnlyAt(threads[1..], i - 1);
    }
  }

  // ---------------------------------------------------------------- the invariant

  /** Distinct ids that fit the owner field; 0 is excluded because it is the empty field. */
  predicate ValidIds(threads: seq<Thread>) {
    && (forall i :: 0 <= i < |threads| ==> 1 <= threads[i].id < FIELD)
    && (forall i, j :: 0 <= i < j < |threads| ==> threads[i].id != threads[j].id)
  }

  /** The counters of the source do not overflow: fewer than 65536 simultaneous read holds, and
      write depth below 65536.  It speaks of true holds, not of the word. */
  predicate Bounded(s: State) {
    && Reads(s.threads) < FIELD
    && (forall i :: 0 <= i < |s.threads| ==> Count(s.threads[i].held, Write) < FIELD)
  }

  /** The thread is the writer, or has just become it. */
  predicate Owning(t: Thread) {
    Write in t.held || t.pc.WIncLoad? || t.pc.WIncStore?
  }

  predicate PcOk(s: State, t: Thread) {
    match t.pc
    case WIncStore(count) => count == s.writeCount
    case ULoad => t.held != [] && Top(t.held) == Write
    case UDecLoad => t.held != [] && Read !in t.held
    case UDecStore(count) => t.held != [] && Read !in t.held && count == s.writeCount
    case UStore => t.held == [Write]
    case RAdd => Write in t.held
    case RSpinCas(expected) => 0 <= expected < FIELD
    case RSub => t.held != [] && Top(t.held) == Read
    case _ => true
  }

  predicate ThreadOk(s: State, t: Thread) {
    && (Owning(t) ==> OwnerOf(s.flag) == t.id)
    && (Owning(t) ==> s.writeCount == Count(t.held, Write) - if t.pc.UStore? then 1 else 0)
    && (t.held != [] ==> OwnerOf(s.flag) == 0 || OwnerOf(s.flag) == t.id)
    && PcOk(s, t)
  }

  predicate OwnerExists(s: State) {
    exists i :: 0 <= i < |s.threads| && Owning(s.threads[i]) && s.threads[i].id == OwnerOf(s.flag)
  }

  predicate Inv(s: State) {
    && ValidIds(s.threads)
    && 0 <= s.flag < WORD
    && ReadersOf(s.flag) == Reads(s.threads)
    && (OwnerOf(s.flag) == 0 ==> s.writeCount == 0)
    && (OwnerOf(s.flag) != 0 ==> OwnerExists(s))
    && (forall i :: 0 <= i < |s.threads| ==> ThreadOk(s, s.threads[i]))
  }

  predicate Init(s: State) {
    && s.flag == EMPTY_FLAG && s.writeCount == 0 && s.crash.None?
    && ValidIds(s.threads)
    && (forall i :: 0 <= i < |s.threads| ==> s.threads[i].held == [] && s.threads[i].pc.Idle?)
  }

  lemma {:induction false} InitReads(threads: seq<Thread>)
    requires forall i :: 0 <= i < |threads| ==> threads[i].held == []
    ensures Reads(threads) == 0
  {
    if threads != [] {
      assert threads[0].held == [];
      InitReads(threads[1..]);
    }
  }

  /** While someone owns the word, everyone else holds nothing. */
  lemma OthersEmpty(s: State, i: nat)
    requires Inv(s) && i < |s.threads| && Owning(s.threads[i])
    ensures forall j :: 0 <= j < |s.threads| && j != i ==> s.threads[j].held == [] && !Owning(s.threads[j])
    ensures ReadersOf(s.flag) == Count(s.threads[i].held, Read)
    ensures s.flag == s.threads[i].id * FIELD + Count(s.threads[i].held, Read)
  {
    forall j | 0 <= j < |s.threads| && j != i
      ensures s.threads[j].held == [] && !Owning(s.threads[j])
    {
      assert s.threads[j].id != s.threads[i].id;
      assert ThreadOk(s, s.threads[j]) && ThreadOk(s, s.threads[i]);
    }
    ReadsOnlyAt(s.threads, i);
  }

  /** A step by `i` that leaves the word and the count alone keeps what the invariant says of the
      other threads, so only thread `i` needs an argument. */
  lemma LocalStep(s: State, i: nat, t: Thread)
    requires Inv(s) && i < |s.threads|
    requires t.id == s.threads[i].id && t.held == s.threads[i].held
    requires Owning(t) == Owning(s.threads[i])
    requires ThreadOk(s, t)
    ensures Inv(s.(threads := s.threads[i := t]))
  {
    var s' := s.(threads := s.threads[i := t]);
    ReadsUpdate(s.threads, i, t);
    forall j | 0 <= j < |s'.threads| ensures ThreadOk(s', s'.threads[j]) {
      SameWord(s, s', s'.threads[j]);
    }
    hide ThreadOk, Count, Reads;
    if OwnerOf(s.flag) != 0 {
      var k :| 0 <= k < |s.threads| && Owning(s.threads[k]) && s.threads[k].id == OwnerOf(s.flag);
      assert Owning(s'.threads[k]) && s'.threads[k].id == OwnerOf(s'.flag);
    }
  }

  lemma SameWord(s: State, s': State, t: Thread)
    requires s'.flag == s.flag && s'.writeCount == s.writeCount
    ensures ThreadOk(s', t) == ThreadOk(s, t)
  {
  }

  /** A step by `i` that changes the word, the count or its own holds, seen from the others: they
      hold nothing that the new owner field could contradict. */
  predicate Handover(s: State, s': State, i: nat)
    requires i < |s.threads| == |s'.threads|
  {
    && s'.threads == s.threads[i := s'.threads[i]]
    && s'.threads[i].id == s.threads[i].id
    && ThreadOk(s', s'.threads[i])
    && (forall j :: 0 <= j < |s.threads| && j != i ==> ThreadOk(s', s.threads[j]))
  }

  lemma HandoverKeepsInv(s: State, s': State, i: nat)
    requires Inv(s) && i < |s.threads| == |s'.threads|
    requires Handover(s, s', i)
    requires 0 <= s'.flag < WORD
    requires ReadersOf(s'.flag) - ReadersOf(s.flag) == Count(s'.threads[i].held, Read) - Count(s.threads[i].held, Read)
    requires OwnerOf(s'.flag) == 0 ==> s'.writeCount == 0
    requires OwnerOf(s'.flag) != 0 ==> Owning(s'.threads[i]) && s'.threads[i].id == OwnerOf(s'.flag)
    ensures Inv(s')
  {
    ReadsUpdate(s.threads, i, s'.threads[i]);
    assert forall j :: 0 <= j < |s'.threads| ==> ThreadOk(s', s'.threads[j]);
  }

  lemma WriteAcquired(s: State, i: nat)
    requires Inv(s) && i < |s.threads| && s.threads[i].pc.WCas?
    ensures Inv(Access(s, i))
  {
    var s' := Access(s, i);
    if s.flag == EMPTY_FLAG {
      var t := s.threads[i];
      assert OwnerOf(Desired(t.id)) == t.id && ReadersOf(Desired(t.id)) == 0;
      forall j | 0 <= j < |s.threads|
        ensures s.threads[j].held == [] && !Owning(s.threads[j])
      {
        ReadsAtLeast(s.threads, j);
        CountZero(s.threads[j].held, Read);
        assert ThreadOk(s, s.threads[j]);
        assert !Owning(s.threads[j]);
        CountZero(s.threads[j].held, Write);
        CountBoth(s.threads[j].held);
      }
      HandoverKeepsInv(s, s', i);
    }
  }

  lemma WriteCounted(s: State, i: nat)
    requires Inv(s) && i < |s.threads| && s.threads[i].pc.WIncStore? && Bounded(Access(s, i))
    ensures Inv(Access(s, i))
  {
    var s' := Access(s, i);
    var t := s.threads[i];
    assert ThreadOk(s, t);
    OthersEmpty(s, i);
    CountPush(t.held, Write, Write);
    CountPush(t.held, Write, Read);
    assert Count(s'.threads[i].held, Write) < FIELD;
    HandoverKeepsInv(s, s', i);
  }

  lemma WriteReleased(s: State, i: nat)
    requires Inv(s) && i < |s.threads|
    requires s.threads[i].pc.UDecStore? || s.threads[i].pc.UStore?
    requires Bounded(s)
    ensures Inv(Access(s, i))
  {
    var s' := Access(s, i);
    var t := s.threads[i];
    assert ThreadOk(s, t);
    CountZero(t.held, Read);
    CountBoth(t.held);
    assert Top(t.held) == Write;
    CountBoth(Popped(t.held));
    CountZero(Popped(t.held), Write);
    CountZero(t.held, Write);
    OthersEmpty(s, i);
    HandoverKeepsInv(s, s', i);
  }

  lemma OneMoreReader(word: int)
    requires 0 <= word < WORD && ReadersOf(word) + 1 < FIELD
    ensures Add32(word, 1) == word + 1 < WORD
    ensures OwnerOf(word + 1) == OwnerOf(word) && ReadersOf(word + 1) == ReadersOf(word) + 1
  {
  }

  lemma ReadAcquired(s: State, i: nat)
    requires Inv(s) && i < |s.threads| && Bounded(Access(s, i))
    requires s.threads[i].pc.RAdd? || (s.threads[i].pc.RSpinCas? && s.flag == s.threads[i].pc.expected)
    ensures Inv(Access(s, i))
  {
    var s' := Access(s, i);
    var t := s.threads[i];
    CountPush(t.held, Read, Read);
    ReadsUpdate(s.threads, i, s'.threads[i]);
    OneMoreReader(s.flag);
    ReaderFits(s, i);
    hide OwnerOf, ReadersOf, Add32, Count, Reads, Bounded, ThreadOk;
    HandoverKeepsInv(s, s', i);
  }

  lemma ReaderFits(s: State, i: nat)
    requires Inv(s) && i < |s.threads| && ReadersOf(s.flag) + 1 < FIELD
    requires s.threads[i].pc.RAdd? || (s.threads[i].pc.RSpinCas? && s.flag == s.threads[i].pc.expected)
    ensures Handover(s, Access(s, i), i)
    ensures OwnerOf(s.flag) != 0 ==> Write in s.threads[i].held && s.threads[i].id == OwnerOf(s.flag)
  {
    var t := s.threads[i];
    assert ThreadOk(s, t);
    CountPush(t.held, Read, Write);
    OneMoreReader(s.flag);
    if t.pc.RAdd? {
      OthersEmpty(s, i);
    }
    hide OwnerOf, ReadersOf, Count, Reads;
    assert forall j :: 0 <= j < |s.threads| ==> ThreadOk(s, s.threads[j]);
  }

  lemma ReadReleased(s: State, i: nat)
    requires Inv(s) && i < |s.threads| && s.threads[i].pc.RSub?
    ensures Inv(Access(s, i)) && Access(s, i).crash == s.crash
  {
    var s' := Access(s, i);
    var t := s.threads[i];
    assert ThreadOk(s, t);
    ReadsAtLeast(s.threads, i);
    assert Count(t.held, Read) >= 1;
    assert Add32(s.flag, -1) == s.flag - 1;
    OneMoreReader(s.flag - 1);
    CountZero(t.held, Write);
    CountZero(Popped(t.held), Write);
    if Owning(t) {
      OthersEmpty(s, i);
    }
    HandoverKeepsInv(s, s', i);
  }

  /** The remaining accesses only move the thread on. */
  lemma OtherAccess(s: State, i: nat)
    requires Inv(s) && i < |s.threads|
    requires s.threads[i].pc.WLoad? || s.threads[i].pc.WIncLoad? || s.threads[i].pc.ULoad? || s.threads[i].pc.UDecLoad?
          || s.threads[i].pc.RLoad? || s.threads[i].pc.RSpinLoad?
          || (s.threads[i].pc.RSpinCas? && s.flag != s.threads[i].pc.expected)
    ensures Inv(Access(s, i))
  {
    var s' := Access(s, i);
    OnlyMoves(s, i);
    hide Count, Reads, Access, Owning, OwnerOf, ReadersOf;
    if s'.crash == s.crash {
      LocalStep(s, i, s'.threads[i]);
    } else {
      hide PcOk;
      assert forall j :: 0 <= j < |s'.threads| ==> ThreadOk(s', s'.threads[j]);
    }
  }

  lemma OnlyMoves(s: State, i: nat)
    requires Inv(s) && i < |s.threads|
    requires s.threads[i].pc.WLoad? || s.threads[i].pc.WIncLoad? || s.threads[i].pc.ULoad? || s.threads[i].pc.UDecLoad?
          || s.threads[i].pc.RLoad? || s.threads[i].pc.RSpinLoad?
          || (s.threads[i].pc.RSpinCas? && s.flag != s.threads[i].pc.expected)
    ensures var s' := Access(s, i);
            if s'.crash == s.crash then
              s' == s.(threads := s.threads[i := s'.threads[i]]) && s'.threads[i] == s.threads[i].(pc := s'.threads[i].pc)
              && Owning(s'.threads[i]) == Owning(s.threads[i]) && ThreadOk(s, s'.threads[i])
            else s' == s.(crash := s'.crash)
  {
    var t := s.threads[i];
    assert ThreadOk(s, t);
    if t.id == OwnerOf(s.flag) {
      var k :| 0 <= k < |s.threads| && Owning(s.threads[k]) && s.threads[k].id == OwnerOf(s.flag);
      assert k == i;
    }
    if t.pc.ULoad? {
      OthersEmpty(s, i);
      CountZero(t.held, Read);
    }
  }

  lemma {:induction false} StepKeepsInv(s: State, i: nat, a: Action)
    requires Inv(s) && Bounded(s) && Enabled(s, i, a) && Bounded(Step(s, i, a))
    ensures Inv(Step(s, i, a))
  {
    var t := s.threads[i];
    var s' := Step(s, i, a);
    assert ThreadOk(s, t);
    match a
    case CallWriteLock => LocalStep(s, i, s'.threads[i]);
    case CallReadLock => LocalStep(s, i, s'.threads[i]);
    case CallUnlock => LocalStep(s, i, s'.threads[i]);
    case TimeOut => assert forall j :: 0 <= j < |s'.threads| ==> ThreadOk(s', s'.threads[j]);
    case Advance =>
      match t.pc
      case WCas => WriteAcquired(s, i);
      case WIncStore(_) => WriteCounted(s, i);
      case UDecStore(_) => WriteReleased(s, i);
      case UStore => WriteReleased(s, i);
      case RAdd => ReadAcquired(s, i);
      case RSpinCas(expected) => if s.flag == expected { ReadAcquired(s, i); } else { OtherAccess(s, i); }
      case RSub => ReadReleased(s, i);
      case _ => OtherAccess(s, i);
  }

  // ---------------------------------------------------------------- runs

  datatype Event = Event(thread: nat, action: Action)

  /** `trace` leads from `s` to `end`, within the counter bounds all along. */
  predicate Run(s: State, trace: seq<Event>, end: State)
    decreases |trace|
  {
    Bounded(s) &&
    if trace == [] then end == s
    else
      && Enabled(s, trace[0].thread, trace[0].action)
      && Run(Step(s, trace[0].thread, trace[0].action), trace[1..], end)
  }

  lemma {:induction false} RunKeepsInv(s: State, trace: seq<Event>, end: State)
    requires Inv(s) && Run(s, trace, end)
    ensures Inv(end) && Bounded(end)
    decreases |trace|
  {
    hide Step, Inv, Bounded;
    if trace != [] {
      StepKeepsInv(s, trace[0].thread, trace[0].action);
      RunKeepsInv(Step(s, trace[0].thread, trace[0].action), trace[1..], end);
    }
  }

  lemma {:induction false} RunExtend(s: State, trace: seq<Event>, mid: State, i: nat, a: Action)
    requires Run(s, trace, mid) && Enabled(mid, i, a) && Bounded(Step(mid, i, a))
    ensures Run(s, trace + [Event(i, a)], Step(mid, i, a))
    decreases |trace|
  {
    if trace == [] {
      assert (trace + [Event(i, a)])[1..] == [];
    } else {
      assert (trace + [Event(i, a)])[1..] == trace[1..] + [Event(i, a)];
      RunExtend(Step(s, trace[0].thread, trace[0].action), trace[1..], mid, i, a);
    }
  }

  lemma Reachable(start: State, trace: seq<Event>, end: State)
    requires Init(start) && Run(start, trace, end)
    ensures Inv(end) && Bounded(end)
  {
    InitReads(start.threads);
    RunKeepsInv(start, trace, end);
  }

  /** The id of the thread that owns the lock, 0 if there is none. */
  function OwnerId(threads: seq<Thread>): int {
    if threads == [] then 0
    else if Owning(threads[0]) then threads[0].id
    else OwnerId(threads[1..])
  }

  lemma {:induction false} OwnerIdIs(threads: seq<Thread>)
    ensures (exists i :: 0 <= i < |threads| && Owning(threads[i]) && threads[i].id == OwnerId(threads))
         || (OwnerId(threads) == 0 && forall i :: 0 <= i < |threads| ==> !Owning(threads[i]))
  {
    if threads != [] && !Owning(threads[0]) {
      OwnerIdIs(threads[1..]);
      if exists i :: 0 <= i < |threads[1..]| && Owning(threads[1..][i]) && threads[1..][i].id == OwnerId(threads[1..]) {
        var i :| 0 <= i < |threads[1..]| && Owning(threads[1..][i]) && threads[1..][i].id == OwnerId(threads[1..]);
        assert Owning(threads[i + 1]) && threads[i + 1].id == OwnerId(threads);
      } else {
        forall i | 0 <= i < |threads| ensures !Owning(threads[i]) {
          if i > 0 {
            assert threads[i] == threads[1..][i - 1];
          }
        }
      }
    }
  }

  /** In every interleaving, a thread inside a write section excludes every other thread's read or
      write section. */
  lemma MutualExclusion(start: State, trace: seq<Event>, end: State, i: nat, j: nat)
    requires Init(start) && Run(start, trace, end)
    requires i < |end.threads| && j < |end.threads| && i != j
    ensures Write in end.threads[i].held ==> end.threads[j].held == []
  {
    Reachable(start, trace, end);
    if Write in end.threads[i].held {
      OthersEmpty(end, i);
    }
  }

  /** In every interleaving, the packed word is the true owner above the true number of readers. */
  lemma WordIsTrue(start: State, trace: seq<Event>, end: State)
    requires Init(start) && Run(start, trace, end)
    ensures end.flag == OwnerId(end.threads) * FIELD + Reads(end.threads)
  {
    Reachable(start, trace, end);
    OwnerIdIs(end.threads);
    assert forall i :: 0 <= i < |end.threads| ==> ThreadOk(end, end.threads[i]);
    assert end.flag == OwnerOf(end.flag) * FIELD + ReadersOf(end.flag);
  }

  lemma CounterStep(s: State, i: nat)
    requires Inv(s) && Bounded(s) && Enabled(s, i, Advance) && Bounded(Access(s, i))
    ensures Access(s, i).writeCount != s.writeCount ==> s.threads[i].id == OwnerOf(s.flag)
    ensures s.threads[i].pc.WIncStore? ==> Access(s, i).writeCount == s.writeCount + 1
    ensures s.threads[i].pc.UDecStore? ==> Access(s, i).writeCount == s.writeCount - 1
    ensures s.threads[i].pc.UStore? ==> s.flag == Desired(s.threads[i].id) && s.writeCount == 0
  {
    var t := s.threads[i];
    assert ThreadOk(s, t);
    if t.pc.WIncStore? {
      IncrementFits(s, i);
    } else if t.pc.UDecStore? || t.pc.UStore? {
      DecrementFits(s, i);
    }
  }

  lemma IncrementFits(s: State, i: nat)
    requires i < |s.threads| && ThreadOk(s, s.threads[i]) && s.threads[i].pc.WIncStore? && Bounded(Access(s, i))
    ensures 0 <= s.writeCount < FIELD - 1 && s.threads[i].pc.count == s.writeCount
  {
    var s' := Access(s, i);
    CountPush(s.threads[i].held, Write, Write);
    assert s'.threads[i].held == s.threads[i].held + [Write];
    assert Count(s'.threads[i].held, Write) < FIELD;
  }

  lemma DecrementFits(s: State, i: nat)
    requires Inv(s) && Bounded(s) && i < |s.threads| && (s.threads[i].pc.UDecStore? || s.threads[i].pc.UStore?)
    ensures Owning(s.threads[i])
    ensures s.threads[i].pc.UDecStore? ==> 1 <= s.writeCount < FIELD && s.threads[i].pc.count == s.writeCount
    ensures s.threads[i].pc.UStore? ==> s.flag == Desired(s.threads[i].id) && s.writeCount == 0
  {
    var t := s.threads[i];
    assert ThreadOk(s, t);
    CountZero(t.held, Read);
    CountBoth(t.held);
    assert Top(t.held) == Write;
    OthersEmpty(s, i);
  }

  /** Only the owner is ever between the halves of an update of the plain counter, so no update of it
      is lost and it never wraps; and when the blind store of EMPTY_FLAG is due, the word holds the
      storing thread's id and nothing else. */
  lemma NoUpdateIsLost(start: State, trace: seq<Event>, end: State, i: nat)
    requires Init(start) && Run(start, trace, end) && Enabled(end, i, Advance) && Bounded(Step(end, i, Advance))
    ensures Step(end, i, Advance).writeCount != end.writeCount ==> end.threads[i].id == OwnerOf(end.flag)
    ensures end.threads[i].pc.WIncStore? ==> Step(end, i, Advance).writeCount == end.writeCount + 1
    ensures end.threads[i].pc.UDecStore? ==> Step(end, i, Advance).writeCount == end.writeCount - 1
    ensures end.threads[i].pc.UStore? ==> end.flag == Desired(end.threads[i].id) && end.writeCount == 0
  {
    hide Access, Inv, Bounded, Run;
    Reachable(start, trace, end);
    CounterStep(end, i);
  }

  /** When every guard is gone, the lock is free again. */
  lemma QuiescentIsFree(start: State, trace: seq<Event>, end: State)
    requires Init(start) && Run(start, trace, end)
    requires forall i :: 0 <= i < |end.threads| ==> end.threads[i].held == [] && end.threads[i].pc.Idle?
    ensures end.flag == EMPTY_FLAG && end.writeCount == 0
  {
    Reachable(start, trace, end);
    InitReads(end.threads);
  }

  // ---------------------------------------------------------------- the two CRASH tests

  lemma {:induction false} NoMultipleUnlock(s: State, trace: seq<Event>, end: State)
    requires Inv(s) && s.crash != Some(MultipleUnlock) && Run(s, trace, end)
    ensures end.crash != Some(MultipleUnlock)
    decreases |trace|
  {
    if trace != [] {
      var next := Step(s, trace[0].thread, trace[0].action);
      StepKeepsInv(s, trace[0].thread, trace[0].action);
      if trace[0].action.Advance? && s.threads[trace[0].thread].pc.RSub? {
        ReadReleased(s, trace[0].thread);
      }
      NoMultipleUnlock(next, trace[1..], end);
    }
  }

  /** "Invalid Unlock Order" is reported exactly when the unlocking thread still holds a read guard. */
  lemma InvalidOrderIff(start: State, trace: seq<Event>, end: State, i: nat)
    requires Init(start) && Run(start, trace, end) && Enabled(end, i, Advance)
    ensures Step(end, i, Advance).crash == Some(InvalidUnlockOrder)
       <==> end.threads[i].pc.ULoad? && Read in end.threads[i].held
  {
    Reachable(start, trace, end);
    var t := end.threads[i];
    assert ThreadOk(end, t);
    if t.pc.ULoad? {
      OthersEmpty(end, i);
      CountZero(t.held, Read);
    }
  }

  /** All the ways a step of a run can fail: a thread that waits in one of the two loops times out, or a write
      guard is dropped over a read guard. */
  lemma FailsIff(start: State, trace: seq<Event>, end: State, i: nat, a: Action)
    requires Init(start) && Run(start, trace, end) && Enabled(end, i, a)
    ensures var t, crash := end.threads[i], Step(end, i, a).crash;
            && (crash.Some? <==> a.TimeOut? || (a.Advance? && t.pc.ULoad? && Read in t.held))
            && (a.TimeOut? ==> crash == Some(if t.pc.WCas? then WriteTimeOut else ReadTimeOut) && (t.pc.WCas? || t.pc.RSpinLoad?))
            && (crash.Some? && !a.TimeOut? ==> crash == Some(InvalidUnlockOrder))
  {
    Reachable(start, trace, end);
    hide Inv, Run, Bounded;
    if a.Advance? {
      InvalidOrderIff(start, trace, end, i);
      if end.threads[i].pc.RSub? {
        ReadReleased(end, i);
      }
    }
  }

  /** No thread takes a write guard while it holds a read guard of the same lock. */
  predicate NeverUpgrades(s: State, trace: seq<Event>)
    decreases |trace|
  {
    trace != [] && Enabled(s, trace[0].thread, trace[0].action) ==>
      && (trace[0].action.CallWriteLock? ==> Read !in s.threads[trace[0].thread].held)
      && NeverUpgrades(Step(s, trace[0].thread, trace[0].action), trace[1..])
  }

  predicate ReadsOnTop(t: Thread) {
    && (forall p, q :: 0 <= p < q < |t.held| && t.held[p] == Read ==> t.held[q] == Read)
    && (t.pc.WLoad? || t.pc.WCas? || t.pc.WIncLoad? || t.pc.WIncStore? ==> Read !in t.held)
  }

  predicate AllReadsOnTop(s: State) {
    forall i :: 0 <= i < |s.threads| ==> ReadsOnTop(s.threads[i])
  }

  predicate OnlyTimeOuts(s: State) {
    s.crash in {None, Some(WriteTimeOut), Some(ReadTimeOut)}
  }

  lemma StepKeepsReadsOnTop(s: State, i: nat, a: Action)
    requires Inv(s) && Enabled(s, i, a) && OnlyTimeOuts(s) && AllReadsOnTop(s)
    requires a.CallWriteLock? ==> Read !in s.threads[i].held
    ensures AllReadsOnTop(Step(s, i, a)) && OnlyTimeOuts(Step(s, i, a))
  {
    var t, s' := s.threads[i], Step(s, i, a);
    assert ReadsOnTop(t);
    assert ThreadOk(s, t);
    StepKeepsOwnReadsOnTop(s, i, a);
    OnlyUnlocksTest(s, i, a);
    hide Inv, ThreadOk, ReadsOnTop;
    assert s'.threads == s.threads[i := s'.threads[i]];
  }

  lemma StepKeepsOwnReadsOnTop(s: State, i: nat, a: Action)
    requires Enabled(s, i, a) && ReadsOnTop(s.threads[i])
    requires a.CallWriteLock? ==> Read !in s.threads[i].held
    ensures ReadsOnTop(Step(s, i, a).threads[i])
  {
  }

  lemma OnlyUnlocksTest(s: State, i: nat, a: Action)
    requires Inv(s) && Enabled(s, i, a) && ReadsOnTop(s.threads[i])
    ensures OnlyTimeOuts(Step(s, i, a))
  {
    var t := s.threads[i];
    assert ThreadOk(s, t);
    if t.pc.ULoad? {
      OthersEmpty(s, i);
      CountZero(t.held, Read);
    } else if t.pc.RSub? && a.Advance? {
      ReadReleased(s, i);
    }
  }

  lemma {:induction false} NoCrashFrom(s: State, trace: seq<Event>, end: State)
    requires Inv(s) && OnlyTimeOuts(s) && AllReadsOnTop(s)
    requires Run(s, trace, end) && NeverUpgrades(s, trace)
    ensures OnlyTimeOuts(end)
    decreases |trace|
  {
    hide Step, Inv, Bounded, AllReadsOnTop, OnlyTimeOuts;
    if trace != [] {
      StepKeepsInv(s, trace[0].thread, trace[0].action);
      StepKeepsReadsOnTop(s, trace[0].thread, trace[0].action);
      NoCrashFrom(Step(s, trace[0].thread, trace[0].action), trace[1..], end);
    }
  }

  /** Nested guards never trip either test in a run in which no thread upgrades. */
  lemma GuardsNeverCrash(start: State, trace: seq<Event>, end: State)
    requires Init(start) && Run(start, trace, end) && NeverUpgrades(start, trace)
    ensures OnlyTimeOuts(end)
  {
    InitReads(start.threads);
    NoCrashFrom(start, trace, end);
  }

  /** Thread `i` alone leads from `s` to `end`, within the counter bounds. */
  ghost predicate Solo(s: State, i: nat, end: State) {
    && Inv(end) && Bounded(end)
    && exists trace: seq<Event> :: Run(s, trace, end) && ByOne(trace, i)
  }

  predicate ByOne(trace: seq<Event>, i: nat) {
    forall k :: 0 <= k < |trace| ==> trace[k].thread == i
  }

  lemma SoloStart(s: State, i: nat)
    requires Inv(s) && Bounded(s)
    ensures Solo(s, i, s)
  {
    assert Run(s, [], s) && ByOne([], i);
  }

  /** The holds of thread `i` change by one guard at most, and stay countable. */
  predicate Fits(s: State, i: nat, s': State)
    requires i < |s.threads|
  {
    && |s'.threads| == |s.threads|
    && var held, held' := s.threads[i].held, s'.threads[i].held;
       && held' in {held, held + [Write], held + [Read], Popped(held)}
       && (held' == held + [Write] ==> Count(held', Write) < FIELD)
       && (held' == held + [Read] ==> Reads(s.threads) + 1 < FIELD)
  }

  lemma SoloStep(s: State, i: nat, mid: State, a: Action)
    requires Solo(s, i, mid) && Enabled(mid, i, a)
    requires Fits(mid, i, Step(mid, i, a))
    ensures Solo(s, i, Step(mid, i, a))
  {
    hide Step, Run, Inv, Bounded, Count, Reads;
    var trace :| Run(s, trace, mid) && ByOne(trace, i);
    var next, longer := Step(mid, i, a), trace + [Event(i, a)];
    StepTouchesOne(mid, i, a);
    StaysBounded(mid, i, next);
    RunExtend(s, trace, mid, i, a);
    StepKeepsInv(mid, i, a);
    assert Run(s, longer, next) && ByOne(longer, i);
  }

  lemma StepTouchesOne(s: State, i: nat, a: Action)
    requires Enabled(s, i, a)
    ensures var s' := Step(s, i, a); |s'.threads| == |s.threads| && s'.threads == s.threads[i := s'.threads[i]]
  {
  }

  lemma StaysBounded(s: State, i: nat, s': State)
    requires Bounded(s) && i < |s.threads| == |s'.threads| && s'.threads == s.threads[i := s'.threads[i]]
    requires Fits(s, i, s')
    ensures Bounded(s')
  {
    CountPush(s.threads[i].held, Write, Read);
    CountPush(s.threads[i].held, Read, Read);
    CountPush(s.threads[i].held, Read, Write);
    ReadsUpdate(s.threads, i, s'.threads[i]);
  }

  lemma ReadsKept(s: State, s': State, i: nat)
    requires i < |s.threads| == |s'.threads| && s'.threads == s.threads[i := s'.threads[i]] && s'.threads[i].held == s.threads[i].held
    ensures Reads(s'.threads) == Reads(s.threads)
  {
    ReadsUpdate(s.threads, i, s'.threads[i]);
  }

  // ---------------------------------------------------------------- calls that nobody disturbs

  /** Thread `i` is back from its call with the guards `held`, the word is `flag`, and the other threads are
      as they were. */
  predicate Back(s: State, i: nat, end: State, held: seq<Mode>, flag: int)
    requires i < |s.threads|
  {
    end.crash.None? && end.flag == flag && end.threads == s.threads[i := Thread(s.threads[i].id, held, Idle)]
  }

  /** A thread that may move on alone. */
  predicate Ready(s: State, i: nat) { Inv(s) && Bounded(s) && s.crash.None? && i < |s.threads| }

  lemma WordWithoutOwner(s: State, i: nat)
    requires Inv(s) && i < |s.threads| && OwnerOf(s.flag) == 0
    ensures s.threads[i].id != OwnerOf(s.flag) && ReadersOf(s.flag) == s.flag
  {
  }

  /** A step that only moves the thread on. */
  lemma SoloMove(s: State, i: nat, mid: State, a: Action, pc: Pc)
    requires Solo(s, i, mid) && Enabled(mid, i, a) && Step(mid, i, a) == Goto(mid, i, pc)
    ensures Solo(s, i, Goto(mid, i, pc)) && Reads(Goto(mid, i, pc).threads) == Reads(mid.threads)
  {
    hide Solo, Reads, Count, Step;
    SoloStep(s, i, mid, a);
    ReadsKept(mid, Goto(mid, i, pc), i);
  }

  lemma ExchangeEnters(s: State, i: nat, mid: State)
    requires Solo(s, i, mid) && mid.crash.None? && i < |mid.threads| && mid.threads[i].pc == RSpinCas(mid.flag)
    requires OwnerOf(mid.flag) == 0 && Reads(mid.threads) + 1 < FIELD
    ensures exists end :: Solo(s, i, end) && Back(mid, i, end, mid.threads[i].held + [Read], mid.flag + 1)
  {
    WordWithoutOwner(mid, i);
    OneMoreReader(mid.flag);
    hide Solo, Reads, Count, OwnerOf, ReadersOf, Add32, Popped;
    var end := Step(mid, i, Advance);
    SoloStep(s, i, mid, Advance);
    assert Back(mid, i, end, mid.threads[i].held + [Read], mid.flag + 1);
  }

  /** While nobody owns the word, a thread that asks for a read guard gets it, from wherever in ReadLock it
      is, behind any number of other readers. */
  lemma {:induction false} ReaderEnters(s: State, i: nat)
    requires Ready(s, i) && OwnerOf(s.flag) == 0 && Reads(s.threads) + 1 < FIELD
    requires s.threads[i].pc.Idle? || InReadLock(s.threads[i].pc)
    ensures exists end :: Solo(s, i, end) && Back(s, i, end, s.threads[i].held + [Read], s.flag + 1)
  {
    SoloStart(s, i);
    hide Solo, Inv, Bounded, Reads, OwnerOf, Back;
    ReaderEntersFrom(s, i, s);
  }

  predicate InReadLock(pc: Pc) { pc.RLoad? || pc.RSpinLoad? || pc.RSpinCas? }

  lemma {:induction false} ReaderEntersFrom(s: State, i: nat, mid: State)
    requires Solo(s, i, mid) && mid.crash.None? && i < |mid.threads| && OwnerOf(mid.flag) == 0 && Reads(mid.threads) + 1 < FIELD
    requires mid.threads[i].pc.Idle? || InReadLock(mid.threads[i].pc)
    ensures exists end :: Solo(s, i, end) && Back(mid, i, end, mid.threads[i].held + [Read], mid.flag + 1)
    decreases StepsToRead(mid, i)
  {
    if mid.threads[i].pc == RSpinCas(mid.flag) {
      ExchangeEnters(s, i, mid);
    } else {
      ReaderMoves(s, i, mid);
      var m1 := Goto(mid, i, NextToRead(mid, i));
      hide Solo, Reads, OwnerOf, NextToRead, StepsToRead, InReadLock, Back;
      ReaderEntersFrom(s, i, m1);
      BackBefore(s, i, mid, NextToRead(mid, i), mid.threads[i].held + [Read], mid.flag + 1);
    }
  }

  lemma BackBefore(s: State, i: nat, mid: State, pc: Pc, held: seq<Mode>, flag: int)
    requires i < |mid.threads| && exists end :: Solo(s, i, end) && Back(Goto(mid, i, pc), i, end, held, flag)
    ensures exists end :: Solo(s, i, end) && Back(mid, i, end, held, flag)
  {
    hide Solo;
    var end :| Solo(s, i, end) && Back(Goto(mid, i, pc), i, end, held, flag);
    assert Back(mid, i, end, held, flag);
  }

  function NextToRead(s: State, i: nat): Pc
    requires i < |s.threads|
  {
    match s.threads[i].pc
    case Idle => RLoad
    case RSpinLoad => RSpinCas(s.flag)
    case _ => RSpinLoad
  }

  lemma ReaderMoves(s: State, i: nat, mid: State)
    requires Solo(s, i, mid) && mid.crash.None? && i < |mid.threads| && OwnerOf(mid.flag) == 0
    requires (mid.threads[i].pc.Idle? || InReadLock(mid.threads[i].pc)) && mid.threads[i].pc != RSpinCas(mid.flag)
    ensures var m1 := Goto(mid, i, NextToRead(mid, i));
            Solo(s, i, m1) && Reads(m1.threads) == Reads(mid.threads) && InReadLock(m1.threads[i].pc)
            && StepsToRead(m1, i) < StepsToRead(mid, i)
  {
    WordWithoutOwner(mid, i);
    hide Solo, Reads, Count, OwnerOf, ReadersOf, Add32;
    SoloMove(s, i, mid, if mid.threads[i].pc.Idle? then CallReadLock else Advance, NextToRead(mid, i));
  }

  function StepsToRead(s: State, i: nat): nat
    requires i < |s.threads|
  {
    match s.threads[i].pc
    case Idle => 5
    case RLoad => 4
    case RSpinCas(expected) => if expected == s.flag then 1 else 3
    case RSpinLoad => 2
    case _ => 0
  }

  /** So does the owner of the word. */
  lemma OwnerReads(s: State, i: nat)
    requires Ready(s, i) && s.threads[i].pc.Idle? && OwnerOf(s.flag) == s.threads[i].id && Reads(s.threads) + 1 < FIELD
    ensures exists end :: Solo(s, i, end) && Back(s, i, end, s.threads[i].held + [Read], s.flag + 1)
  {
    SoloStart(s, i);
    OneMoreReader(s.flag);
    hide Solo, Reads, Count, OwnerOf, ReadersOf, Add32, Popped, Inv, Bounded;
    SoloMove(s, i, s, CallReadLock, RLoad);
    var m1 := Goto(s, i, RLoad);
    SoloMove(s, i, m1, Advance, RAdd);
    var m2 := Goto(m1, i, RAdd);
    SoloStep(s, i, m2, Advance);
    assert Back(s, i, Step(m2, i, Advance), s.threads[i].held + [Read], s.flag + 1);
  }

  /** A thread that asks for a write guard of a free lock gets it, from wherever in WriteLock it waits. */
  lemma WriterEnters(s: State, i: nat)
    requires Ready(s, i) && s.flag == EMPTY_FLAG && (s.threads[i].pc.Idle? || s.threads[i].pc.WLoad? || s.threads[i].pc.WCas?)
    ensures exists end :: Solo(s, i, end) && Back(s, i, end, s.threads[i].held + [Write], s.threads[i].id * FIELD)
  {
    SoloStart(s, i);
    FreeWord(s, i);
    var mid := s;
    hide Solo, Reads, Count, OwnerOf, ReadersOf, Popped, Inv, Bounded, Add16, Desired;
    if mid.threads[i].pc.Idle? {
      SoloMove(s, i, mid, CallWriteLock, WLoad);
      mid := Goto(mid, i, WLoad);
    }
    if mid.threads[i].pc.WLoad? {
      SoloMove(s, i, mid, Advance, WCas);
      mid := Goto(mid, i, WCas);
    }
    SoloStep(s, i, mid, Advance);
    CountsUp(s, i, Step(mid, i, Advance), s.threads[i].id * FIELD);
  }

  lemma FreeWord(s: State, i: nat)
    requires Inv(s) && i < |s.threads| && s.flag == EMPTY_FLAG
    ensures s.threads[i].held == [] && s.threads[i].id != OwnerOf(s.flag) && Desired(s.threads[i].id) == s.threads[i].id * FIELD
    ensures Count(s.threads[i].held, Write) == 0
  {
    ReadsAtLeast(s.threads, i);
    CountZero(s.threads[i].held, Read);
    assert ThreadOk(s, s.threads[i]);
    CountZero(s.threads[i].held, Write);
    CountBoth(s.threads[i].held);
  }

  /** The two halves of `_writeCount++`. */
  lemma CountsUp(s: State, i: nat, mid: State, flag: int)
    requires Solo(s, i, mid) && mid.crash.None? && i < |s.threads| && mid.flag == flag
    requires mid.threads == s.threads[i := s.threads[i].(pc := WIncLoad)] && Count(s.threads[i].held, Write) + 1 < FIELD
    ensures exists end :: Solo(s, i, end) && Back(s, i, end, s.threads[i].held + [Write], flag)
  {
    CountPush(s.threads[i].held, Write, Write);
    hide Solo, Reads, Count, Popped, Add16;
    SoloMove(s, i, mid, Advance, WIncStore(mid.writeCount));
    var m1 := Goto(mid, i, WIncStore(mid.writeCount));
    var end := Step(m1, i, Advance);
    assert end.threads[i].held == s.threads[i].held + [Write];
    SoloStep(s, i, m1, Advance);
    assert Back(s, i, end, s.threads[i].held + [Write], flag);
  }

  /** The owner gets another write guard. */
  lemma OwnerWrites(s: State, i: nat)
    requires Ready(s, i) && s.threads[i].pc.Idle? && OwnerOf(s.flag) == s.threads[i].id
    requires Count(s.threads[i].held, Write) + 1 < FIELD
    ensures exists end :: Solo(s, i, end) && Back(s, i, end, s.threads[i].held + [Write], s.flag)
  {
    SoloStart(s, i);
    hide Solo, Reads, Count, OwnerOf, Popped, Inv, Bounded;
    var m1 := Step(s, i, CallWriteLock);
    SoloStep(s, i, s, CallWriteLock);
    SoloStep(s, i, m1, Advance);
    CountsUp(s, i, Step(m1, i, Advance), s.flag);
  }

  /** Dropping a write guard that lies over no read guard takes it off the stack; the word is free after the
      last one and otherwise as it was. */
  lemma WriterLeaves(s: State, i: nat)
    requires Ready(s, i) && s.threads[i].pc.Idle? && s.threads[i].held != [] && Read !in s.threads[i].held
    ensures exists end :: Solo(s, i, end)
                          && Back(s, i, end, Popped(s.threads[i].held), if |s.threads[i].held| == 1 then EMPTY_FLAG else s.flag)
  {
    SoloStart(s, i);
    WriterCounts(s, i);
    hide Solo, Reads, Count, OwnerOf, ReadersOf, Popped, Inv, Bounded;
    var m1 := Step(s, i, CallUnlock);
    SoloStep(s, i, s, CallUnlock);
    var m2 := Step(m1, i, Advance);
    SoloStep(s, i, m1, Advance);
    var m3 := Step(m2, i, Advance);
    SoloStep(s, i, m2, Advance);
    CountsDown(s, i, m3);
  }

  lemma WriterCounts(s: State, i: nat)
    requires Inv(s) && Bounded(s) && i < |s.threads| && s.threads[i].pc.Idle? && s.threads[i].held != [] && Read !in s.threads[i].held
    ensures s.writeCount == |s.threads[i].held| < FIELD && ReadersOf(s.flag) == 0 && Top(s.threads[i].held) == Write
  {
    var t := s.threads[i];
    assert ThreadOk(s, t);
    CountZero(t.held, Read);
    CountBoth(t.held);
    CountZero(t.held, Write);
    OthersEmpty(s, i);
  }

  /** The second half of `--_writeCount`, and the store that may follow. */
  lemma CountsDown(s: State, i: nat, mid: State)
    requires Solo(s, i, mid) && mid.crash.None? && i < |s.threads| && mid.flag == s.flag
    requires mid.threads == s.threads[i := s.threads[i].(pc := UDecStore(|s.threads[i].held|))] && 0 < |s.threads[i].held| < FIELD
    ensures exists end :: Solo(s, i, end)
                          && Back(s, i, end, Popped(s.threads[i].held), if |s.threads[i].held| == 1 then EMPTY_FLAG else s.flag)
  {
    assert Add16(|s.threads[i].held|, -1) == |s.threads[i].held| - 1;
    hide Solo, Reads, Count, Popped, Add16;
    var m1 := Step(mid, i, Advance);
    SoloStep(s, i, mid, Advance);
    if |s.threads[i].held| == 1 {
      SoloStep(s, i, m1, Advance);
      assert Back(s, i, Step(m1, i, Advance), Popped(s.threads[i].held), EMPTY_FLAG);
    } else {
      assert Back(s, i, m1, Popped(s.threads[i].held), s.flag);
    }
  }

  /** Dropping a read guard takes it off the stack and one reader off the word. */
  lemma ReaderLeaves(s: State, i: nat)
    requires Ready(s, i) && s.threads[i].pc.Idle? && s.threads[i].held != [] && Top(s.threads[i].held) == Read
    ensures exists end :: Solo(s, i, end) && Back(s, i, end, Popped(s.threads[i].held), s.flag - 1)
  {
    SoloStart(s, i);
    HasReader(s, i);
    hide Solo, Reads, Count, OwnerOf, ReadersOf, Popped, Inv, Bounded, Add32;
    SoloStep(s, i, s, CallUnlock);
    var m1 := Step(s, i, CallUnlock);
    SoloStep(s, i, m1, Advance);
    assert Back(s, i, Step(m1, i, Advance), Popped(s.threads[i].held), s.flag - 1);
  }

  lemma HasReader(s: State, i: nat)
    requires Inv(s) && i < |s.threads| && s.threads[i].held != [] && Top(s.threads[i].held) == Read
    ensures ReadersOf(s.flag) != 0 && Add32(s.flag, -1) == s.flag - 1
  {
    ReadsAtLeast(s.threads, i);
    assert Count(s.threads[i].held, Read) >= 1;
  }

  /** A thread that asks for a read guard while another thread owns the word can come to time out ... */
  lemma ReaderTimesOut(s: State, i: nat)
    requires Ready(s, i) && s.threads[i].pc.Idle? && OwnerOf(s.flag) != 0 && OwnerOf(s.flag) != s.threads[i].id
    ensures exists end :: Solo(s, i, end) && end.crash == Some(ReadTimeOut)
  {
    SoloStart(s, i);
    hide Solo, Reads, Count, OwnerOf, ReadersOf, Popped, Inv, Bounded;
    SoloMove(s, i, s, CallReadLock, RLoad);
    var m1 := Goto(s, i, RLoad);
    SoloMove(s, i, m1, Advance, RSpinLoad);
    var m2 := Goto(m1, i, RSpinLoad);
    SoloStep(s, i, m2, TimeOut);
    assert Step(m2, i, TimeOut).crash == Some(ReadTimeOut);
  }

  /** ... and so can one that asks for a write guard while it is not free, unless it owns it. */
  lemma WriterTimesOut(s: State, i: nat)
    requires Ready(s, i) && s.threads[i].pc.Idle? && s.flag != EMPTY_FLAG && OwnerOf(s.flag) != s.threads[i].id
    ensures exists end :: Solo(s, i, end) && end.crash == Some(WriteTimeOut)
  {
    SoloStart(s, i);
    hide Solo, Reads, Count, OwnerOf, ReadersOf, Popped, Inv, Bounded;
    SoloMove(s, i, s, CallWriteLock, WLoad);
    var m1 := Goto(s, i, WLoad);
    SoloMove(s, i, m1, Advance, WCas);
    var m2 := Goto(m1, i, WCas);
    SoloStep(s, i, m2, TimeOut);
    assert Step(m2, i, TimeOut).crash == Some(WriteTimeOut);
  }

  /** Step by step: an exchange of ReadLock adds the read guard if and only if the word still is the number
      of readers loaded before, with no owner above it; otherwise the thread loads again. */
  lemma ReadExchangeIff(start: State, trace: seq<Event>, end: State, i: nat)
    requires Init(start) && Run(start, trace, end) && Enabled(end, i, Advance) && end.threads[i].pc.RSpinCas?
    ensures var t, t' := end.threads[i], Step(end, i, Advance).threads[i];
            && (t'.held == t.held + [Read] <==> end.flag == t.pc.expected)
            && (end.flag == t.pc.expected ==> OwnerOf(end.flag) == 0 && t'.pc.Idle?)
            && (end.flag != t.pc.expected ==> t' == t.(pc := RSpinLoad))
  {
    Reachable(start, trace, end);
    assert ThreadOk(end, end.threads[i]);
  }

  /** And an exchange of WriteLock makes the thread the owner, with its guard to be counted, if and only if the
      lock is free; otherwise it changes nothing. */
  lemma WriteExchangeIff(start: State, trace: seq<Event>, end: State, i: nat)
    requires Init(start) && Run(start, trace, end) && Enabled(end, i, Advance) && end.threads[i].pc.WCas?
    ensures Step(end, i, Advance).threads[i].pc.WIncLoad? <==> end.flag == EMPTY_FLAG
    ensures end.flag == EMPTY_FLAG ==> OwnerOf(Step(end, i, Advance).flag) == end.threads[i].id
    ensures end.flag != EMPTY_FLAG ==> Step(end, i, Advance) == end
  {
    Reachable(start, trace, end);
    hide Inv, Run, Bounded;
    assert ValidIds(end.threads) by { IdsAreValid(end); }
  }

  lemma IdsAreValid(s: State)
    requires Inv(s)
    ensures ValidIds(s.threads)
  {
  }

  lemma SoloThen(s: State, i: nat, mid: State, end: State)
    requires Solo(s, i, mid) && Solo(mid, i, end)
    ensures Solo(s, i, end)
  {
    hide Inv, Bounded, Run;
    var first: seq<Event> :| Run(s, first, mid) && ByOne(first, i);
    var second: seq<Event> :| Run(mid, second, end) && ByOne(second, i);
    RunConcat(s, first, mid, second, end);
    assert ByOne(first + second, i);
  }

  lemma RunOn(s: State, trace: seq<Event>, mid: State, i: nat, end: State)
    requires Run(s, trace, mid) && Solo(mid, i, end)
    ensures exists longer :: Run(s, longer, end)
  {
    hide Inv, Bounded, Step;
    var more :| Run(mid, more, end) && ByOne(more, i);
    RunConcat(s, trace, mid, more, end);
  }

  lemma {:induction false} RunConcat(s: State, first: seq<Event>, mid: State, second: seq<Event>, end: State)
    requires Run(s, first, mid) && Run(mid, second, end)
    ensures Run(s, first + second, end)
    decreases |first|
  {
    hide Step, Enabled, Bounded;
    if first == [] {
      assert first + second == second;
    } else {
      assert (first + second)[0] == first[0] && (first + second)[1..] == first[1..] + second;
      RunConcat(Step(s, first[0].thread, first[0].action), first[1..], mid, second, end);
    }
  }

  /** From a free lock any two threads come to read side by side. */
  lemma TwoReaders(start: State, i: nat, j: nat)
    requires Init(start) && i < |start.threads| && j < |start.threads| && i != j
    ensures exists trace, end :: Run(start, trace, end) && end.flag == 2
                                 && end.threads == start.threads[i := Thread(start.threads[i].id, [Read], Idle)]
                                                                [j := Thread(start.threads[j].id, [Read], Idle)]
  {
    InitReads(start.threads);
    assert [] + [Read] == [Read];
    ReaderEnters(start, i);
    var mid :| Solo(start, i, mid) && Back(start, i, mid, [Read], 1);
    OneReads(start, mid, i, j);
    hide *;
    ReaderEnters(mid, j);
    var end :| Solo(mid, j, end) && Back(mid, j, end, [Read], 2);
    var trace: seq<Event> :| Run(start, trace, mid) && ByOne(trace, i);
    RunOn(start, trace, mid, j, end);
  }

  lemma OneReads(start: State, mid: State, i: nat, j: nat)
    requires Init(start) && i < |start.threads| && j < |start.threads| && i != j
    requires Solo(start, i, mid) && Back(start, i, mid, [Read], 1)
    ensures Ready(mid, j) && OwnerOf(mid.flag) == 0 && Reads(mid.threads) + 1 < FIELD
    ensures j < |mid.threads| && mid.threads[j].pc.Idle? && mid.threads[j].held + [Read] == [Read] && mid.flag + 1 == 2
  {
    hide Run;
    InitReads(start.threads);
  }

  // ---------------------------------------------------------------- upgrades

  /** The end of an upgrade: with a write guard on top of a read guard, dropping it crashes. */
  lemma SoloDrop(s: State, i: nat, mid: State)
    requires Solo(s, i, mid) && mid.crash.None? && ReadersOf(mid.flag) != 0
    requires i < |mid.threads| && mid.threads[i].pc.Idle? && mid.threads[i].held != [] && Top(mid.threads[i].held) == Write
    ensures exists end :: Solo(s, i, end) && end.crash == Some(InvalidUnlockOrder)
  {
    hide Solo, Count, Reads;
    SoloStep(s, i, mid, CallUnlock);
    SoloStep(s, i, Step(mid, i, CallUnlock), Advance);
  }

  lemma SoloUpgrade(s: State, i: nat, mid: State)
    requires Solo(s, i, mid) && mid.crash.None?
    requires i < |mid.threads| && mid.threads[i].pc.Idle? && Read in mid.threads[i].held && Write in mid.threads[i].held
    requires Count(mid.threads[i].held, Write) + 1 < FIELD
    ensures exists end :: Solo(s, i, end) && end.crash == Some(InvalidUnlockOrder)
  {
    assert ThreadOk(mid, mid.threads[i]);
    OthersEmpty(mid, i);
    CountZero(mid.threads[i].held, Read);
    OwnerWrites(mid, i);
    hide Inv, Bounded, Run, Count, Reads, OwnerOf;
    var end :| Solo(mid, i, end) && Back(mid, i, end, mid.threads[i].held + [Write], mid.flag);
    SoloThen(s, i, mid, end);
    SoloDrop(s, i, end);
  }

  /** Any upgrade under a write guard crashes: take the write guard again and drop it. */
  lemma UpgradeCrashes(s: State, i: nat)
    requires Inv(s) && Bounded(s) && s.crash.None?
    requires i < |s.threads| && s.threads[i].pc.Idle? && Read in s.threads[i].held && Write in s.threads[i].held
    requires Count(s.threads[i].held, Write) + 1 < FIELD
    ensures exists trace: seq<Event>, end: State ::
              Run(s, trace, end) && ByOne(trace, i) && end.crash == Some(InvalidUnlockOrder)
  {
    SoloStart(s, i);
    hide Run, Inv, Bounded, Count, Reads;
    SoloUpgrade(s, i, s);
  }

  lemma WriterAlone(s: State, i: nat)
    requires Inv(s) && i < |s.threads| && s.threads[i].held == [Write]
    ensures s.threads[i].id == OwnerOf(s.flag) && Reads(s.threads) == 0
  {
    assert ThreadOk(s, s.threads[i]);
    OthersEmpty(s, i);
    CountPush([], Write, Read);
    assert [] + [Write] == [Write];
  }

  lemma WriteReadCounts()
    ensures Count([Write, Read], Write) == 1 && Count([Write, Read], Read) == 1 && Count([Write], Read) == 0
    ensures [Write] + [Read] == [Write, Read]
  {
    CountPush([], Write, Read);
    CountPush([Write], Read, Write);
    CountPush([], Write, Write);
    CountPush([Write], Read, Read);
    assert [] + [Write] == [Write] && [Write] + [Read] == [Write, Read];
  }

  /** Properly nested guards do crash: from a free lock any thread, alone, reaches "Invalid Unlock Order"
      by taking a write guard, a read guard and a write guard and dropping the last. */
  lemma NestedGuardsCrash(start: State, i: nat)
    requires Init(start) && i < |start.threads|
    ensures exists trace: seq<Event>, end: State ::
              Run(start, trace, end) && ByOne(trace, i) && end.crash == Some(InvalidUnlockOrder)
  {
    WriteReadCounts();
    ReadsUnderWrite(start, i);
    hide Inv, Bounded, Count, Reads, Run, Init;
    var under :| Solo(start, i, under) && under.crash.None? && i < |under.threads|
                 && under.threads[i] == Thread(start.threads[i].id, [Write, Read], Idle);
    SoloUpgrade(start, i, under);
  }

  lemma ReadsUnderWrite(start: State, i: nat)
    requires Init(start) && i < |start.threads|
    ensures exists under :: Solo(start, i, under) && under.crash.None? && i < |under.threads|
                            && under.threads[i] == Thread(start.threads[i].id, [Write, Read], Idle)
  {
    InitReads(start.threads);
    WriteReadCounts();
    assert [] + [Write] == [Write];
    WriterEnters(start, i);
    hide Count, Reads, OwnerOf, Run, Init, Step;
    var mid :| Solo(start, i, mid) && Back(start, i, mid, [Write], start.threads[i].id * FIELD);
    WriterAlone(mid, i);
    hide Inv, Bounded;
    OwnerReads(mid, i);
    var under :| Solo(mid, i, under) && Back(mid, i, under, [Write, Read], mid.flag + 1);
    SoloThen(start, i, mid, under);
  }

  /** An upgrade with only read guards never gets the lock: its exchange cannot succeed. */
  lemma UpgradeNeverSucceeds(start: State, trace: seq<Event>, end: State, i: nat)
    requires Init(start) && Run(start, trace, end) && Enabled(end, i, Advance)
    requires end.threads[i].pc.WCas? && Read in end.threads[i].held
    ensures Step(end, i, Advance) == end
  {
    Reachable(start, trace, end);
    CountZero(end.threads[i].held, Read);
    ReadsAtLeast(end.threads, i);
  }

  /** Why ids start at 1: a thread whose id was never assigned (id 0) finds its own id in the empty
      owner field and enters a write section while the word still says the lock is free. */
  lemma UnassignedIdIsNotSeen(s: State, i: nat)
    requires i < |s.threads| && s.flag == EMPTY_FLAG
    requires s.threads[i] == Thread(0, [], WLoad)
    ensures var inside := Access(Access(Access(s, i), i), i);
            inside.threads[i].held == [Write] && inside.flag == EMPTY_FLAG
  {
    var t1 := Access(s, i);
    var t2 := Access(t1, i);
    assert t2.threads[i] == Thread(0, [], WIncStore(s.writeCount));
  }
}
