/**
 * ServerCore/SendBuffer.cpp as a state machine: threads that cut send buffers from a thread-local
 * chunk, buffers that keep their chunk alive, and a pool to which a chunk returns when its last
 * reference goes.
 *
 * A chunk's reference count is read off: the thread-local pointers, the locals and the buffers that
 * refer to it.
 */
module SendChunks {
  import opened Options
  import opened Lists

  const CHUNK: nat := 10000 // SEND_BUFFER_CHUNK_SIZE
  const WORD: nat := 0x1_0000_0000

  datatype Chunk = Chunk(open: bool, used: nat)

  /** A SendBuffer: `alloc` bytes of the chunk from `off`, of which `write` were written when it was closed. */
  datatype Buffer = Buffer(chunk: nat, off: nat, alloc: nat, write: nat, closed: bool)

  /** Where a thread is in SendBufferManager::Open, or in giving a chunk back.  `again` marks the second
      time around, with a chunk that replaces a used one. */
  datatype Pc =
    | Idle
    | Pop(size: nat, again: bool)
    | Assign(hand: nat, size: nat, again: bool)
    | ReturnOld(chunk: nat, size: nat, again: bool)
    | ReturnLast(chunk: nat)
    | Reset(size: nat, again: bool)
    | Check(size: nat)
    | Final(size: nat)

  datatype Thread = Thread(tls: Option<nat>, pc: Pc)

  datatype State = State(chunks: seq<Chunk>, pool: seq<nat>, buffers: map<nat, Buffer>, next: nat,
                         threads: seq<Thread>, crashed: bool)

  datatype Action =
    | Open(size: nat)
    | Advance
    | Close(buffer: nat, size: nat)
    | Drop(buffer: nat)
    | Exit

  /** The chunk a thread's local variable refers to, or that it is about to put in the pool. */
  function Hand(pc: Pc): Option<nat> {
    match pc
    case Assign(c, _, _) => Some(c)
    case ReturnOld(c, _, _) => Some(c)
    case ReturnLast(c) => Some(c)
    case _ => None
  }

  predicate Holds(th: Thread, c: nat) {
    th.tls == Some(c) || Hand(th.pc) == Some(c)
  }

  predicate Referenced(buffers: map<nat, Buffer>, threads: seq<Thread>, c: nat) {
    (exists t :: 0 <= t < |threads| && Holds(threads[t], c))
    || (exists b :: b in buffers && buffers[b].chunk == c)
  }

  /** uint32 FreeSize */
  function FreeSize(chunk: Chunk): nat { (CHUNK - chunk.used) % WORD }

  predicate CanAct(s: State, i: nat, a: Action) {
    && i < |s.threads| && !s.crashed
    && match a
       case Open(_) => s.threads[i].pc.Idle?
       case Close(b, _) => s.threads[i].pc.Idle? && b in s.buffers && s.buffers[b].chunk < |s.chunks|
       case Drop(b) => s.threads[i].pc.Idle? && b in s.buffers
       case Exit => s.threads[i].pc.Idle?
       case Advance =>
         var th := s.threads[i];
         !th.pc.Idle? && ((th.pc.Reset? || th.pc.Check? || th.pc.Final?) ==> th.tls.Some? && th.tls.value < |s.chunks|)
  }

  function At(s: State, i: nat, th: Thread): State
    requires i < |s.threads|
  {
    s.(threads := s.threads[i := th])
  }

  /** Leaves the thread with `c` to put in the pool, when no reference to it is left. */
  function Released(s: State, i: nat, c: nat, kept: Pc, returning: Pc): State
    requires i < |s.threads|
  {
    var th := s.threads[i];
    At(s, i, th.(pc := if Referenced(s.buffers, s.threads, c) then kept else returning))
  }

  function Step(s: State, i: nat, a: Action): State
    requires CanAct(s, i, a)
  {
    var th := s.threads[i];
    match a
    case Open(size) => At(s, i, th.(pc := if th.tls.None? then Pop(size, false) else Check(size)))
    case Close(b, size) => CloseStep(s, b, size)
    case Drop(b) =>
      Released(s.(buffers := s.buffers - {b}), i, s.buffers[b].chunk, Idle, ReturnLast(s.buffers[b].chunk))
    case Exit =>
      if th.tls.None? then s
      else Released(At(s, i, th.(tls := None)), i, th.tls.value, Idle, ReturnLast(th.tls.value))
    case Advance => Continue(s, i)
  }

  /** SendBuffer::Close and SendBufferChunk::Close. */
  function CloseStep(s: State, b: nat, size: nat): State
    requires b in s.buffers && s.buffers[b].chunk < |s.chunks|
  {
    var buffer := s.buffers[b];
    var chunk := s.chunks[buffer.chunk];
    if buffer.alloc < size || !chunk.open then s.(crashed := true)
    else s.(buffers := s.buffers[b := buffer.(write := size, closed := true)],
            chunks := s.chunks[buffer.chunk := Chunk(false, (chunk.used + size) % WORD)])
  }

  function Continue(s: State, i: nat): State
    requires CanAct(s, i, Advance)
  {
    var th := s.threads[i];
    match th.pc
    case Idle => s
    case Pop(size, again) =>
      if s.pool != [] then
        At(s.(pool := s.pool[..|s.pool| - 1]), i, th.(pc := Assign(s.pool[|s.pool| - 1], size, again)))
      else At(s.(chunks := s.chunks + [Chunk(false, 0)]), i, th.(pc := Assign(|s.chunks|, size, again)))
    case Assign(hand, size, again) =>
      var taken := At(s, i, Thread(Some(hand), Reset(size, again)));
      if th.tls.None? then taken
      else Released(taken, i, th.tls.value, Reset(size, again), ReturnOld(th.tls.value, size, again))
    case ReturnOld(c, size, again) => At(s.(pool := s.pool + [c]), i, th.(pc := Reset(size, again)))
    case ReturnLast(c) => At(s.(pool := s.pool + [c]), i, th.(pc := Idle))
    case Reset(size, again) =>
      At(s.(chunks := s.chunks[th.tls.value := Chunk(false, 0)]), i, th.(pc := if again then Final(size) else Check(size)))
    case Check(size) =>
      if s.chunks[th.tls.value].open then s.(crashed := true)
      else At(s, i, th.(pc := if FreeSize(s.chunks[th.tls.value]) < size then Pop(size, true) else Final(size)))
    case Final(size) => OpenChunk(s, i, th.tls.value, size)
  }

  /** SendBufferChunk::Open */
  function OpenChunk(s: State, i: nat, c: nat, size: nat): State
    requires i < |s.threads| && c < |s.chunks|
  {
    var chunk := s.chunks[c];
    var done := At(s, i, s.threads[i].(pc := Idle));
    if size > CHUNK || chunk.open then s.(crashed := true)
    else if size > FreeSize(chunk) then done
    else done.(chunks := s.chunks[c := chunk.(open := true)],
               buffers := s.buffers[s.next := Buffer(c, chunk.used, size, 0, false)],
               next := s.next + 1)
  }

  // ---- Where chunks are ---------------------------------------------------------------------

  predicate Known(s: State, c: nat) {
    c < |s.chunks| && c !in s.pool
  }

  /** A chunk is in the pool once, or in one thread's hand, or in one thread's local storage. */
  ghost predicate Places(s: State) {
    && Distinct(s.pool)
    && (forall j :: 0 <= j < |s.pool| ==> s.pool[j] < |s.chunks|)
    && (forall t :: 0 <= t < |s.threads| && s.threads[t].tls.Some? ==> Known(s, s.threads[t].tls.value))
    && (forall t :: 0 <= t < |s.threads| && Hand(s.threads[t].pc).Some? ==> Known(s, Hand(s.threads[t].pc).value))
    && (forall t, u :: 0 <= t < |s.threads| && 0 <= u < |s.threads| && t != u && s.threads[t].tls.Some? ==>
          s.threads[t].tls != s.threads[u].tls)
    && (forall t, u :: 0 <= t < |s.threads| && 0 <= u < |s.threads| && t != u && Hand(s.threads[t].pc).Some? ==>
          Hand(s.threads[t].pc) != Hand(s.threads[u].pc))
    && (forall t, u :: 0 <= t < |s.threads| && 0 <= u < |s.threads| && Hand(s.threads[t].pc).Some? ==>
          Hand(s.threads[t].pc) != s.threads[u].tls)
  }

  /** The thread is about to reset its chunk. */
  predicate WillReset(pc: Pc) { pc.Reset? || pc.ReturnOld? }

  predicate NeedsChunk(pc: Pc) { pc.Reset? || pc.ReturnOld? || pc.Check? || pc.Final? }

  /** No live buffer lies in a chunk that is in the pool, in a hand, or about to be reset. */
  ghost predicate BufferPlaces(s: State) {
    && (forall b :: b in s.buffers ==> b < s.next && Known(s, s.buffers[b].chunk))
    && (forall b, t :: b in s.buffers && 0 <= t < |s.threads| ==> Hand(s.threads[t].pc) != Some(s.buffers[b].chunk))
    && (forall t :: 0 <= t < |s.threads| && NeedsChunk(s.threads[t].pc) ==> s.threads[t].tls.Some?)
    && (forall b, t :: b in s.buffers && 0 <= t < |s.threads| && WillReset(s.threads[t].pc) ==>
          s.threads[t].tls != Some(s.buffers[b].chunk))
  }

  /** Where a live buffer's bytes end: the bytes it may still write until closed, those it wrote after. */
  function End(b: Buffer): nat { b.off + if b.closed then b.write else b.alloc }

  ghost predicate BufferOk(s: State, b: Buffer) {
    && b.chunk < |s.chunks| && b.write <= b.alloc <= CHUNK
    && (b.closed ==> End(b) <= s.chunks[b.chunk].used)
    && (!b.closed ==> s.chunks[b.chunk].open && b.off == s.chunks[b.chunk].used && b.off + b.alloc <= CHUNK)
  }

  predicate Apart(a: Buffer, b: Buffer) {
    a.chunk != b.chunk || ((a.closed || b.closed) && (End(a) <= b.off || End(b) <= a.off))
  }

  /** Live buffers' bytes are disjoint; at most one buffer of a chunk is open. */
  ghost predicate Slices(s: State) {
    && (forall c :: 0 <= c < |s.chunks| ==> s.chunks[c].used <= CHUNK)
    && (forall b :: b in s.buffers ==> BufferOk(s, s.buffers[b]))
    && (forall a, b :: a in s.buffers && b in s.buffers && a != b ==> Apart(s.buffers[a], s.buffers[b]))
  }

  /** Where everything is. */
  ghost predicate Placed(s: State) { Places(s) && BufferPlaces(s) }

  ghost predicate Inv(s: State) { Placed(s) && Slices(s) }

  /** A Close that leaves the bytes of live buffers apart: the first of its buffer, or one an assertion
      catches, or one that comes when no live buffer of the chunk is open, there is room for what it adds
      to the used size, and what the buffer then claims runs into no other. */
  predicate Harmless(s: State, b: nat, size: nat)
    requires b in s.buffers && s.buffers[b].chunk < |s.chunks|
  {
    var x, chunk := s.buffers[b], s.chunks[s.buffers[b].chunk];
    || !x.closed
    || x.alloc < size || !chunk.open
    || (&& chunk.used + size <= CHUNK
        && forall c :: c in s.buffers && c != b && s.buffers[c].chunk == x.chunk ==>
             s.buffers[c].closed && (x.off + size <= s.buffers[c].off || End(s.buffers[c]) <= x.off))
  }

  predicate HarmlessAct(s: State, i: nat, a: Action)
    requires CanAct(s, i, a)
  {
    a.Close? ==> Harmless(s, a.buffer, a.size)
  }

  // ---- Steps keep it ------------------------------------------------------------------------

  predicate Takes(pc: Pc) { pc.Pop? || pc.Assign? }
  predicate Returns(pc: Pc) { pc.ReturnOld? || pc.ReturnLast? }
  predicate Uses(pc: Pc) { pc.Reset? || pc.Check? || pc.Final? }

  lemma UsePlaces(s: State, i: nat, a: Action)
    requires CanAct(s, i, a) && Places(s) && (a.Open? || a.Close?)
    ensures Places(Step(s, i, a))
  {
    hide FreeSize, Referenced;
  }

  lemma DropPlaces(s: State, i: nat, a: Action)
    requires CanAct(s, i, a) && Places(s) && BufferPlaces(s) && a.Drop?
    ensures Places(Step(s, i, a))
  {
    hide FreeSize;
  }

  lemma ExitPlaces(s: State, i: nat, a: Action)
    requires CanAct(s, i, a) && Places(s) && a.Exit?
    ensures Places(Step(s, i, a))
  {
    hide FreeSize;
  }

  lemma PopPlaces(s: State, i: nat, a: Action)
    requires CanAct(s, i, a) && Places(s) && a.Advance? && s.threads[i].pc.Pop?
    ensures Places(Step(s, i, a))
  {
    hide FreeSize, Referenced;
  }

  lemma AssignPlaces(s: State, i: nat, a: Action)
    requires CanAct(s, i, a) && Places(s) && a.Advance? && s.threads[i].pc.Assign?
    ensures Places(Step(s, i, a))
  {
    hide Step;
    AssignSwaps(s, i);
  }

  /** What was in hand is in local storage, and what was in local storage is in hand or let go. */
  lemma AssignSwaps(s: State, i: nat)
    requires CanAct(s, i, Advance) && s.threads[i].pc.Assign?
    ensures var t := Step(s, i, Advance);
            && t.pool == s.pool && t.chunks == s.chunks && |t.threads| == |s.threads|
            && (forall u :: 0 <= u < |s.threads| && u != i ==> t.threads[u] == s.threads[u])
            && t.threads[i].tls == Hand(s.threads[i].pc)
            && (Hand(t.threads[i].pc).None? || Hand(t.threads[i].pc) == s.threads[i].tls)
  {
    hide Referenced;
  }

  lemma ReturningPlaces(s: State, i: nat, a: Action)
    requires CanAct(s, i, a) && Places(s) && a.Advance? && Returns(s.threads[i].pc)
    ensures Places(Step(s, i, a))
  {
    hide FreeSize, Referenced;
  }

  lemma UsingPlaces(s: State, i: nat, a: Action)
    requires CanAct(s, i, a) && Places(s) && a.Advance? && Uses(s.threads[i].pc)
    ensures Places(Step(s, i, a))
  {
    hide Step;
    UsingMovesNothing(s, i);
  }

  lemma UsingMovesNothing(s: State, i: nat)
    requires CanAct(s, i, Advance) && Uses(s.threads[i].pc)
    ensures var t := Step(s, i, Advance);
            && t.pool == s.pool && |t.chunks| == |s.chunks| && |t.threads| == |s.threads|
            && forall u :: 0 <= u < |s.threads| ==>
                 t.threads[u].tls == s.threads[u].tls && Hand(t.threads[u].pc) == Hand(s.threads[u].pc)
  {
    hide FreeSize, Referenced;
  }

  lemma UseBufferPlaces(s: State, i: nat, a: Action)
    requires CanAct(s, i, a) && BufferPlaces(s) && (a.Open? || a.Close?)
    ensures BufferPlaces(Step(s, i, a))
  {
    hide FreeSize, Referenced;
  }

  lemma ReleaseBufferPlaces(s: State, i: nat, a: Action)
    requires CanAct(s, i, a) && BufferPlaces(s) && (a.Drop? || a.Exit?)
    ensures BufferPlaces(Step(s, i, a))
  {
    hide FreeSize;
  }

  lemma TakingBufferPlaces(s: State, i: nat, a: Action)
    requires CanAct(s, i, a) && Places(s) && BufferPlaces(s) && a.Advance? && Takes(s.threads[i].pc)
    ensures BufferPlaces(Step(s, i, a))
  {
    hide FreeSize;
  }

  lemma ReturningBufferPlaces(s: State, i: nat, a: Action)
    requires CanAct(s, i, a) && Places(s) && BufferPlaces(s) && a.Advance? && Returns(s.threads[i].pc)
    ensures BufferPlaces(Step(s, i, a))
  {
    hide FreeSize, Referenced;
  }

  lemma UsingBufferPlaces(s: State, i: nat, a: Action)
    requires CanAct(s, i, a) && Places(s) && BufferPlaces(s) && a.Advance? && Uses(s.threads[i].pc)
    ensures BufferPlaces(Step(s, i, a))
  {
    hide FreeSize, Referenced;
    if s.threads[i].pc.Final? {
      hide Continue;
      FinalBufferPlaces(s, i);
    } else {
      hide OpenChunk;
      var t := Step(s, i, a);
      assert t.buffers == s.buffers && t.pool == s.pool && |t.chunks| == |s.chunks| && t.next == s.next;
    }
  }

  lemma FinalBufferPlaces(s: State, i: nat)
    requires CanAct(s, i, Advance) && Places(s) && BufferPlaces(s) && s.threads[i].pc.Final?
    ensures BufferPlaces(Step(s, i, Advance))
  {
    hide FreeSize, Referenced;
  }

  /** Closing a buffer that was open lets its chunk's used size pass its end, and no more. */
  lemma CloseSlices(s: State, b: nat, size: nat)
    requires Slices(s) && b in s.buffers && !s.buffers[b].closed && s.buffers[b].chunk < |s.chunks|
    ensures Slices(CloseStep(s, b, size))
  {
    var t := CloseStep(s, b, size);
    if s.buffers[b].alloc >= size {
      assert BufferOk(s, s.buffers[b]);
      assert t.chunks[s.buffers[b].chunk] == Chunk(false, s.chunks[s.buffers[b].chunk].used + size);
      forall c | c in t.buffers
        ensures BufferOk(t, t.buffers[c])
      {
        assert BufferOk(s, s.buffers[c]);
        assert c != b ==> Apart(s.buffers[b], s.buffers[c]);
      }
    }
  }

  /** Closing a closed buffer again, when its chunk is open. */
  lemma CloseAgainKeeps(s: State, b: nat, size: nat)
    requires Slices(s) && b in s.buffers && s.buffers[b].closed && s.buffers[b].chunk < |s.chunks|
    requires size <= s.buffers[b].alloc && s.chunks[s.buffers[b].chunk].open && Harmless(s, b, size)
    ensures Slices(CloseStep(s, b, size))
  {
    var t := CloseStep(s, b, size);
    var x := s.buffers[b];
    assert BufferOk(s, x);
    assert t.chunks[x.chunk] == Chunk(false, s.chunks[x.chunk].used + size);
    forall c | c in t.buffers
      ensures BufferOk(t, t.buffers[c])
    {
      assert BufferOk(s, s.buffers[c]);
    }
  }

  lemma CloseAgainNeeds(s: State, b: nat, size: nat)
    requires Slices(s) && b in s.buffers && s.buffers[b].closed && s.buffers[b].chunk < |s.chunks|
    requires size <= s.buffers[b].alloc && s.chunks[s.buffers[b].chunk].open && Slices(CloseStep(s, b, size))
    ensures Harmless(s, b, size)
  {
    var t := CloseStep(s, b, size);
    var x := s.buffers[b];
    assert BufferOk(s, x);
    assert t.chunks[x.chunk] == Chunk(false, s.chunks[x.chunk].used + size);
    forall c | c in s.buffers && c != b && s.buffers[c].chunk == x.chunk
      ensures s.buffers[c].closed && (x.off + size <= s.buffers[c].off || End(s.buffers[c]) <= x.off)
    {
      assert BufferOk(t, t.buffers[c]);
      assert Apart(t.buffers[b], t.buffers[c]);
    }
  }

  /** A Close keeps live buffers' bytes apart if and only if it is harmless. */
  lemma CloseSlicesIff(s: State, b: nat, size: nat)
    requires Slices(s) && b in s.buffers && s.buffers[b].chunk < |s.chunks|
    ensures Slices(CloseStep(s, b, size)) <==> Harmless(s, b, size)
  {
    if !s.buffers[b].closed {
      CloseSlices(s, b, size);
    } else if size <= s.buffers[b].alloc && s.chunks[s.buffers[b].chunk].open {
      if Harmless(s, b, size) {
        CloseAgainKeeps(s, b, size);
      } else if Slices(CloseStep(s, b, size)) {
        CloseAgainNeeds(s, b, size);
      }
    }
  }

  lemma StillSlices(s: State, i: nat, a: Action)
    requires CanAct(s, i, a) && Slices(s)
    requires a.Open? || a.Drop? || a.Exit? || (a.Advance? && (Takes(s.threads[i].pc) || Returns(s.threads[i].pc)))
    ensures Slices(Step(s, i, a))
  {
    var t := Step(s, i, a);
    assert |s.chunks| <= |t.chunks| && forall c :: 0 <= c < |s.chunks| ==> t.chunks[c] == s.chunks[c];
    assert forall b :: b in t.buffers ==> b in s.buffers && t.buffers[b] == s.buffers[b];
    assert forall c :: |s.chunks| <= c < |t.chunks| ==> t.chunks[c].used == 0;
    forall b | b in t.buffers
      ensures BufferOk(t, t.buffers[b])
    {
      assert BufferOk(s, s.buffers[b]);
    }
  }

  lemma UsingSlices(s: State, i: nat, a: Action)
    requires CanAct(s, i, a) && Slices(s) && BufferPlaces(s) && a.Advance? && Uses(s.threads[i].pc)
    ensures Slices(Step(s, i, a))
  {
    hide Referenced, Places;
    var c := s.threads[i].tls.value;
    if s.threads[i].pc.Final? {
      FinalSlices(s, i, c, s.threads[i].pc.size);
    } else {
      assert forall b :: b in s.buffers && s.threads[i].pc.Reset? ==> s.buffers[b].chunk != c;
      var t := Step(s, i, a);
      forall b | b in t.buffers
        ensures BufferOk(t, t.buffers[b])
      {
        assert BufferOk(s, s.buffers[b]);
      }
    }
  }

  lemma FinalSlices(s: State, i: nat, c: nat, size: nat)
    requires i < |s.threads| && c < |s.chunks| && Slices(s) && BufferPlaces(s)
    ensures Slices(OpenChunk(s, i, c, size))
  {
    hide Referenced, Places;
    var t := OpenChunk(s, i, c, size);
    forall b | b in t.buffers
      ensures BufferOk(t, t.buffers[b])
    {
      assert b in s.buffers ==> BufferOk(s, s.buffers[b]);
    }
    forall a, b | a in t.buffers && b in t.buffers && a != b
      ensures Apart(t.buffers[a], t.buffers[b])
    {
      assert a in s.buffers ==> BufferOk(s, s.buffers[a]);
      assert b in s.buffers ==> BufferOk(s, s.buffers[b]);
    }
  }

  /** One step of any thread, whatever callers do, keeps chunks and buffers in their places. */
  lemma {:induction false} StepKeepsPlaces(s: State, i: nat, a: Action)
    requires CanAct(s, i, a) && Placed(s)
    ensures Placed(Step(s, i, a))
  {
    hide Places, BufferPlaces, Step;
    if a.Open? || a.Close? {
      UsePlaces(s, i, a);
      UseBufferPlaces(s, i, a);
    } else if a.Drop? {
      DropPlaces(s, i, a);
      ReleaseBufferPlaces(s, i, a);
    } else if a.Exit? {
      ExitPlaces(s, i, a);
      ReleaseBufferPlaces(s, i, a);
    } else if Uses(s.threads[i].pc) {
      UsingPlaces(s, i, a);
      UsingBufferPlaces(s, i, a);
    } else if s.threads[i].pc.Pop? {
      PopPlaces(s, i, a);
      TakingBufferPlaces(s, i, a);
    } else if s.threads[i].pc.Assign? {
      AssignPlaces(s, i, a);
      TakingBufferPlaces(s, i, a);
    } else {
      ReturningPlaces(s, i, a);
      ReturningBufferPlaces(s, i, a);
    }
  }

  /** And it keeps the bytes of live buffers apart if and only if it is not a harmful Close. */
  lemma {:induction false} StepKeepsSlicesIff(s: State, i: nat, a: Action)
    requires CanAct(s, i, a) && Inv(s)
    ensures Slices(Step(s, i, a)) <==> HarmlessAct(s, i, a)
  {
    hide Places, BufferPlaces, Slices, Step;
    if a.Close? {
      CloseSlicesIff(s, a.buffer, a.size);
      StepIsClose(s, i, a);
    } else if a.Advance? && Uses(s.threads[i].pc) {
      UsingSlices(s, i, a);
    } else {
      StillSlices(s, i, a);
    }
  }

  lemma StepIsClose(s: State, i: nat, a: Action)
    requires CanAct(s, i, a) && a.Close?
    ensures Step(s, i, a) == CloseStep(s, a.buffer, a.size)
  {
  }

  predicate Start(s: State) {
    s.chunks == [] && s.pool == [] && s.buffers == map[] && !s.crashed
    && forall t :: 0 <= t < |s.threads| ==> s.threads[t] == Thread(None, Idle)
  }

  /** A run of steps by any threads in any order. */
  ghost predicate Run(s: State, trace: seq<(nat, Action)>, end: State)
    decreases |trace|
  {
    if trace == [] then end == s
    else
      var (i, a) := trace[0];
      CanAct(s, i, a) && Run(Step(s, i, a), trace[1..], end)
  }

  /** Live buffers' bytes are apart in every state the run goes through. */
  ghost predicate AlwaysApart(s: State, trace: seq<(nat, Action)>)
    decreases |trace|
  {
    Slices(s) &&
    (trace != [] && CanAct(s, trace[0].0, trace[0].1) ==> AlwaysApart(Step(s, trace[0].0, trace[0].1), trace[1..]))
  }

  /** Every Close of the run is harmless; in particular it is when no buffer is closed twice. */
  predicate AllHarmless(s: State, trace: seq<(nat, Action)>)
    decreases |trace|
  {
    trace != [] && CanAct(s, trace[0].0, trace[0].1) ==>
      HarmlessAct(s, trace[0].0, trace[0].1) && AllHarmless(Step(s, trace[0].0, trace[0].1), trace[1..])
  }

  lemma {:induction false} RunKeepsPlaces(s: State, trace: seq<(nat, Action)>, end: State)
    requires Placed(s) && Run(s, trace, end)
    ensures Placed(end)
    decreases |trace|
  {
    hide Placed, Step, CanAct;
    if trace != [] {
      StepKeepsPlaces(s, trace[0].0, trace[0].1);
      RunKeepsPlaces(Step(s, trace[0].0, trace[0].1), trace[1..], end);
    }
  }

  /** Along any run, live buffers' bytes stay apart if and only if every Close in it is harmless. */
  lemma {:induction false} RunIsApartIff(s: State, trace: seq<(nat, Action)>, end: State)
    requires Inv(s) && Run(s, trace, end)
    ensures AlwaysApart(s, trace) <==> AllHarmless(s, trace)
    ensures AllHarmless(s, trace) ==> Inv(end)
    decreases |trace|
  {
    hide Placed, Slices, Step, CanAct, HarmlessAct;
    if trace != [] {
      var (i, a) := trace[0];
      var next := Step(s, i, a);
      StepKeepsPlaces(s, i, a);
      StepKeepsSlicesIff(s, i, a);
      if Slices(next) {
        RunIsApartIff(next, trace[1..], end);
      }
    }
  }

  /** In every run whose Closes are harmless, the bytes of two live send buffers never overlap, and what a
      closed one holds lies below its chunk's used size. */
  lemma LiveBuffersAreApart(start: State, trace: seq<(nat, Action)>, end: State, a: nat, b: nat)
    requires Start(start) && Run(start, trace, end) && AllHarmless(start, trace) && a in end.buffers && b in end.buffers
    ensures var x, y := end.buffers[a], end.buffers[b];
            && x.chunk < |end.chunks| && End(x) <= CHUNK
            && (x.closed ==> End(x) <= end.chunks[x.chunk].used <= CHUNK)
            && (a != b && x.chunk == y.chunk ==> End(x) <= y.off || End(y) <= x.off)
  {
    hide Placed, Run, AllHarmless, AlwaysApart;
    StartIsInv(start);
    RunIsApartIff(start, trace, end);
    assert BufferOk(end, end.buffers[a]);
    assert a != b ==> Apart(end.buffers[a], end.buffers[b]);
  }

  lemma StartIsInv(s: State)
    requires Start(s)
    ensures Inv(s)
  {
  }

  /** In every run, whatever callers do, a chunk is reset only by the thread that holds it, and only when no
      live buffer refers to it. */
  lemma ResetIsUnshared(start: State, trace: seq<(nat, Action)>, end: State, i: nat)
    requires Start(start) && Run(start, trace, end) && i < |end.threads| && end.threads[i].pc.Reset?
    ensures end.threads[i].tls.Some?
    ensures forall b :: b in end.buffers ==> end.threads[i].tls != Some(end.buffers[b].chunk)
    ensures forall t :: 0 <= t < |end.threads| && t != i ==> end.threads[t].tls != end.threads[i].tls
    ensures end.threads[i].tls.value !in end.pool
  {
    hide Run;
    StartIsInv(start);
    RunKeepsPlaces(start, trace, end);
  }

  // ---- No chunk is lost ---------------------------------------------------------------------

  /** Every chunk ever made is in the pool or still referred to. */
  ghost predicate Tracked(s: State) {
    forall c :: 0 <= c < |s.chunks| ==> c in s.pool || Referenced(s.buffers, s.threads, c)
  }

  lemma StepKeepsTracked(s: State, i: nat, a: Action)
    requires CanAct(s, i, a) && Placed(s) && Tracked(s)
    ensures Tracked(Step(s, i, a))
  {
    hide Placed, Step, Referenced;
    var t := Step(s, i, a);
    forall c: nat | 0 <= c < |t.chunks|
      ensures c in t.pool || Referenced(t.buffers, t.threads, c)
    {
      StaysTracked(s, i, a, c);
    }
  }

  lemma StaysTracked(s: State, i: nat, a: Action, c: nat)
    requires CanAct(s, i, a) && Placed(s) && c < |Step(s, i, a).chunks|
    requires c < |s.chunks| ==> c in s.pool || Referenced(s.buffers, s.threads, c)
    ensures c in Step(s, i, a).pool || Referenced(Step(s, i, a).buffers, Step(s, i, a).threads, c)
  {
    hide Step;
    var after := Step(s, i, a);
    if c < |s.chunks| && c !in s.pool {
      if t :| 0 <= t < |s.threads| && t != i && Holds(s.threads[t], c) {
        OthersStay(s, i, a, t);
        assert Holds(after.threads[t], c);
      } else if b :| b in s.buffers && s.buffers[b].chunk == c && b in after.buffers {
        BufferStays(s, i, a, b);
      } else {
        LastReference(s, i, a, c);
      }
    } else {
      PooledOrNew(s, i, a, c);
    }
  }

  lemma OthersStay(s: State, i: nat, a: Action, t: nat)
    requires CanAct(s, i, a) && t < |s.threads| && t != i
    ensures |Step(s, i, a).threads| == |s.threads| && Step(s, i, a).threads[t] == s.threads[t]
  {
    hide Referenced, FreeSize;
  }

  lemma BufferStays(s: State, i: nat, a: Action, b: nat)
    requires CanAct(s, i, a) && BufferPlaces(s) && b in s.buffers && b in Step(s, i, a).buffers
    ensures Step(s, i, a).buffers[b].chunk == s.buffers[b].chunk
  {
    hide Referenced, FreeSize;
  }

  /** When the acting thread or the buffer it drops held the only reference, the thread takes the chunk
      back to the pool. */
  lemma LastReference(s: State, i: nat, a: Action, c: nat)
    requires CanAct(s, i, a) && Referenced(s.buffers, s.threads, c)
    requires forall t :: 0 <= t < |s.threads| && t != i ==> !Holds(s.threads[t], c)
    requires forall b :: b in s.buffers && s.buffers[b].chunk == c ==> b !in Step(s, i, a).buffers
    ensures Holds(Step(s, i, a).threads[i], c) || c in Step(s, i, a).pool
            || Referenced(Step(s, i, a).buffers, Step(s, i, a).threads, c)
    ensures |Step(s, i, a).threads| == |s.threads|
  {
    hide FreeSize;
  }

  lemma PooledOrNew(s: State, i: nat, a: Action, c: nat)
    requires CanAct(s, i, a) && c < |Step(s, i, a).chunks| && (c >= |s.chunks| || c in s.pool)
    ensures |Step(s, i, a).threads| == |s.threads|
    ensures c in Step(s, i, a).pool || Holds(Step(s, i, a).threads[i], c)
  {
    hide FreeSize, Referenced;
  }

  lemma {:induction false} RunKeepsTracked(s: State, trace: seq<(nat, Action)>, end: State)
    requires Placed(s) && Tracked(s) && Run(s, trace, end)
    ensures Tracked(end)
    decreases |trace|
  {
    hide Placed, Step, CanAct, Tracked;
    if trace != [] {
      StepKeepsPlaces(s, trace[0].0, trace[0].1);
      StepKeepsTracked(s, trace[0].0, trace[0].1);
      RunKeepsTracked(Step(s, trace[0].0, trace[0].1), trace[1..], end);
    }
  }

  /** In every run, whatever callers do, each chunk ever made is either referred to or in the pool exactly
      once, never both. */
  lemma ChunksAreConserved(start: State, trace: seq<(nat, Action)>, end: State, c: nat)
    requires Start(start) && Run(start, trace, end) && c < |end.chunks|
    ensures Referenced(end.buffers, end.threads, c) <==> c !in end.pool
    ensures multiset(end.pool)[c] <= 1
  {
    hide Run;
    StartIsInv(start);
    RunKeepsPlaces(start, trace, end);
    RunKeepsTracked(start, trace, end);
    DistinctCount(end.pool, c);
  }

  // ---- No assertion fires -------------------------------------------------------------------

  /** What MakeSendBuffer does: opens at most a chunk's size, with its last buffer closed, and closes
      each buffer once, within its size. */
  predicate Disciplined(s: State, i: nat, a: Action)
    requires CanAct(s, i, a)
  {
    match a
    case Open(size) =>
      size <= CHUNK
      && (s.threads[i].tls.Some? ==> s.threads[i].tls.value < |s.chunks| && !s.chunks[s.threads[i].tls.value].open)
    case Close(b, size) => !s.buffers[b].closed && size <= s.buffers[b].alloc
    case _ => true
  }

  ghost predicate ReadyThread(s: State, th: Thread) {
    match th.pc
    case Idle => true
    case ReturnLast(_) => true
    case Pop(size, _) => size <= CHUNK
    case Assign(_, size, _) => size <= CHUNK
    case ReturnOld(_, size, _) => size <= CHUNK
    case Reset(size, _) => size <= CHUNK
    case Check(size) => size <= CHUNK && th.tls.Some? && th.tls.value < |s.chunks| && !s.chunks[th.tls.value].open
    case Final(size) =>
      th.tls.Some? && th.tls.value < |s.chunks| && !s.chunks[th.tls.value].open && s.chunks[th.tls.value].used + size <= CHUNK
  }

  ghost predicate Ready(s: State) {
    forall t :: 0 <= t < |s.threads| ==> ReadyThread(s, s.threads[t])
  }

  lemma ActorReady(s: State, i: nat, a: Action)
    requires CanAct(s, i, a) && Inv(s) && ReadyThread(s, s.threads[i]) && Disciplined(s, i, a)
    ensures !Step(s, i, a).crashed
    ensures |Step(s, i, a).threads| == |s.threads| && ReadyThread(Step(s, i, a), Step(s, i, a).threads[i])
  {
    hide Places, BufferPlaces, Referenced;
    if a.Close? {
      assert BufferOk(s, s.buffers[a.buffer]);
    } else if a.Advance? && (s.threads[i].pc.Check? || s.threads[i].pc.Final?) {
      assert s.chunks[s.threads[i].tls.value].used <= CHUNK;
    }
  }

  lemma OtherReady(s: State, i: nat, a: Action, t: nat)
    requires CanAct(s, i, a) && Inv(s) && Disciplined(s, i, a)
    requires t < |s.threads| && t != i && ReadyThread(s, s.threads[t])
    ensures ReadyThread(Step(s, i, a), s.threads[t])
  {
    hide Referenced, FreeSize;
    if a.Close? {
      assert BufferOk(s, s.buffers[a.buffer]);
    }
  }

  /** With that discipline no assertion fires, and nobody disturbs a chunk between another thread's check
      and its use. */
  lemma StepKeepsReady(s: State, i: nat, a: Action)
    requires CanAct(s, i, a) && Inv(s) && Ready(s) && Disciplined(s, i, a)
    ensures Ready(Step(s, i, a)) && !Step(s, i, a).crashed
  {
    hide Inv, Step, ReadyThread;
    ActorReady(s, i, a);
    var after := Step(s, i, a);
    forall t | 0 <= t < |after.threads|
      ensures ReadyThread(after, after.threads[t])
    {
      if t != i {
        OthersStay(s, i, a, t);
        OtherReady(s, i, a, t);
      }
    }
  }

  ghost predicate DisciplinedRun(s: State, trace: seq<(nat, Action)>, end: State)
    decreases |trace|
  {
    if trace == [] then end == s
    else
      var (i, a) := trace[0];
      CanAct(s, i, a) && Disciplined(s, i, a) && DisciplinedRun(Step(s, i, a), trace[1..], end)
  }

  lemma {:induction false} DisciplinedIsReady(s: State, trace: seq<(nat, Action)>, end: State)
    requires Inv(s) && Ready(s) && !s.crashed && DisciplinedRun(s, trace, end)
    ensures Inv(end) && Ready(end) && !end.crashed
    decreases |trace|
  {
    hide Placed, Slices, Step, CanAct, Ready;
    if trace != [] {
      var (i, a) := trace[0];
      StepKeepsPlaces(s, i, a);
      StepKeepsSlicesIff(s, i, a);
      StepKeepsReady(s, i, a);
      DisciplinedIsReady(Step(s, i, a), trace[1..], end);
    }
  }

  /** In every disciplined run nothing crashes, and every Open that reaches its end gets its buffer:
      the bytes asked for, from the chunk's used size on. */
  lemma OpenSucceeds(start: State, trace: seq<(nat, Action)>, end: State, i: nat)
    requires Start(start) && DisciplinedRun(start, trace, end)
    ensures !end.crashed
    ensures i < |end.threads| && end.threads[i].pc.Final? ==>
              CanAct(end, i, Advance) && end.next !in end.buffers
              && var size, c, after := end.threads[i].pc.size, end.threads[i].tls.value, Step(end, i, Advance);
                 !after.crashed && after.buffers == end.buffers[end.next := Buffer(c, end.chunks[c].used, size, 0, false)]
  {
    hide DisciplinedRun, Referenced;
    StartIsInv(start);
    assert Ready(start);
    DisciplinedIsReady(start, trace, end);
    assert i < |end.threads| ==> ReadyThread(end, end.threads[i]);
  }

  // ---- Closing twice ------------------------------------------------------------------------

  /** The bytes two buffers of a chunk both claim. */
  predicate Collide(a: Buffer, b: Buffer) {
    a.chunk == b.chunk && a.off <= b.off < End(a) && b.off < End(b)
  }

  /** A thread is between calls; `b` was closed, and behind it `x` is open in the thread's chunk. */
  predicate OpenBehindClosed(s: State, i: nat, b: nat, x: nat) {
    && i < |s.threads| && !s.crashed && s.threads[i].pc.Idle?
    && b in s.buffers && x in s.buffers && s.buffers[b].closed && !s.buffers[x].closed
    && s.buffers[b].chunk == s.buffers[x].chunk && s.threads[i].tls == Some(s.buffers[x].chunk)
  }

  /** Nothing has failed, and two live buffers claim the same bytes. */
  predicate HasCollision(s: State) {
    !s.crashed && exists a, b :: a in s.buffers && b in s.buffers && a != b && Collide(s.buffers[a], s.buffers[b])
  }

  /** The second Close passes both assertions, and the next buffer the thread opens starts inside the
      buffer that is open. */
  lemma SecondCloseOverlaps(s: State, i: nat, b: nat, x: nat, size: nat)
    requires Inv(s) && OpenBehindClosed(s, i, b, x)
    requires size <= s.buffers[b].alloc && size < s.buffers[x].alloc
    ensures exists end :: Run(s, [(i, Close(b, size)), (i, Open(1)), (i, Advance), (i, Advance)], end) && HasCollision(end)
  {
    ClosesAgain(s, i, b, x, size);
    var c := s.buffers[x].chunk;
    var t1 := Step(s, i, Close(b, size));
    OpensInside(t1, i, c, s.chunks[c].used + size);
    var t2 := Step(t1, i, Open(1));
    var t3 := Step(t2, i, Advance);
    var t4 := Step(t3, i, Advance);
    hide Inv, Step, CanAct;
    FourSteps(s, i, Close(b, size), t1, Open(1), t2, Advance, t3, Advance, t4);
    assert Collide(t4.buffers[x], t4.buffers[s.next]);
  }

  /** Opening one byte in a chunk that is closed and has room. */
  lemma OpensInside(s: State, i: nat, c: nat, used: nat)
    requires i < |s.threads| && !s.crashed && s.threads[i] == Thread(Some(c), Idle)
    requires c < |s.chunks| && s.chunks[c] == Chunk(false, used) && used < CHUNK
    ensures CanAct(s, i, Open(1))
    ensures CanAct(Step(s, i, Open(1)), i, Advance)
    ensures CanAct(Step(Step(s, i, Open(1)), i, Advance), i, Advance)
    ensures var t := Step(Step(Step(s, i, Open(1)), i, Advance), i, Advance);
            !t.crashed && t.buffers == s.buffers[s.next := Buffer(c, used, 1, 0, false)]
  {
    hide Referenced;
    assert FreeSize(s.chunks[c]) == CHUNK - used;
  }

  lemma ClosesAgain(s: State, i: nat, b: nat, x: nat, size: nat)
    requires Inv(s) && OpenBehindClosed(s, i, b, x)
    requires size <= s.buffers[b].alloc && size < s.buffers[x].alloc
    ensures CanAct(s, i, Close(b, size)) && s.next !in s.buffers
    ensures var t, c := Step(s, i, Close(b, size)), s.buffers[x].chunk;
            && !t.crashed && t.threads == s.threads && t.next == s.next && |t.chunks| == |s.chunks| && c < |s.chunks|
            && t.chunks[c] == Chunk(false, s.chunks[c].used + size) && s.chunks[c].used + size < CHUNK
            && x in t.buffers && t.buffers[x] == s.buffers[x] && s.buffers[x].off == s.chunks[c].used
  {
    hide Places, Referenced;
    assert BufferOk(s, s.buffers[x]) && BufferOk(s, s.buffers[b]);
  }

  lemma FourSteps(s: State, i: nat, a1: Action, t1: State, a2: Action, t2: State, a3: Action, t3: State, a4: Action, t4: State)
    requires CanAct(s, i, a1) && t1 == Step(s, i, a1) && CanAct(t1, i, a2) && t2 == Step(t1, i, a2)
    requires CanAct(t2, i, a3) && t3 == Step(t2, i, a3) && CanAct(t3, i, a4) && t4 == Step(t3, i, a4)
    ensures Run(s, [(i, a1), (i, a2), (i, a3), (i, a4)], t4)
  {
    hide Step, CanAct;
    assert [(i, a4)][1..] == [] && Run(t4, [], t4);
    assert Run(t3, [(i, a4)], t4);
    assert [(i, a3), (i, a4)][1..] == [(i, a4)];
    assert Run(t2, [(i, a3), (i, a4)], t4);
    assert [(i, a2), (i, a3), (i, a4)][1..] == [(i, a3), (i, a4)];
    assert Run(t1, [(i, a2), (i, a3), (i, a4)], t4);
    assert [(i, a1), (i, a2), (i, a3), (i, a4)][1..] == [(i, a2), (i, a3), (i, a4)];
  }

  /** Some run leads from `start` to `s`, and live buffers are apart in `s`. */
  ghost predicate Reached(start: State, s: State) {
    Inv(s) && exists trace: seq<(nat, Action)> :: Run(start, trace, s)
  }

  lemma {:induction false} RunConcat(s: State, first: seq<(nat, Action)>, mid: State, second: seq<(nat, Action)>, end: State)
    requires Run(s, first, mid) && Run(mid, second, end)
    ensures Run(s, first + second, end)
    decreases |first|
  {
    hide Step, CanAct;
    if first == [] {
      assert first + second == second;
    } else {
      assert (first + second)[0] == first[0] && (first + second)[1..] == first[1..] + second;
      RunConcat(Step(s, first[0].0, first[0].1), first[1..], mid, second, end);
    }
  }

  lemma ReachedStep(start: State, s: State, i: nat, a: Action)
    requires Reached(start, s) && CanAct(s, i, a) && HarmlessAct(s, i, a)
    ensures Reached(start, Step(s, i, a))
  {
    hide Placed, Slices, Step, HarmlessAct;
    StepKeepsPlaces(s, i, a);
    StepKeepsSlicesIff(s, i, a);
    var trace :| Run(start, trace, s);
    assert [(i, a)][1..] == [] && Run(Step(s, i, a), [], Step(s, i, a));
    assert Run(s, [(i, a)], Step(s, i, a));
    RunConcat(start, trace, s, [(i, a)], Step(s, i, a));
  }

  /** The thread's first buffer, from a chunk of its own. */
  lemma FirstOpen(start: State, i: nat)
    requires Start(start) && i < |start.threads|
    ensures exists s :: Reached(start, s) && !s.crashed && |s.threads| == |start.threads|
                        && s.threads[i] == Thread(Some(0), Idle) && s.chunks == [Chunk(true, 0)]
                        && s.buffers == map[start.next := Buffer(0, 0, 1, 0, false)] && s.next == start.next + 1
  {
    StartIsInv(start);
    assert Run(start, [], start);
    assert start.threads[i] == Thread(None, Idle);
    hide Reached, Referenced;
    var s1 := Step(start, i, Open(1));
    ReachedStep(start, start, i, Open(1));
    var s2 := Step(s1, i, Advance);
    ReachedStep(start, s1, i, Advance);
    assert s2.threads[i] == Thread(None, Assign(0, 1, false)) && s2.chunks == [Chunk(false, 0)];
    var s3 := Step(s2, i, Advance);
    ReachedStep(start, s2, i, Advance);
    assert s3.threads[i] == Thread(Some(0), Reset(1, false)) && s3.chunks == [Chunk(false, 0)];
    FreshToOpen(start, s3, i);
  }

  lemma FreshToOpen(start: State, s: State, i: nat)
    requires Reached(start, s) && !s.crashed && i < |s.threads| && s.threads[i] == Thread(Some(0), Reset(1, false))
    requires s.chunks == [Chunk(false, 0)] && s.buffers == map[]
    ensures exists end :: Reached(start, end) && !end.crashed && |end.threads| == |s.threads|
                          && end.threads[i] == Thread(Some(0), Idle) && end.chunks == [Chunk(true, 0)]
                          && end.buffers == map[s.next := Buffer(0, 0, 1, 0, false)] && end.next == s.next + 1
  {
    hide Reached, Referenced;
    var s1 := Step(s, i, Advance);
    ReachedStep(start, s, i, Advance);
    assert s1.chunks == [Chunk(false, 0)];
    var s2 := Step(s1, i, Advance);
    ReachedStep(start, s1, i, Advance);
    var s3 := Step(s2, i, Advance);
    ReachedStep(start, s2, i, Advance);
    assert s3.chunks == [Chunk(true, 0)];
  }

  /** It is closed, and another opened behind it. */
  lemma SecondOpen(start: State, s: State, i: nat, b: nat)
    requires Reached(start, s) && !s.crashed && i < |s.threads| && s.threads[i] == Thread(Some(0), Idle)
    requires s.chunks == [Chunk(true, 0)] && s.buffers == map[b := Buffer(0, 0, 1, 0, false)] && s.next == b + 1
    ensures exists end, x :: Reached(start, end) && OpenBehindClosed(end, i, b, x)
                             && end.buffers[b].alloc == 1 && end.buffers[x].alloc == 2
  {
    hide Reached, Referenced;
    var s1 := Step(s, i, Close(b, 1));
    ReachedStep(start, s, i, Close(b, 1));
    assert s1.chunks == [Chunk(false, 1)] && s1.buffers == map[b := Buffer(0, 0, 1, 1, true)];
    var s2 := Step(s1, i, Open(2));
    ReachedStep(start, s1, i, Open(2));
    var s3 := Step(s2, i, Advance);
    ReachedStep(start, s2, i, Advance);
    var s4 := Step(s3, i, Advance);
    ReachedStep(start, s3, i, Advance);
    assert OpenBehindClosed(s4, i, b, s.next);
  }

  lemma ReachedCollision(start: State, s: State, i: nat, b: nat, x: nat)
    requires Reached(start, s) && OpenBehindClosed(s, i, b, x) && s.buffers[b].alloc == 1 && s.buffers[x].alloc == 2
    ensures exists trace, end :: Run(start, trace, end) && HasCollision(end)
  {
    SecondCloseOverlaps(s, i, b, x, 1);
    hide Inv, Run, HasCollision, OpenBehindClosed;
    var first :| Run(start, first, s);
    var second := [(i, Close(b, 1)), (i, Open(1)), (i, Advance), (i, Advance)];
    var end :| Run(s, second, end) && HasCollision(end);
    RunConcat(start, first, s, second, end);
  }

  /** From the start, any thread alone can make two live buffers claim the same bytes without any assertion
      failing: open, close, open, close the first again, open. */
  lemma OverlapIsReachable(start: State, i: nat)
    requires Start(start) && i < |start.threads|
    ensures exists trace, end :: Run(start, trace, end) && HasCollision(end)
  {
    FirstOpen(start, i);
    hide HasCollision, Run, Reached, OpenBehindClosed, Start;
    var s :| Reached(start, s) && !s.crashed && |s.threads| == |start.threads|
             && s.threads[i] == Thread(Some(0), Idle) && s.chunks == [Chunk(true, 0)]
             && s.buffers == map[start.next := Buffer(0, 0, 1, 0, false)] && s.next == start.next + 1;
    SecondOpen(start, s, i, start.next);
    var mid, x :| Reached(start, mid) && OpenBehindClosed(mid, i, start.next, x)
                  && mid.buffers[start.next].alloc == 1 && mid.buffers[x].alloc == 2;
    ReachedCollision(start, mid, i, start.next, x);
  }
}
