/**
 * What SendBufferManager::Open and SendBuffer::Close come to when no other thread gets in between: which
 * chunk serves, where the buffer lies in it, and what becomes of the chunk it replaces.
 */
module SendChunkCalls {
  import opened Options
  import opened SendChunks

  /** Thread `i` alone leads from `s` to `end`. */
  ghost predicate Alone(s: State, i: nat, end: State) {
    exists trace :: Run(s, trace, end) && ByOne(trace, i)
  }

  predicate ByOne(trace: seq<(nat, Action)>, i: nat) {
    forall k :: 0 <= k < |trace| ==> trace[k].0 == i
  }

  lemma AloneStart(s: State, i: nat)
    ensures Alone(s, i, s)
  {
    assert Run(s, [], s) && ByOne([], i);
  }

  lemma AloneStep(s: State, i: nat, mid: State, a: Action)
    requires Alone(s, i, mid) && CanAct(mid, i, a)
    ensures Alone(s, i, Step(mid, i, a))
  {
    hide Step, Run;
    var trace :| Run(s, trace, mid) && ByOne(trace, i);
    OneStep(mid, i, a);
    RunConcat(s, trace, mid, [(i, a)], Step(mid, i, a));
    assert ByOne(trace + [(i, a)], i);
  }

  lemma OneStep(s: State, i: nat, a: Action)
    requires CanAct(s, i, a)
    ensures Run(s, [(i, a)], Step(s, i, a))
  {
    hide Step, CanAct;
    assert [(i, a)][1..] == [] && Run(Step(s, i, a), [], Step(s, i, a));
  }

  /** The chunk SendBufferManager::Pop gives out: the one returned last, or a new one if there is none. */
  function Fetched(s: State): (r: (nat, seq<Chunk>, seq<nat>))
    ensures s.pool != [] ==> r.1 == s.chunks
  {
    if s.pool == [] then (|s.chunks|, s.chunks + [Chunk(false, 0)], [])
    else (s.pool[|s.pool| - 1], s.chunks, s.pool[..|s.pool| - 1])
  }

  /** What an Open leaves: the chunk `c` open, and a buffer of `size` bytes from `off` on. */
  function Opened(s: State, i: nat, c: nat, off: nat, size: nat, chunks: seq<Chunk>, pool: seq<nat>): State
    requires i < |s.threads| && c < |chunks|
  {
    s.(threads := s.threads[i := Thread(Some(c), Idle)], chunks := chunks[c := Chunk(true, off)], pool := pool,
       buffers := s.buffers[s.next := Buffer(c, off, size, 0, false)], next := s.next + 1)
  }

  /** Alone the thread comes to a failed assertion. */
  ghost predicate Fails(s: State, i: nat) { exists end :: Alone(s, i, end) && end.crashed }

  /** The thread's chunk is closed and has room for `size` bytes. */
  predicate HasRoom(s: State, i: nat, size: nat) {
    && i < |s.threads| && s.threads[i].tls.Some? && s.threads[i].tls.value < |s.chunks|
    && var chunk := s.chunks[s.threads[i].tls.value]; !chunk.open && chunk.used + size <= CHUNK
  }

  /** The thread's chunk serves while it has room: the buffer begins where the used bytes end, and nothing
      else changes. */
  lemma OpensInItsChunk(s: State, i: nat, size: nat)
    requires CanAct(s, i, Open(size)) && HasRoom(s, i, size)
    ensures var c := s.threads[i].tls.value;
            Alone(s, i, Opened(s, i, c, s.chunks[c].used, size, s.chunks, s.pool))
  {
    AloneStart(s, i);
    var c := s.threads[i].tls.value;
    assert FreeSize(s.chunks[c]) == CHUNK - s.chunks[c].used;
    hide Alone, Referenced, FreeSize;
    AloneStep(s, i, s, Open(size));
    var s1 := At(s, i, Thread(Some(c), Check(size)));
    assert Step(s, i, Open(size)) == s1;
    AloneStep(s, i, s1, Advance);
    var s2 := At(s, i, Thread(Some(c), Final(size)));
    assert Step(s1, i, Advance) == s2;
    Finishes(s, i, s2, c, size);
  }

  /** SendBufferChunk::Open in a closed chunk with room. */
  lemma Finishes(s: State, i: nat, mid: State, c: nat, size: nat)
    requires Alone(s, i, mid) && !mid.crashed && i < |s.threads| && c < |mid.chunks|
    requires mid.threads == s.threads[i := Thread(Some(c), Final(size))] && mid.buffers == s.buffers && mid.next == s.next
    requires !mid.chunks[c].open && mid.chunks[c].used + size <= CHUNK && !s.crashed
    ensures Alone(s, i, Opened(s, i, c, mid.chunks[c].used, size, mid.chunks, mid.pool))
  {
    assert FreeSize(mid.chunks[c]) == CHUNK - mid.chunks[c].used;
    hide Alone, Referenced, FreeSize;
    AloneStep(s, i, mid, Advance);
    assert mid.chunks[c].(open := true) == Chunk(true, mid.chunks[c].used);
    assert mid.threads[i := Thread(Some(c), Idle)] == s.threads[i := Thread(Some(c), Idle)];
    assert Step(mid, i, Advance) == Opened(s, i, c, mid.chunks[c].used, size, mid.chunks, mid.pool);
  }

  /** Whether the thread that has put another chunk in place of its chunk gives `was` back. */
  predicate LastOf(s: State, was: nat) {
    forall b :: b in s.buffers ==> s.buffers[b].chunk != was
  }

  /** From Pop on: the chunk fetched is reset and put in the thread's place, and the one it replaces goes back to
      the pool if no live buffer keeps it. */
  lemma Replaces(s: State, i: nat, mid: State, size: nat, again: bool)
    requires Placed(s) && Alone(s, i, mid) && i < |s.threads| && s.threads[i].pc.Idle? && !s.crashed && size <= CHUNK
    requires mid == At(s, i, s.threads[i].(pc := Pop(size, again)))
    ensures var (c, chunks, pool) := Fetched(s);
            var back := if s.threads[i].tls.Some? && LastOf(s, s.threads[i].tls.value) then [s.threads[i].tls.value] else [];
            c < |chunks| && Alone(s, i, Opened(s, i, c, 0, size, chunks, pool + back))
  {
    var (c, chunks, pool) := Fetched(s);
    FetchedIsNew(s, i);
    hide Alone, Referenced, Placed, FreeSize;
    AloneStep(s, i, mid, Advance);
    var s1 := s.(chunks := chunks, pool := pool, threads := s.threads[i := Thread(s.threads[i].tls, Assign(c, size, again))]);
    assert Step(mid, i, Advance) == s1;
    PutsInPlace(s, i, s1, c, size, again);
  }

  lemma PutsInPlace(s: State, i: nat, mid: State, c: nat, size: nat, again: bool)
    requires Placed(s) && Alone(s, i, mid) && i < |s.threads| && s.threads[i].pc.Idle? && !s.crashed && size <= CHUNK
    requires c < |mid.chunks| && Some(c) != s.threads[i].tls
    requires mid == s.(chunks := mid.chunks, pool := mid.pool,
                       threads := s.threads[i := Thread(s.threads[i].tls, Assign(c, size, again))])
    ensures var back := if s.threads[i].tls.Some? && LastOf(s, s.threads[i].tls.value) then [s.threads[i].tls.value] else [];
            Alone(s, i, Opened(s, i, c, 0, size, mid.chunks, mid.pool + back))
  {
    var was := s.threads[i].tls;
    var ready := mid.(threads := s.threads[i := Thread(Some(c), Reset(size, again))]);
    if was.Some? {
      OldIsKept(s, i, c, size, again);
    }
    hide Alone, Placed, FreeSize;
    AloneStep(s, i, mid, Advance);
    if was.Some? && LastOf(s, was.value) {
      var giving := mid.(threads := s.threads[i := Thread(Some(c), ReturnOld(was.value, size, again))]);
      assert Step(mid, i, Advance) == giving;
      hide Referenced, LastOf;
      AloneStep(s, i, giving, Advance);
      assert Step(giving, i, Advance) == ready.(pool := mid.pool + [was.value]);
      ResetsAndOpens(s, i, ready.(pool := mid.pool + [was.value]), c, size, again);
    } else {
      assert Step(mid, i, Advance) == ready && mid.pool + [] == mid.pool;
      hide Referenced, LastOf;
      ResetsAndOpens(s, i, ready, c, size, again);
    }
  }

  lemma FetchedIsNew(s: State, i: nat)
    requires Placed(s) && i < |s.threads|
    ensures var (c, chunks, _) := Fetched(s); c < |chunks| && Some(c) != s.threads[i].tls
  {
    if s.pool != [] {
      assert s.pool[|s.pool| - 1] in s.pool;
    }
  }

  /** Nobody but live buffers can keep the chunk a thread lets go. */
  lemma OldIsKept(s: State, i: nat, c: nat, size: nat, again: bool)
    requires Placed(s) && i < |s.threads| && s.threads[i].pc.Idle? && s.threads[i].tls.Some? && Some(c) != s.threads[i].tls
    ensures Referenced(s.buffers, s.threads[i := Thread(Some(c), Reset(size, again))], s.threads[i].tls.value)
       <==> !LastOf(s, s.threads[i].tls.value)
  {
    var was, threads := s.threads[i].tls.value, s.threads[i := Thread(Some(c), Reset(size, again))];
    forall t | 0 <= t < |threads|
      ensures !Holds(threads[t], was)
    {
      assert t != i ==> threads[t] == s.threads[t];
    }
  }

  lemma ResetsAndOpens(s: State, i: nat, mid: State, c: nat, size: nat, again: bool)
    requires Alone(s, i, mid) && !mid.crashed && i < |s.threads| && c < |mid.chunks| && !s.crashed && size <= CHUNK
    requires mid.threads == s.threads[i := Thread(Some(c), Reset(size, again))] && mid.buffers == s.buffers && mid.next == s.next
    ensures Alone(s, i, Opened(s, i, c, 0, size, mid.chunks, mid.pool))
  {
    var clean := mid.chunks[c := Chunk(false, 0)];
    var s1 := mid.(chunks := clean, threads := s.threads[i := Thread(Some(c), if again then Final(size) else Check(size))]);
    assert FreeSize(clean[c]) == CHUNK;
    hide Alone, Referenced, FreeSize;
    AloneStep(s, i, mid, Advance);
    assert Step(mid, i, Advance) == s1;
    var s2 := mid.(chunks := clean, threads := s.threads[i := Thread(Some(c), Final(size))]);
    if !again {
      AloneStep(s, i, s1, Advance);
      assert Step(s1, i, Advance) == s2;
    }
    Finishes(s, i, s2, c, size);
    assert clean[c := Chunk(true, 0)] == mid.chunks[c := Chunk(true, 0)];
  }

  /** A thread without a chunk, or whose closed chunk has too little room, opens at the start of a chunk from the
      pool, or of a new one when the pool is empty. */
  lemma OpensAnew(s: State, i: nat, size: nat)
    requires Placed(s) && CanAct(s, i, Open(size)) && size <= CHUNK
    requires s.threads[i].tls.Some? ==>
               var c := s.threads[i].tls.value; c < |s.chunks| && !s.chunks[c].open && s.chunks[c].used <= CHUNK < s.chunks[c].used + size
    ensures var (c, chunks, pool) := Fetched(s);
            var back := if s.threads[i].tls.Some? && LastOf(s, s.threads[i].tls.value) then [s.threads[i].tls.value] else [];
            c < |chunks| && Alone(s, i, Opened(s, i, c, 0, size, chunks, pool + back))
  {
    AloneStart(s, i);
    var was := s.threads[i].tls;
    assert was.Some? ==> FreeSize(s.chunks[was.value]) == CHUNK - s.chunks[was.value].used;
    hide Alone, Referenced, FreeSize, Placed;
    AloneStep(s, i, s, Open(size));
    if was.None? {
      Replaces(s, i, At(s, i, Thread(was, Pop(size, false))), size, false);
    } else {
      var s1 := At(s, i, Thread(was, Check(size)));
      assert Step(s, i, Open(size)) == s1;
      AloneStep(s, i, s1, Advance);
      assert Step(s1, i, Advance) == At(s, i, Thread(was, Pop(size, true)));
      Replaces(s, i, At(s, i, Thread(was, Pop(size, true))), size, true);
    }
  }

  /** A buffer closed after `written` of its bytes gives the rest back: the next one begins right behind what was
      written. */
  lemma OpensBehindWhatWasWritten(s: State, i: nat, b: nat, written: nat, size: nat)
    requires CanAct(s, i, Close(b, written)) && s.threads[i].tls == Some(s.buffers[b].chunk)
    requires s.chunks[s.buffers[b].chunk].open && written <= s.buffers[b].alloc
    requires s.chunks[s.buffers[b].chunk].used + written + size <= CHUNK
    ensures var c, closed := s.buffers[b].chunk, s.buffers[b].(write := written, closed := true);
            Alone(s, i, Opened(s.(buffers := s.buffers[b := closed]), i, c, s.chunks[c].used + written, size, s.chunks, s.pool))
  {
    AloneStart(s, i);
    var c, closed := s.buffers[b].chunk, s.buffers[b].(write := written, closed := true);
    var used := s.chunks[c].used + written;
    var s1 := s.(buffers := s.buffers[b := closed], chunks := s.chunks[c := Chunk(false, used)]);
    hide Referenced, FreeSize;
    AloneStep(s, i, s, Close(b, written));
    assert Step(s, i, Close(b, written)) == s1;
    OpensInItsChunk(s1, i, size);
    AloneThen(s, i, s1, Opened(s1, i, c, used, size, s1.chunks, s1.pool));
    assert s1.chunks[c := Chunk(true, used)] == s.chunks[c := Chunk(true, used)];
  }

  lemma AloneThen(s: State, i: nat, mid: State, end: State)
    requires Alone(s, i, mid) && Alone(mid, i, end)
    ensures Alone(s, i, end)
  {
    hide Run;
    var first :| Run(s, first, mid) && ByOne(first, i);
    var second :| Run(mid, second, end) && ByOne(second, i);
    RunConcat(s, first, mid, second, end);
    assert ByOne(first + second, i);
  }

  // ---- Calls that fail ----------------------------------------------------------------------

  /** How far a thread in Open is from the end. */
  function Ahead(pc: Pc): nat {
    match pc
    case Pop(_, again) => if again then 5 else 10
    case Assign(_, _, again) => if again then 4 else 9
    case ReturnOld(_, _, again) => if again then 3 else 8
    case Reset(_, again) => if again then 2 else 7
    case Check(_) => 6
    case Final(_) => 1
    case _ => 0
  }

  predicate Asks(pc: Pc, size: nat) { Ahead(pc) > 0 && pc.size == size }

  lemma AskingGoesOn(s: State, i: nat, size: nat)
    requires Placed(s) && !s.crashed && i < |s.threads| && Asks(s.threads[i].pc, size) && size > CHUNK
    ensures CanAct(s, i, Advance)
    ensures var t := Step(s, i, Advance);
            t.crashed || (|t.threads| == |s.threads| && Asks(t.threads[i].pc, size) && Ahead(t.threads[i].pc) < Ahead(s.threads[i].pc))
  {
    hide Referenced, FreeSize;
  }

  lemma {:induction false} AskingFails(s: State, i: nat, mid: State, size: nat)
    requires Alone(s, i, mid) && Placed(mid) && !mid.crashed && i < |mid.threads| && Asks(mid.threads[i].pc, size) && size > CHUNK
    ensures Fails(s, i)
    decreases Ahead(mid.threads[i].pc)
  {
    AskingGoesOn(mid, i, size);
    hide Placed, Step, CanAct, Alone, Asks, Ahead;
    AloneStep(s, i, mid, Advance);
    StepKeepsPlaces(mid, i, Advance);
    if !Step(mid, i, Advance).crashed {
      AskingFails(s, i, Step(mid, i, Advance), size);
    }
  }

  /** Asking for more than a chunk fails an assertion, whatever chunk the thread has. */
  lemma TooLargeFails(s: State, i: nat, size: nat)
    requires Placed(s) && CanAct(s, i, Open(size)) && size > CHUNK
    ensures Fails(s, i)
  {
    AloneStart(s, i);
    hide Placed, Alone;
    AloneStep(s, i, s, Open(size));
    StepKeepsPlaces(s, i, Open(size));
    AskingFails(s, i, Step(s, i, Open(size)), size);
  }

  /** So does asking while the last buffer of the thread's chunk is open. */
  lemma OpenTwiceFails(s: State, i: nat, size: nat)
    requires CanAct(s, i, Open(size)) && s.threads[i].tls.Some? && s.threads[i].tls.value < |s.chunks|
    requires s.chunks[s.threads[i].tls.value].open
    ensures Fails(s, i)
  {
    AloneStart(s, i);
    hide Alone, Referenced, FreeSize;
    AloneStep(s, i, s, Open(size));
    AloneStep(s, i, Step(s, i, Open(size)), Advance);
  }

  /** A Close fails exactly when more was written than asked for, or the chunk is not open. */
  lemma CloseFailsIff(s: State, i: nat, b: nat, written: nat)
    requires CanAct(s, i, Close(b, written))
    ensures Step(s, i, Close(b, written)).crashed <==> written > s.buffers[b].alloc || !s.chunks[s.buffers[b].chunk].open
  {
  }

  /** Step by step: a chunk is made exactly when one is asked for and the pool is empty. */
  lemma MakesChunkIff(s: State, i: nat, a: Action)
    requires CanAct(s, i, a)
    ensures |Step(s, i, a).chunks| != |s.chunks| <==> a.Advance? && s.threads[i].pc.Pop? && s.pool == []
    ensures |Step(s, i, a).chunks| <= |s.chunks| + 1
  {
    hide Referenced, FreeSize;
  }
}
