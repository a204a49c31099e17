/**
 * ServerCore/Memory.cpp and MemoryPool.cpp: the table of size classes, and Allocate and Release as a
 * state machine of threads over lock-free free lists with separately kept counters.
 */
module MemoryPools {
  import opened Options
  import opened Lists

  const HEADER: nat := 32           // sizeof(MemoryHeader), aligned to 16
  const MAX_ALLOC_SIZE: nat := 4096
  const POOLS: nat := 48
  const LARGEST: nat := 3872        // the last class the constructor builds

  // ---- The table ----------------------------------------------------------------------------

  /** The sizes the constructor's three loops step through. */
  function ClassSize(i: nat): nat
    requires i < POOLS
  {
    if i < 32 then 32 * (i + 1) else if i < 40 then 1056 + 128 * (i - 32) else 2080 + 256 * (i - 40)
  }

  /** The table entry for an allocation size; the entries above the largest class are never set. */
  function Table(allocSize: nat): Option<nat> {
    if allocSize <= 1024 then Some(if allocSize == 0 then 0 else (allocSize - 1) / 32)
    else if allocSize <= 1056 then Some(32)
    else if allocSize <= 1952 then Some(32 + (allocSize - 1056 + 127) / 128)
    else if allocSize <= 2080 then Some(40)
    else if allocSize <= LARGEST then Some(40 + (allocSize - 2080 + 255) / 256)
    else None
  }

  /** The class sizes: multiples of 32 up to 1024, then every 128 up to 1952, then every 256 up to 3872. */
  lemma ClassesAre(size: nat)
    ensures (exists i: nat :: i < POOLS && ClassSize(i) == size) <==>
            || (32 <= size <= 1024 && size % 32 == 0)
            || (1056 <= size <= 1952 && (size - 1056) % 128 == 0)
            || (2080 <= size <= 3872 && (size - 2080) % 256 == 0)
  {
    if 32 <= size <= 1024 && size % 32 == 0 {
      assert ClassSize(size / 32 - 1) == size;
    } else if 1056 <= size <= 1952 && (size - 1056) % 128 == 0 {
      assert ClassSize(32 + (size - 1056) / 128) == size;
    } else if 2080 <= size <= 3872 && (size - 2080) % 256 == 0 {
      assert ClassSize(40 + (size - 2080) / 256) == size;
    }
  }

  /** Up to the largest class the table gives the least class that is big enough; above it, nothing. */
  lemma TableIsLeastClass(allocSize: nat, i: nat)
    requires i < POOLS
    ensures Table(allocSize).Some? <==> allocSize <= LARGEST
    ensures Table(allocSize).Some? ==>
              Table(allocSize).value < POOLS && allocSize <= ClassSize(Table(allocSize).value)
              && (allocSize <= ClassSize(i) ==> ClassSize(Table(allocSize).value) <= ClassSize(i))
  {
  }

  class Memory {
    var pools: seq<nat>                // the sizes of _pools
    const poolTable: array<Option<nat>> // _poolTable, by position in _pools; None where nothing was stored

    /** The constructor: every table entry names the least class not below it, and the entries above
        the largest class stay unset. */
    constructor ()
      ensures fresh(poolTable) && poolTable.Length == MAX_ALLOC_SIZE + 1
      ensures |pools| == POOLS && forall i :: 0 <= i < POOLS ==> pools[i] == ClassSize(i)
      ensures forall k :: 0 <= k <= MAX_ALLOC_SIZE ==> poolTable[k] == Table(k)
    {
      pools := [];
      poolTable := new Option<nat>[MAX_ALLOC_SIZE + 1](_ => None);
      new;
      var size, tableIndex := 32, 0;
      while size <= 1024
        invariant |pools| <= 32 && size == 32 * (|pools| + 1)
        invariant Filled(tableIndex)
      {
        tableIndex := AddPool(size, tableIndex);
        size := size + 32;
      }
      while size <= 2048
        invariant 32 <= |pools| <= 40 && size == 1056 + 128 * (|pools| - 32)
        invariant Filled(tableIndex)
      {
        tableIndex := AddPool(size, tableIndex);
        size := size + 128;
      }
      while size <= 4096
        invariant 40 <= |pools| <= POOLS && size == 2080 + 256 * (|pools| - 40)
        invariant Filled(tableIndex)
      {
        tableIndex := AddPool(size, tableIndex);
        size := size + 256;
      }
    }

    /** The pools built so far are the first classes, and the table is right up to the last of them. */
    predicate Filled(tableIndex: nat)
      reads this, poolTable
    {
      && poolTable.Length == MAX_ALLOC_SIZE + 1 && |pools| <= POOLS
      && tableIndex == (if |pools| == 0 then 0 else ClassSize(|pools| - 1) + 1)
      && (forall i :: 0 <= i < |pools| ==> pools[i] == ClassSize(i))
      && (forall k :: 0 <= k < tableIndex ==> poolTable[k] == Table(k))
      && (forall k :: tableIndex <= k <= MAX_ALLOC_SIZE ==> poolTable[k] == None)
    }

    /** One pass of a loop: a pool for `size`, and the entries up to it. */
    method AddPool(size: nat, index: nat) returns (tableIndex: nat)
      requires Filled(index) && |pools| < POOLS && size == ClassSize(|pools|)
      modifies this`pools, poolTable
      ensures Filled(tableIndex) && |pools| == old(|pools|) + 1
    {
      var pool := |pools|;
      pools := pools + [size];
      tableIndex := index;
      while tableIndex <= size
        invariant index <= tableIndex <= size + 1 && pools == old(pools) + [size]
        invariant forall k :: 0 <= k < tableIndex ==> poolTable[k] == Table(k)
        invariant forall k :: tableIndex <= k <= MAX_ALLOC_SIZE ==> poolTable[k] == None
      {
        EntryIsNext(pool, tableIndex);
        poolTable[tableIndex] := Some(pool);
        tableIndex := tableIndex + 1;
      }
    }
  }

  lemma EntryIsNext(pool: nat, k: nat)
    requires pool < POOLS && k <= ClassSize(pool) && (pool > 0 ==> ClassSize(pool - 1) < k)
    ensures Table(k) == Some(pool)
  {
  }

  // ---- Allocate and Release -----------------------------------------------------------------

  /** Where a block is: on a pool's free list, with a client (from a pool or, if large, from the heap), or
      between the two in some thread's hands. */
  datatype Place = Free(pool: nat) | Live(pool: nat) | Large | Hand(thread: nat) | Gone

  /** Where a thread is in Allocate (the first six) or Release.  `from` is the pool the block was made
      for; the code does not keep it. */
  datatype Pc =
    | Idle
    | Pop(pool: nat, allocSize: nat)
    | Verify(pool: nat, block: nat, allocSize: nat)
    | Unreserve(pool: nat, block: nat, allocSize: nat)
    | CountUse(pool: nat, block: nat, allocSize: nat)
    | Attach(pool: nat, block: nat, allocSize: nat)
    | Detach(block: nat, from: nat)
    | Clear(pool: nat, block: nat, from: nat)
    | Push(pool: nat, block: nat, from: nat)
    | DropUse(pool: nat)
    | Reserve(pool: nat)

  /** A MemoryPool: its free list, top first, and its two counters. */
  datatype Pool = Pool(free: seq<nat>, useCount: int, reservedCount: int)

  /** `headers` is the allocSize field of every block, `place` a record of where it is. */
  datatype State = State(pools: seq<Pool>, headers: map<nat, nat>, place: map<nat, Place>, next: nat,
                         threads: seq<Pc>, crashed: bool)

  datatype Action = Allocate(size: nat) | Release(block: nat) | Advance

  predicate CanAct(s: State, i: nat, a: Action) {
    && i < |s.threads| && |s.pools| == POOLS && !s.crashed
    && match a
       case Allocate(_) => s.threads[i].Idle?
       case Release(b) => // a client releases what it holds
         s.threads[i].Idle? && b in s.headers && b in s.place && (s.place[b].Live? || s.place[b].Large?)
       case Advance =>
         match s.threads[i]
         case Idle => false
         case Pop(p, _) => p < POOLS
         case Verify(p, b, _) => p < POOLS && b in s.headers
         case Unreserve(p, _, _) => p < POOLS
         case CountUse(p, _, _) => p < POOLS
         case Attach(p, _, _) => p < POOLS
         case Detach(b, _) => b in s.headers
         case Clear(p, _, _) => p < POOLS
         case Push(p, _, _) => p < POOLS
         case DropUse(p) => p < POOLS
         case Reserve(p) => p < POOLS
  }

  function At(s: State, i: nat, pc: Pc): State
    requires i < |s.threads|
  {
    s.(threads := s.threads[i := pc])
  }

  function WithPool(s: State, p: nat, pool: Pool): State
    requires p < |s.pools|
  {
    s.(pools := s.pools[p := pool])
  }

  function Step(s: State, i: nat, a: Action): State
    requires CanAct(s, i, a)
  {
    match a
    case Allocate(size) => Allocated(s, i, size + HEADER)
    case Release(b) => Released(s, i, b)
    case Advance => Continue(s, i)
  }

  /** Memory::Allocate up to the pool: beyond MAX_ALLOC_SIZE the heap serves, and a size whose table
      entry was never set jumps through a pointer nobody stored. */
  function Allocated(s: State, i: nat, allocSize: nat): State
    requires i < |s.threads|
  {
    if allocSize > MAX_ALLOC_SIZE then
      s.(headers := s.headers[s.next := allocSize], place := s.place[s.next := Large], next := s.next + 1)
    else if Table(allocSize).None? then s.(crashed := true)
    else At(s, i, Pop(Table(allocSize).value, allocSize))
  }

  /** Memory::Release of a block a client holds. */
  function Released(s: State, i: nat, b: nat): State
    requires i < |s.threads| && b in s.headers && b in s.place
  {
    if s.place[b].Large? then
      if s.headers[b] == 0 then s.(crashed := true)
      else s.(place := s.place[b := Gone])
    else At(s.(place := s.place[b := Hand(i)]), i, Detach(b, if s.place[b].Live? then s.place[b].pool else 0))
  }

  function Continue(s: State, i: nat): State
    requires CanAct(s, i, Advance)
  {
    match s.threads[i]
    case Idle => s
    // MemoryPool::Pop
    case Pop(p, n) =>
      var pool := s.pools[p];
      if pool.free == [] then
        At(s.(headers := s.headers[s.next := 0], place := s.place[s.next := Hand(i)], next := s.next + 1),
           i, CountUse(p, s.next, n))
      else
        At(WithPool(s, p, pool.(free := pool.free[1..])).(place := s.place[pool.free[0] := Hand(i)]),
           i, Verify(p, pool.free[0], n))
    case Verify(p, b, n) => if s.headers[b] != 0 then s.(crashed := true) else At(s, i, Unreserve(p, b, n))
    case Unreserve(p, b, n) =>
      At(WithPool(s, p, s.pools[p].(reservedCount := s.pools[p].reservedCount - 1)), i, CountUse(p, b, n))
    case CountUse(p, b, n) => At(WithPool(s, p, s.pools[p].(useCount := s.pools[p].useCount + 1)), i, Attach(p, b, n))
    case Attach(p, b, n) => At(s.(headers := s.headers[b := n], place := s.place[b := Live(p)]), i, Idle)
    // Memory::Release and MemoryPool::Push
    case Detach(b, from) =>
      var allocSize := s.headers[b];
      if allocSize == 0 || allocSize > MAX_ALLOC_SIZE || Table(allocSize).None? then s.(crashed := true)
      else At(s, i, Clear(Table(allocSize).value, b, from))
    case Clear(p, b, from) => At(s.(headers := s.headers[b := 0]), i, Push(p, b, from))
    case Push(p, b, _) =>
      At(WithPool(s, p, s.pools[p].(free := [b] + s.pools[p].free)).(place := s.place[b := Free(p)]), i, DropUse(p))
    case DropUse(p) => At(WithPool(s, p, s.pools[p].(useCount := s.pools[p].useCount - 1)), i, Reserve(p))
    case Reserve(p) => At(WithPool(s, p, s.pools[p].(reservedCount := s.pools[p].reservedCount + 1)), i, Idle)
  }

  // ---- The invariant ------------------------------------------------------------------------

  /** The free list of pool `p` is exactly the blocks recorded there, each once. */
  ghost predicate ListOk(s: State, p: nat)
    requires p < |s.pools|
  {
    && Distinct(s.pools[p].free)
    && (forall b :: b in s.pools[p].free <==> b in s.place && s.place[b] == Free(p))
  }

  /** A block's header agrees with where it is. */
  predicate BlockOk(s: State, b: nat) {
    && b < s.next && b in s.headers && b in s.place
    && match s.place[b]
       case Free(p) => p < POOLS && s.headers[b] == 0
       case Live(p) => s.headers[b] != 0 && Table(s.headers[b]) == Some(p)
       case Large => s.headers[b] > MAX_ALLOC_SIZE
       case Hand(t) => t < |s.threads|
       case Gone => true
  }

  predicate HandOk(s: State, t: nat, b: nat) { b in s.place && s.place[b] == Hand(t) && b in s.headers }

  /** What a thread in the middle of a call may count on. */
  predicate ThreadOk(s: State, t: nat)
    requires t < |s.threads|
  {
    match s.threads[t]
    case Idle => true
    case Pop(p, n) => n != 0 && Table(n) == Some(p)
    case Verify(p, b, n) => n != 0 && Table(n) == Some(p) && HandOk(s, t, b) && s.headers[b] == 0
    case Unreserve(p, b, n) => n != 0 && Table(n) == Some(p) && HandOk(s, t, b)
    case CountUse(p, b, n) => n != 0 && Table(n) == Some(p) && HandOk(s, t, b)
    case Attach(p, b, n) => n != 0 && Table(n) == Some(p) && HandOk(s, t, b)
    case Detach(b, from) => HandOk(s, t, b) && s.headers[b] != 0 && Table(s.headers[b]) == Some(from)
    case Clear(p, b, from) => p < POOLS && HandOk(s, t, b) && p == from
    case Push(p, b, from) => p < POOLS && HandOk(s, t, b) && p == from && s.headers[b] == 0
    case DropUse(p) => p < POOLS
    case Reserve(p) => p < POOLS
  }

  ghost predicate Inv(s: State) {
    && |s.pools| == POOLS && s.place.Keys == s.headers.Keys
    && (forall p :: 0 <= p < POOLS ==> ListOk(s, p))
    && (forall b :: b in s.place ==> BlockOk(s, b))
    && (forall t :: 0 <= t < |s.threads| ==> ThreadOk(s, t))
  }

  // ---- Steps keep it ------------------------------------------------------------------------

  lemma OthersStay(s: State, i: nat, a: Action, t: nat)
    requires CanAct(s, i, a) && Inv(s) && t < |s.threads| && t != i
    ensures |Step(s, i, a).threads| == |s.threads| && Step(s, i, a).threads[t] == s.threads[t]
    ensures ThreadOk(Step(s, i, a), t)
  {
    hide ListOk, Table, BlockOk;
    assert ThreadOk(s, t) && ThreadOk(s, i);
    NextIsNew(s);
    if !a.Advance? {
      assert a.Release? ==> s.place[a.block] != Hand(t);
    } else if s.threads[i].Pop? {
      HeadIsFree(s, s.threads[i].pool);
    }
  }

  lemma HeadIsFree(s: State, p: nat)
    requires Inv(s) && p < POOLS
    ensures s.pools[p].free != [] ==>
              var b := s.pools[p].free[0]; b in s.place && s.place[b] == Free(p) && b in s.headers && s.headers[b] == 0
  {
    hide Table;
    assert ListOk(s, p);
    if s.pools[p].free != [] {
      assert s.pools[p].free[0] in s.pools[p].free;
      assert BlockOk(s, s.pools[p].free[0]);
    }
  }

  lemma ActorStays(s: State, i: nat, a: Action)
    requires CanAct(s, i, a) && Inv(s)
    ensures ThreadOk(Step(s, i, a), i)
  {
    hide ListOk;
    assert ThreadOk(s, i);
    if a.Release? {
      assert BlockOk(s, a.block);
    } else if a.Advance? && s.threads[i].Pop? {
      HeadIsFree(s, s.threads[i].pool);
    }
  }

  lemma BlocksStay(s: State, i: nat, a: Action, b: nat)
    requires CanAct(s, i, a) && Inv(s) && b in Step(s, i, a).place
    ensures BlockOk(Step(s, i, a), b)
  {
    hide ListOk, Table;
    assert ThreadOk(s, i);
    assert b in s.place ==> BlockOk(s, b);
    if a.Advance? && s.threads[i].Pop? {
      HeadIsFree(s, s.threads[i].pool);
    }
  }

  lemma ListsStay(s: State, i: nat, a: Action, p: nat)
    requires CanAct(s, i, a) && Inv(s) && p < POOLS
    ensures |Step(s, i, a).pools| == POOLS && Step(s, i, a).place.Keys == Step(s, i, a).headers.Keys
    ensures ListOk(Step(s, i, a), p)
  {
    if a.Advance? && (s.threads[i].Pop? || s.threads[i].Push?) {
      MovedList(s, i, p);
    } else {
      UnmovedList(s, i, a, p);
    }
  }

  lemma UnmovedList(s: State, i: nat, a: Action, p: nat)
    requires CanAct(s, i, a) && Inv(s) && p < POOLS && !(a.Advance? && (s.threads[i].Pop? || s.threads[i].Push?))
    ensures |Step(s, i, a).pools| == POOLS && Step(s, i, a).place.Keys == Step(s, i, a).headers.Keys
    ensures ListOk(Step(s, i, a), p)
  {
    hide Step;
    assert ListOk(s, p);
    FreeBlocksStay(s, i, a, p);
  }

  /** Nothing but a Pop or a Push changes which blocks are free. */
  lemma FreeBlocksStay(s: State, i: nat, a: Action, p: nat)
    requires CanAct(s, i, a) && Inv(s) && p < POOLS && !(a.Advance? && (s.threads[i].Pop? || s.threads[i].Push?))
    ensures var t := Step(s, i, a);
            && |t.pools| == POOLS && t.place.Keys == t.headers.Keys && t.pools[p].free == s.pools[p].free
            && forall b :: (b in t.place && t.place[b] == Free(p)) <==> (b in s.place && s.place[b] == Free(p))
  {
    hide Table, ListOk;
    assert ThreadOk(s, i);
    NextIsNew(s);
  }

  lemma MovedList(s: State, i: nat, p: nat)
    requires CanAct(s, i, Advance) && Inv(s) && p < POOLS && (s.threads[i].Pop? || s.threads[i].Push?)
    ensures |Step(s, i, Advance).pools| == POOLS && Step(s, i, Advance).place.Keys == Step(s, i, Advance).headers.Keys
    ensures ListOk(Step(s, i, Advance), p)
  {
    hide Table;
    assert ThreadOk(s, i) && ListOk(s, p);
    NextIsNew(s);
    if s.threads[i].Pop? {
      HeadIsFree(s, s.threads[i].pool);
      var free := s.pools[p].free;
      assert free != [] ==> free == [free[0]] + free[1..];
    }
  }

  lemma NextIsNew(s: State)
    requires Inv(s)
    ensures s.next !in s.place && s.next !in s.headers
    ensures forall b :: b in s.place ==> b < s.next
  {
    hide ListOk, Table;
    assert forall b :: b in s.place ==> BlockOk(s, b);
  }

  /** Every step keeps the invariant, and nothing fails but an Allocate whose table entry was never set. */
  lemma StepKeepsInv(s: State, i: nat, a: Action)
    requires CanAct(s, i, a) && Inv(s)
    ensures Inv(Step(s, i, a))
    ensures Step(s, i, a).crashed <==> a.Allocate? && LARGEST < a.size + HEADER <= MAX_ALLOC_SIZE
  {
    hide ListOk, BlockOk, ThreadOk, Step;
    var t := Step(s, i, a);
    ListsStay(s, i, a, 0);
    forall p | 0 <= p < POOLS
      ensures ListOk(t, p)
    {
      ListsStay(s, i, a, p);
    }
    forall b | b in t.place
      ensures BlockOk(t, b)
    {
      BlocksStay(s, i, a, b);
    }
    ActorStays(s, i, a);
    forall u | 0 <= u < |t.threads|
      ensures ThreadOk(t, u)
    {
      if u != i {
        SameThreads(s, i, a);
        OthersStay(s, i, a, u);
      }
    }
    CrashIff(s, i, a);
  }

  lemma SameThreads(s: State, i: nat, a: Action)
    requires CanAct(s, i, a)
    ensures |Step(s, i, a).threads| == |s.threads|
  {
  }

  lemma CrashIff(s: State, i: nat, a: Action)
    requires CanAct(s, i, a) && Inv(s)
    ensures Step(s, i, a).crashed <==> a.Allocate? && LARGEST < a.size + HEADER <= MAX_ALLOC_SIZE
  {
    hide ListOk;
    assert ThreadOk(s, i);
    if a.Release? {
      assert BlockOk(s, a.block);
    }
  }

  predicate Start(s: State) {
    && |s.pools| == POOLS && s.headers == map[] && s.place == map[] && !s.crashed
    && (forall p :: 0 <= p < POOLS ==> s.pools[p] == Pool([], 0, 0))
    && (forall t :: 0 <= t < |s.threads| ==> s.threads[t] == Idle)
  }

  ghost predicate Run(s: State, trace: seq<(nat, Action)>, end: State)
    decreases |trace|
  {
    if trace == [] then end == s
    else CanAct(s, trace[0].0, trace[0].1) && Run(Step(s, trace[0].0, trace[0].1), trace[1..], end)
  }

  // ---- The counters -------------------------------------------------------------------------

  /** Blocks a thread has counted as used that no client holds (yet, or any more). */
  function UseDebt(pc: Pc, p: nat): int {
    match pc
    case Attach(q, _, _) => if q == p then 1 else 0
    case Detach(_, from) => if from == p then 1 else 0
    case Clear(_, _, from) => if from == p then 1 else 0
    case Push(_, _, from) => if from == p then 1 else 0
    case DropUse(q) => if q == p then 1 else 0
    case _ => 0
  }

  /** Blocks a thread has taken off or put on the free list without counting it yet. */
  function ReserveDebt(pc: Pc, p: nat): int {
    match pc
    case Verify(q, _, _) => if q == p then 1 else 0
    case Unreserve(q, _, _) => if q == p then 1 else 0
    case DropUse(q) => if q == p then -1 else 0
    case Reserve(q) => if q == p then -1 else 0
    case _ => 0
  }

  function UseDebts(threads: seq<Pc>, p: nat): int {
    if threads == [] then 0 else UseDebt(threads[0], p) + UseDebts(threads[1..], p)
  }

  function ReserveDebts(threads: seq<Pc>, p: nat): int {
    if threads == [] then 0 else ReserveDebt(threads[0], p) + ReserveDebts(threads[1..], p)
  }

  lemma {:induction false} DebtsOfUpdate(threads: seq<Pc>, i: nat, pc: Pc, p: nat)
    requires i < |threads|
    ensures UseDebts(threads[i := pc], p) == UseDebts(threads, p) - UseDebt(threads[i], p) + UseDebt(pc, p)
    ensures ReserveDebts(threads[i := pc], p) == ReserveDebts(threads, p) - ReserveDebt(threads[i], p) + ReserveDebt(pc, p)
  {
    hide UseDebt, ReserveDebt;
    if i == 0 {
      assert threads[0 := pc][1..] == threads[1..];
    } else {
      assert threads[i := pc][1..] == threads[1..][i - 1 := pc];
      DebtsOfUpdate(threads[1..], i - 1, pc, p);
    }
  }

  lemma {:induction false} IdleOwesNothing(threads: seq<Pc>, p: nat)
    requires forall t :: 0 <= t < |threads| ==> threads[t] == Idle
    ensures UseDebts(threads, p) == 0 && ReserveDebts(threads, p) == 0
  {
    if threads != [] {
      IdleOwesNothing(threads[1..], p);
    }
  }

  /** The blocks of pool `p` that clients hold. */
  function LiveSet(place: map<nat, Place>, p: nat): set<nat> {
    set b | b in place && place[b] == Live(p)
  }

  lemma LiveChange(place: map<nat, Place>, b: nat, to: Place, p: nat)
    ensures |LiveSet(place[b := to], p)| == |LiveSet(place, p)|
            - (if b in place && place[b] == Live(p) then 1 else 0) + (if to == Live(p) then 1 else 0)
  {
    var rest := LiveSet(place, p) - {b};
    assert b in LiveSet(place, p) ==> LiveSet(place, p) == rest + {b};
    assert b !in LiveSet(place, p) ==> LiveSet(place, p) == rest;
    assert LiveSet(place[b := to], p) == if to == Live(p) then rest + {b} else rest;
  }

  /** The counters are the live and the free blocks, but for what threads in mid-call still owe. */
  predicate CountsOk(s: State, p: nat)
    requires p < |s.pools|
  {
    && s.pools[p].useCount == |LiveSet(s.place, p)| + UseDebts(s.threads, p)
    && s.pools[p].reservedCount == |s.pools[p].free| + ReserveDebts(s.threads, p)
  }

  lemma StepKeepsCounts(s: State, i: nat, a: Action, p: nat)
    requires CanAct(s, i, a) && Inv(s) && p < POOLS && CountsOk(s, p)
    ensures |Step(s, i, a).pools| == POOLS && CountsOk(Step(s, i, a), p)
  {
    hide ListOk, Table, UseDebts, ReserveDebts, LiveSet;
    var t := Step(s, i, a);
    assert ThreadOk(s, i);
    SameThreads(s, i, a);
    assert t.threads == s.threads[i := t.threads[i]] by {
      hide ThreadOk, Inv, BlockOk;
    }
    DebtsOfUpdate(s.threads, i, t.threads[i], p);
    NextIsNew(s);
    if a.Allocate? {
      LiveChange(s.place, s.next, Large, p);
    } else if a.Release? {
      assert BlockOk(s, a.block);
      LiveChange(s.place, a.block, Hand(i), p);
      LiveChange(s.place, a.block, Gone, p);
    } else {
      AdvanceKeepsLive(s, i, p);
    }
  }

  lemma AdvanceKeepsLive(s: State, i: nat, p: nat)
    requires CanAct(s, i, Advance) && Inv(s)
    ensures |LiveSet(Step(s, i, Advance).place, p)| ==
            |LiveSet(s.place, p)| + if s.threads[i].Attach? && s.threads[i].pool == p then 1 else 0
  {
    hide ListOk, Table, LiveSet, BlockOk;
    assert ThreadOk(s, i);
    match s.threads[i]
    case Pop(q, _) =>
      NextIsNew(s);
      HeadIsFree(s, q);
      LiveChange(s.place, s.next, Hand(i), p);
      if s.pools[q].free != [] {
        LiveChange(s.place, s.pools[q].free[0], Hand(i), p);
      }
    case Attach(q, b, _) => LiveChange(s.place, b, Live(q), p);
    case Push(q, b, _) => LiveChange(s.place, b, Free(q), p);
    case _ =>
  }

  lemma {:induction false} RunKeepsInv(s: State, trace: seq<(nat, Action)>, end: State)
    requires Inv(s) && forall p :: 0 <= p < POOLS ==> CountsOk(s, p)
    requires Run(s, trace, end)
    ensures Inv(end) && forall p :: 0 <= p < POOLS ==> CountsOk(end, p)
    decreases |trace|
  {
    hide ListOk, BlockOk, ThreadOk, CountsOk, Step, CanAct;
    if trace != [] {
      var (i, a) := trace[0];
      StepKeepsInv(s, i, a);
      forall p | 0 <= p < POOLS
        ensures CountsOk(Step(s, i, a), p)
      {
        StepKeepsCounts(s, i, a, p);
      }
      RunKeepsInv(Step(s, i, a), trace[1..], end);
    }
  }

  lemma StartIsInv(s: State)
    requires Start(s)
    ensures Inv(s) && forall p :: 0 <= p < POOLS ==> CountsOk(s, p)
  {
    forall p | 0 <= p < POOLS
      ensures CountsOk(s, p)
    {
      IdleOwesNothing(s.threads, p);
    }
  }

  /** In every run a block of a pool is held by a client, is on that pool's free list exactly once with a
      cleared header, or is in one thread's hands; a client's block is big enough, and from the least class
      that is. */
  lemma BlocksHaveOnePlace(start: State, trace: seq<(nat, Action)>, end: State, b: nat, p: nat)
    requires Start(start) && Run(start, trace, end) && b in end.place && p < POOLS
    ensures |end.pools| == POOLS && b in end.headers
    ensures end.place[b] == Free(p) <==> b in end.pools[p].free
    ensures multiset(end.pools[p].free)[b] <= 1
    ensures end.place[b] == Free(p) ==> end.headers[b] == 0
    ensures end.place[b] == Live(p) ==>
              0 < end.headers[b] <= ClassSize(p) && (p > 0 ==> ClassSize(p - 1) < end.headers[b])
  {
    hide Run, CountsOk;
    StartIsInv(start);
    RunKeepsInv(start, trace, end);
    assert BlockOk(end, b) && ListOk(end, p);
    DistinctCount(end.pools[p].free, b);
    if end.place[b] == Live(p) && p > 0 {
      TableIsLeastClass(end.headers[b], p - 1);
    }
    if end.place[b] == Live(p) {
      TableIsLeastClass(end.headers[b], p);
    }
  }

  /** In every run, a block on its way back goes to the pool it was made for. */
  lemma ReleasedToItsPool(start: State, trace: seq<(nat, Action)>, end: State, t: nat)
    requires Start(start) && Run(start, trace, end) && t < |end.threads| && end.threads[t].Push?
    ensures end.threads[t].pool == end.threads[t].from && end.threads[t].block in end.headers
            && end.headers[end.threads[t].block] == 0
  {
    hide Run, CountsOk, ListOk, BlockOk;
    StartIsInv(start);
    RunKeepsInv(start, trace, end);
    assert ThreadOk(end, t);
  }

  /** Whenever no thread is in a call, every pool's counters are the numbers of its live and of its free
      blocks. */
  lemma QuiescentCounts(start: State, trace: seq<(nat, Action)>, end: State, p: nat)
    requires Start(start) && Run(start, trace, end) && p < POOLS
    requires forall t :: 0 <= t < |end.threads| ==> end.threads[t] == Idle
    ensures |end.pools| == POOLS
    ensures end.pools[p].useCount == |LiveSet(end.place, p)|
    ensures end.pools[p].reservedCount == |end.pools[p].free|
  {
    hide Run, ListOk, BlockOk, LiveSet;
    StartIsInv(start);
    RunKeepsInv(start, trace, end);
    assert CountsOk(end, p);
    IdleOwesNothing(end.threads, p);
  }

  /** In every run, an Allocate or Release a client may make fails exactly when the size plus header falls
      between the largest class and MAX_ALLOC_SIZE; every assertion holds. */
  lemma FailsIff(start: State, trace: seq<(nat, Action)>, end: State, i: nat, a: Action)
    requires Start(start) && Run(start, trace, end) && CanAct(end, i, a)
    ensures Step(end, i, a).crashed <==> a.Allocate? && LARGEST < a.size + HEADER <= MAX_ALLOC_SIZE
  {
    hide Run, CountsOk, Inv;
    StartIsInv(start);
    RunKeepsInv(start, trace, end);
    StepKeepsInv(end, i, a);
  }

  // ---- Calls that nobody disturbs -----------------------------------------------------------

  /** Thread `i` alone leads from `s` to `end`. */
  ghost predicate Alone(s: State, i: nat, end: State) {
    exists trace :: Run(s, trace, end) && ByOne(trace, i)
  }

  predicate ByOne(trace: seq<(nat, Action)>, i: nat) {
    forall k :: 0 <= k < |trace| ==> trace[k].0 == i
  }

  lemma {:induction false} RunExtend(s: State, trace: seq<(nat, Action)>, mid: State, i: nat, a: Action)
    requires Run(s, trace, mid) && CanAct(mid, i, a)
    ensures Run(s, trace + [(i, a)], Step(mid, i, a))
    decreases |trace|
  {
    hide Step, CanAct;
    if trace == [] {
      assert (trace + [(i, a)])[1..] == [] && Run(Step(mid, i, a), [], Step(mid, i, a));
    } else {
      assert (trace + [(i, a)])[1..] == trace[1..] + [(i, a)];
      RunExtend(Step(s, trace[0].0, trace[0].1), trace[1..], mid, i, a);
    }
  }

  lemma AloneStep(s: State, i: nat, mid: State, a: Action)
    requires Alone(s, i, mid) && CanAct(mid, i, a)
    ensures Alone(s, i, Step(mid, i, a))
  {
    hide Step, Run;
    var trace :| Run(s, trace, mid) && ByOne(trace, i);
    RunExtend(s, trace, mid, i, a);
    assert ByOne(trace + [(i, a)], i);
  }

  lemma AloneStart(s: State, i: nat)
    ensures Alone(s, i, s)
  {
    assert Run(s, [], s) && ByOne([], i);
  }

  /** What an Allocate served by pool `p` leaves: the block `b` is the client's, marked with its size, and
      counted as used. */
  function Served(s: State, p: nat, b: nat, allocSize: nat, free: seq<nat>, reserved: int): State
    requires p < |s.pools|
  {
    s.(pools := s.pools[p := Pool(free, s.pools[p].useCount + 1, reserved)],
       headers := s.headers[b := allocSize], place := s.place[b := Live(p)])
  }

  /** An Allocate takes the block released last to its pool, and makes none. */
  lemma AllocateReuses(s: State, i: nat, size: nat, p: nat)
    requires Inv(s) && CanAct(s, i, Allocate(size)) && Table(size + HEADER) == Some(p) && p < POOLS && s.pools[p].free != []
    ensures var pool := s.pools[p];
            Alone(s, i, Served(s, p, pool.free[0], size + HEADER, pool.free[1..], pool.reservedCount - 1))
  {
    AloneStart(s, i);
    HeadIsFree(s, p);
    TableIsLeastClass(size + HEADER, p);
    var pool, n := s.pools[p], size + HEADER;
    var b := pool.free[0];
    var s1 := At(s, i, Pop(p, n));
    var s2 := s1.(pools := s.pools[p := pool.(free := pool.free[1..])], place := s.place[b := Hand(i)],
                  threads := s.threads[i := Verify(p, b, n)]);
    hide Inv, Alone, Table;
    AloneStep(s, i, s, Allocate(size));
    assert Step(s, i, Allocate(size)) == s1;
    AloneStep(s, i, s1, Advance);
    assert Step(s1, i, Advance) == s2;
    AloneStep(s, i, s2, Advance);
    TakenBlock(s, i, s2, p, b, n);
  }

  /** From the assertion of Pop on. */
  lemma TakenBlock(s: State, i: nat, s2: State, p: nat, b: nat, n: nat)
    requires p < POOLS && CanAct(s, i, Allocate(0)) && b in s2.headers && s2.headers[b] == 0 && s.headers == s2.headers
    requires s.pools[p].free != [] && b == s.pools[p].free[0]
    requires s2 == s.(pools := s.pools[p := s.pools[p].(free := s.pools[p].free[1..])], place := s.place[b := Hand(i)],
                      threads := s.threads[i := Verify(p, b, n)])
    requires Alone(s, i, Step(s2, i, Advance))
    ensures Alone(s, i, Served(s, p, b, n, s.pools[p].free[1..], s.pools[p].reservedCount - 1))
  {
    var pool := Pool(s.pools[p].free[1..], s.pools[p].useCount, s.pools[p].reservedCount - 1);
    var s3 := At(s2, i, Unreserve(p, b, n));
    assert Step(s2, i, Advance) == s3;
    var s4 := s3.(pools := s.pools[p := pool], threads := s.threads[i := CountUse(p, b, n)]);
    hide Alone;
    assert s2.pools[p] == s.pools[p].(free := s.pools[p].free[1..]);
    assert s2.pools[p := pool] == s.pools[p := pool];
    AloneStep(s, i, s3, Advance);
    assert Step(s3, i, Advance) == s4;
    Attached(s, i, s4, p, b, n, pool);
    assert s.place[b := Hand(i)][b := Live(p)] == s.place[b := Live(p)];
  }

  /** With nothing on the pool's list it makes a block. */
  lemma AllocateMakes(s: State, i: nat, size: nat, p: nat)
    requires Inv(s) && CanAct(s, i, Allocate(size)) && Table(size + HEADER) == Some(p) && p < POOLS && s.pools[p].free == []
    ensures Alone(s, i, Served(s, p, s.next, size + HEADER, [], s.pools[p].reservedCount).(next := s.next + 1))
  {
    AloneStart(s, i);
    TableIsLeastClass(size + HEADER, p);
    var n, b := size + HEADER, s.next;
    var s1 := At(s, i, Pop(p, n));
    var s2 := s.(headers := s.headers[b := 0], place := s.place[b := Hand(i)], next := b + 1,
                 threads := s.threads[i := CountUse(p, b, n)]);
    hide Inv, Alone, Table;
    AloneStep(s, i, s, Allocate(size));
    assert Step(s, i, Allocate(size)) == s1;
    AloneStep(s, i, s1, Advance);
    assert Step(s1, i, Advance) == s2;
    assert s.pools == s.pools[p := s.pools[p]];
    Attached(s, i, s2, p, b, n, s.pools[p]);
    assert s.place[b := Hand(i)][b := Live(p)] == s.place[b := Live(p)] && s.headers[b := 0][b := n] == s.headers[b := n];
  }

  /** Above MAX_ALLOC_SIZE the heap serves, and takes back, without any pool. */
  lemma LargeBlocks(s: State, i: nat, size: nat)
    requires Inv(s) && CanAct(s, i, Allocate(size)) && size + HEADER > MAX_ALLOC_SIZE
    ensures var large := s.(headers := s.headers[s.next := size + HEADER], place := s.place[s.next := Large], next := s.next + 1);
            Alone(s, i, large) && Alone(s, i, large.(place := s.place[s.next := Gone]))
  {
    AloneStart(s, i);
    var large := s.(headers := s.headers[s.next := size + HEADER], place := s.place[s.next := Large], next := s.next + 1);
    hide Inv, Alone;
    AloneStep(s, i, s, Allocate(size));
    AloneStep(s, i, large, Release(s.next));
    assert s.place[s.next := Large][s.next := Gone] == s.place[s.next := Gone];
  }

  /** Release puts a block on top of the list of the pool it came from, with a cleared header, and moves both
      counters. */
  lemma ReleaseGivesBack(s: State, i: nat, b: nat, p: nat)
    requires Inv(s) && CanAct(s, i, Release(b)) && s.place[b] == Live(p) && p < POOLS
    ensures var pool := s.pools[p];
            Alone(s, i, s.(pools := s.pools[p := Pool([b] + pool.free, pool.useCount - 1, pool.reservedCount + 1)],
                           headers := s.headers[b := 0], place := s.place[b := Free(p)]))
  {
    AloneStart(s, i);
    assert BlockOk(s, b);
    TableIsLeastClass(s.headers[b], p);
    var s1 := s.(place := s.place[b := Hand(i)], threads := s.threads[i := Detach(b, p)]);
    var s2 := At(s1, i, Clear(p, b, p));
    var s3 := At(s2.(headers := s.headers[b := 0]), i, Push(p, b, p));
    hide Inv, Alone, Table;
    AloneStep(s, i, s, Release(b));
    assert Step(s, i, Release(b)) == s1;
    AloneStep(s, i, s1, Advance);
    assert Step(s1, i, Advance) == s2;
    AloneStep(s, i, s2, Advance);
    assert Step(s2, i, Advance) == s3;
    Listed(s, i, s3, p, b);
  }

  /** MemoryPool::Push from the list on. */
  lemma Listed(s: State, i: nat, mid: State, p: nat, b: nat)
    requires i < |s.threads| && s.threads[i].Idle? && |s.pools| == POOLS && p < POOLS && !mid.crashed && Alone(s, i, mid)
    requires mid.pools == s.pools && mid.threads == s.threads[i := Push(p, b, p)] && mid.place == s.place[b := Hand(i)]
    ensures var pool := s.pools[p];
            Alone(s, i, mid.(pools := s.pools[p := Pool([b] + pool.free, pool.useCount - 1, pool.reservedCount + 1)],
                             threads := s.threads, place := s.place[b := Free(p)]))
  {
    var pool := s.pools[p].(free := [b] + s.pools[p].free);
    var m1 := mid.(pools := s.pools[p := pool], place := s.place[b := Free(p)], threads := s.threads[i := DropUse(p)]);
    hide Alone;
    assert s.place[b := Hand(i)][b := Free(p)] == s.place[b := Free(p)];
    AloneStep(s, i, mid, Advance);
    assert Step(mid, i, Advance) == m1;
    var m2 := m1.(pools := s.pools[p := pool.(useCount := pool.useCount - 1)], threads := s.threads[i := Reserve(p)]);
    AloneStep(s, i, m1, Advance);
    assert Step(m1, i, Advance) == m2;
    AloneStep(s, i, m2, Advance);
    assert m2.pools[p] == pool.(useCount := pool.useCount - 1) && m2.threads[i := Idle] == s.threads;
    var last := pool.(useCount := pool.useCount - 1, reservedCount := pool.reservedCount + 1);
    assert m2.pools[p := last] == s.pools[p := last];
  }

  /** Step by step, in every run: a block is made when an Allocate finds its pool's list empty or asks for more
      than MAX_ALLOC_SIZE, and only then. */
  lemma MakesBlockIff(start: State, trace: seq<(nat, Action)>, end: State, i: nat, a: Action)
    requires Start(start) && Run(start, trace, end) && CanAct(end, i, a)
    ensures Step(end, i, a).next != end.next <==>
            if a.Allocate? then a.size + HEADER > MAX_ALLOC_SIZE
            else a.Advance? && end.threads[i].Pop? && end.pools[end.threads[i].pool].free == []
    ensures Step(end, i, a).next != end.next ==> Step(end, i, a).place.Keys == end.place.Keys + {end.next}
    ensures Step(end, i, a).next == end.next ==> Step(end, i, a).place.Keys == end.place.Keys
  {
    hide Run, CountsOk, ListOk, BlockOk;
    StartIsInv(start);
    RunKeepsInv(start, trace, end);
    assert ThreadOk(end, i);
    if a.Advance? && end.threads[i].Pop? {
      HeadIsFree(end, end.threads[i].pool);
    }
    hide Table;
  }

  /** The end of an Allocate, of a block old or new. */
  lemma Attached(s: State, i: nat, mid: State, p: nat, b: nat, n: nat, pool: Pool)
    requires i < |s.threads| && s.threads[i].Idle? && |s.pools| == POOLS && p < POOLS && !mid.crashed && Alone(s, i, mid)
    requires mid.pools == s.pools[p := pool] && mid.threads == s.threads[i := CountUse(p, b, n)]
    ensures var counted := s.pools[p := pool.(useCount := pool.useCount + 1)];
            Alone(s, i, mid.(pools := counted, threads := s.threads, headers := mid.headers[b := n], place := mid.place[b := Live(p)]))
  {
    hide Alone;
    var m1 := mid.(pools := s.pools[p := pool.(useCount := pool.useCount + 1)], threads := s.threads[i := Attach(p, b, n)]);
    AloneStep(s, i, mid, Advance);
    assert Step(mid, i, Advance) == m1;
    AloneStep(s, i, m1, Advance);
    assert m1.threads[i := Idle] == s.threads;
  }
}
