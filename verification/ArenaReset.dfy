/**
 * Resetting an arena: the cleanups of every thread run first, then every thread's blocks are given back
 * once, and what was allocated is reported.
 */
module ArenaReset {
  import opened Options
  import Arena

  /** A block as the deallocator sees it; `ptr` 0 is null. */
  datatype Memory = Memory(ptr: nat, size: nat)

  /** One thread's arena, and where its blocks lie, oldest first. */
  datatype Thread = Thread(arena: Arena.State, addresses: seq<nat>)

  /** What a reset has done, in order. */
  datatype Event = Ran(cleanup: Arena.Cleanup) | Returned(mem: Memory)

  const POLICY: nat := 40 // sizeof(AllocationPolicy)
  const MINIMUM: nat := Arena.HEADER + Arena.SERIAL + POLICY

  function Total(blocks: seq<Memory>): nat {
    if blocks == [] then 0 else blocks[0].size + Total(blocks[1..])
  }

  /** The blocks in list order, newest first. */
  function Listed(blocks: seq<Arena.Block>, addresses: seq<nat>): (r: seq<Memory>)
    requires |addresses| == |blocks|
    ensures |r| == |blocks|
    ensures blocks != [] ==> r[|r| - 1] == Memory(addresses[0], blocks[0].size)
  {
    var n := |blocks| - 1;
    if n < 0 then [] else [Memory(addresses[n], blocks[n].size)] + Listed(blocks[..n], addresses[..n])
  }

  predicate Shaped(t: Thread) {
    t.arena.blocks != [] && |t.arena.log| == |t.arena.blocks| == |t.addresses|
  }

  /** The block the thread's arena began with. */
  function Oldest(t: Thread): Memory
    requires Shaped(t)
  {
    Memory(t.addresses[0], t.arena.blocks[0].size)
  }

  function BlocksOf(t: Thread): (r: seq<Memory>)
    requires Shaped(t)
    ensures r != [] && r[|r| - 1] == Oldest(t)
  {
    Listed(t.arena.blocks, t.addresses)
  }

  predicate AllShaped(threads: seq<Thread>) {
    forall i :: 0 <= i < |threads| ==> Shaped(threads[i])
  }

  function AllBlocks(threads: seq<Thread>): seq<Memory>
    requires AllShaped(threads)
  {
    if threads == [] then [] else BlocksOf(threads[0]) + AllBlocks(threads[1..])
  }

  /** What CleanupList runs for one thread, and for all of them. */
  function CleanupsOf(t: Thread): seq<Arena.Cleanup>
    requires Shaped(t)
  {
    Arena.CleanupsRun(t.arena, |t.arena.blocks|)
  }

  function AllCleanups(threads: seq<Thread>): seq<Arena.Cleanup>
    requires AllShaped(threads)
  {
    if threads == [] then [] else CleanupsOf(threads[0]) + AllCleanups(threads[1..])
  }

  function Rans(cleanups: seq<Arena.Cleanup>): seq<Event> { seq(|cleanups|, i requires 0 <= i < |cleanups| => Ran(cleanups[i])) }

  function Returns(blocks: seq<Memory>): seq<Event> { seq(|blocks|, i requires 0 <= i < |blocks| => Returned(blocks[i])) }

  lemma RansOfConcat(a: seq<Arena.Cleanup>, b: seq<Arena.Cleanup>)
    ensures Rans(a + b) == Rans(a) + Rans(b)
  {
  }

  lemma ReturnsOfConcat(a: seq<Memory>, b: seq<Memory>)
    ensures Returns(a + b) == Returns(a) + Returns(b)
  {
  }

  ghost predicate ThreadOk(t: Thread) {
    && Arena.Inv(t.arena) && Arena.SpaceOk(t.arena) && |t.addresses| == |t.arena.blocks|
    && forall i :: 0 <= i < |t.addresses| ==> t.addresses[i] != 0
  }

  lemma {:induction false} ListedBlocks(blocks: seq<Arena.Block>, addresses: seq<nat>)
    requires |addresses| == |blocks| && forall i :: 0 <= i < |addresses| ==> addresses[i] != 0
    ensures Total(Listed(blocks, addresses)) == Arena.Sizes(blocks)
    ensures forall i :: 0 <= i < |blocks| ==> Listed(blocks, addresses)[i].ptr != 0
  {
    if blocks != [] {
      ListedBlocks(blocks[..|blocks| - 1], addresses[..|blocks| - 1]);
    }
  }

  /** A thread's counter is the size of its blocks. */
  lemma ThreadHas(t: Thread)
    requires ThreadOk(t)
    ensures Shaped(t) && t.arena.spaceAllocated == Total(BlocksOf(t))
    ensures forall i :: 0 <= i < |BlocksOf(t)| ==> BlocksOf(t)[i].ptr != 0
  {
    ListedBlocks(t.arena.blocks, t.addresses);
  }

  /** The cleanups registered, in the order the passes should take them. */
  function AllRegistered(threads: seq<Thread>): seq<Arena.Cleanup>
    requires AllShaped(threads)
  {
    if threads == [] then [] else Arena.Reverse(Arena.Flatten(threads[0].arena.log)) + AllRegistered(threads[1..])
  }

  /** Every cleanup registered in any thread runs, last registered first, if and only if no block of any
      thread has lost its node. */
  lemma {:induction false} AllThreadsRunIff(threads: seq<Thread>)
    requires AllShaped(threads)
    ensures |AllCleanups(threads)| <= |AllRegistered(threads)|
    ensures AllCleanups(threads) == AllRegistered(threads) <==>
            forall i, j :: 0 <= i < |threads| && 0 <= j < |threads[i].arena.blocks| ==> !Arena.Lost(threads[i].arena, j)
  {
    if threads != [] {
      var s, n := threads[0].arena, |threads[0].arena.blocks|;
      hide Arena.Lost, Arena.CleanupsRun;
      Arena.AllRunIff(s, n);
      assert s.log[..n] == s.log;
      Arena.ReverseIsOnto(Arena.Flatten(s.log));
      AllThreadsRunIff(threads[1..]);
      SplitEqual(CleanupsOf(threads[0]), AllCleanups(threads[1..]), Arena.Reverse(Arena.Flatten(s.log)), AllRegistered(threads[1..]));
      assert forall i :: 0 < i < |threads| ==> threads[i] == threads[1..][i - 1];
    }
  }

  lemma SplitEqual<T>(a: seq<T>, b: seq<T>, c: seq<T>, d: seq<T>)
    requires |a| <= |c| && |b| <= |d|
    ensures a + b == c + d <==> a == c && b == d
  {
    if a + b == c + d {
      assert a == (a + b)[..|a|] && b == (a + b)[|a|..];
      assert c == (c + d)[..|c|] && d == (c + d)[|c|..];
    }
  }

  lemma {:induction false} TotalOfConcat(a: seq<Memory>, b: seq<Memory>)
    ensures Total(a + b) == Total(a) + Total(b)
  {
    if a == [] {
      assert a + b == b;
    } else {
      assert (a + b)[1..] == a[1..] + b;
      TotalOfConcat(a[1..], b);
    }
  }

  lemma SplitLast(blocks: seq<Memory>)
    requires blocks != []
    ensures Total(blocks) == Total(blocks[..|blocks| - 1]) + blocks[|blocks| - 1].size
  {
    var n := |blocks| - 1;
    assert blocks == blocks[..n] + [blocks[n]];
    TotalOfConcat(blocks[..n], [blocks[n]]);
    assert [blocks[n]][1..] == [];
  }

  lemma AllBlocksFrom(threads: seq<Thread>, i: nat)
    requires AllShaped(threads) && i < |threads|
    ensures AllBlocks(threads[i..]) == BlocksOf(threads[i]) + AllBlocks(threads[i + 1..])
  {
    assert threads[i..][1..] == threads[i + 1..];
  }

  lemma AllCleanupsFrom(threads: seq<Thread>, i: nat)
    requires AllShaped(threads) && i < |threads|
    ensures AllCleanups(threads[i..]) == CleanupsOf(threads[i]) + AllCleanups(threads[i + 1..])
  {
    assert threads[i..][1..] == threads[i + 1..];
  }

  lemma AllBlocksEnds(threads: seq<Thread>)
    requires AllShaped(threads)
    ensures AllBlocks(threads[0..]) == AllBlocks(threads) && AllBlocks(threads[|threads|..]) == []
  {
    assert threads[0..] == threads;
  }

  lemma AllCleanupsEnds(threads: seq<Thread>)
    requires AllShaped(threads)
    ensures AllCleanups(threads[0..]) == AllCleanups(threads) && AllCleanups(threads[|threads|..]) == []
  {
    assert threads[0..] == threads;
  }

  /** A thread's arena set up in its first block, with the policy kept in it if there is one. */
  function SetUp(mem: Memory, policy: Option<Arena.Policy>): Thread
    requires mem.size >= Arena.HEADER + Arena.SERIAL
  {
    Thread(if policy.Some? then Arena.Take(Arena.Start(mem.size), POLICY) else Arena.Start(mem.size), [mem.ptr])
  }

  /** The room a block needs to be the first. */
  function Least(policy: Option<Arena.Policy>): nat { if policy.Some? then MINIMUM else Arena.HEADER + Arena.SERIAL }

  /** The arena as it is first set up: in the block given, or in a new one at `address` if it must hold a
      policy, or with no thread at all. */
  function Begun(given: Option<Memory>, policy: Option<Arena.Policy>, address: nat): seq<Thread>
    requires given.Some? ==> given.value.size >= Least(policy)
  {
    match (given, policy)
    case (Some(mem), _) => [SetUp(mem, policy)]
    case (None, Some(p)) => [SetUp(Memory(address, Arena.BlockSize(p, 0, MINIMUM)), policy)]
    case (None, None) => []
  }

  /** A new first block is as large as the policy starts with, but at least 144 bytes: a header for the block, and
      what InitializeWithPolicy asks for, which counts the header once more. */
  lemma FirstBlockSize(p: Arena.Policy)
    ensures Arena.BlockSize(p, 0, MINIMUM) == if p.startBlockSize < 144 then 144 else p.startBlockSize
  {
  }

  lemma SetUpIsOk(mem: Memory, policy: Option<Arena.Policy>)
    requires mem.ptr != 0 && mem.size >= Least(policy)
    ensures var t := SetUp(mem, policy);
            ThreadOk(t) && Shaped(t) && Oldest(t) == mem && AllBlocks([t]) == [mem]
  {
    var start, t := Arena.Start(mem.size), SetUp(mem, policy);
    StartIsOk(mem.size);
    assert t.arena.blocks == start.blocks && t.arena.log == start.log;
    assert t.arena.blocks[..0] == [] && t.addresses[..0] == [] && [t][1..] == [];
    if policy.Some? {
      assert Arena.HasSpace(start, POLICY);
      hide Arena.Inv, Arena.SpaceOk, Arena.HasSpace;
      Arena.TakeKeeps(start, POLICY);
      Arena.TakeKeepsSpace(start, POLICY);
    }
    hide Arena.Inv, Arena.SpaceOk;
  }

  lemma StartIsOk(size: nat)
    requires size >= Arena.HEADER + Arena.SERIAL
    ensures Arena.Inv(Arena.Start(size)) && Arena.SpaceOk(Arena.Start(size))
  {
    Arena.StartIsOk(size);
    assert Arena.Sizes(Arena.Start(size).blocks) == size by {
      assert Arena.Start(size).blocks[..0] == [];
    }
  }

  /** Where Free stands before the `i`-th thread: `mem` is held, and what has been returned and counted since
      the history was `before` and the count `total`, with what is to come, is all of it. */
  ghost predicate Freed(threads: seq<Thread>, i: nat, before: seq<Event>, now: seq<Event>, mem: Memory, total: nat, sum: nat) {
    && AllShaped(threads) && i <= |threads|
    && (if i == 0 then mem == Memory(0, 0) && now == before && sum == total
        else mem.ptr != 0 && mem == Oldest(threads[i - 1]))
    && now + (if i == 0 then [] else [Returned(mem)]) + Returns(AllBlocks(threads[i..])) == before + Returns(AllBlocks(threads))
    && sum + mem.size + Total(AllBlocks(threads[i..])) == total + Total(AllBlocks(threads))
  }

  lemma FreedNone(threads: seq<Thread>, before: seq<Event>, total: nat)
    requires AllShaped(threads)
    ensures Freed(threads, 0, before, before, Memory(0, 0), total, total)
  {
    AllBlocksEnds(threads);
    hide AllBlocks;
  }

  lemma HeldHasSize(threads: seq<Thread>, i: nat, before: seq<Event>, now: seq<Event>, mem: Memory, total: nat, sum: nat)
    requires Freed(threads, i, before, now, mem, total, sum)
    ensures if mem.ptr == 0 then i == 0 && mem.size == 0 else i > 0
  {
    hide Returns, Total, AllBlocks;
  }

  lemma FreedNext(threads: seq<Thread>, i: nat, before: seq<Event>, now: seq<Event>, held: Memory, total: nat, sum: nat,
                  after: seq<Event>, mem: Memory, sumAfter: nat)
    requires Freed(threads, i, before, now, held, total, sum) && i < |threads| && (held.ptr == 0 <==> i == 0)
    requires mem == Oldest(threads[i]) && mem.ptr != 0
    requires after + [Returned(mem)] == now + (if i == 0 then [] else [Returned(held)]) + Returns(BlocksOf(threads[i]))
    requires sumAfter + mem.size == sum + held.size + Total(BlocksOf(threads[i]))
    ensures Freed(threads, i + 1, before, after, mem, total, sumAfter)
  {
    var blocks, rest := BlocksOf(threads[i]), AllBlocks(threads[i + 1..]);
    AllBlocksFrom(threads, i);
    TotalOfConcat(blocks, rest);
    ReturnsOfConcat(blocks, rest);
    Arena.Append(now + if i == 0 then [] else [Returned(held)], Returns(blocks), Returns(rest));
    hide Shaped, Oldest, BlocksOf, AllBlocks, Returns, Total;
  }

  class ThreadSafeArena {
    var threads: seq<Thread>            // threads_, most recently added first
    var policy: Option<Arena.Policy>    // AllocPolicy()
    var userOwnsInitialBlock: bool      // kUserOwnedInitialBlock
    var history: seq<Event>             // the cleanups run and what the deallocator was given, in order

    ghost predicate Valid()
      reads this
    {
      && (forall i :: 0 <= i < |threads| ==> ThreadOk(threads[i]))
      && (userOwnsInitialBlock ==> threads != [] && Initial().size >= Least(policy))
    }

    /** The block the arena began with, the last of the last thread's list. */
    function Initial(): Memory
      reads this
      requires threads != [] && Shaped(threads[|threads| - 1])
    {
      Oldest(threads[|threads| - 1])
    }

    method SpaceAllocated() returns (res: nat)
      requires Valid()
      ensures AllShaped(threads) && res == Total(AllBlocks(threads))
    {
      hide ThreadOk, Shaped;
      AreShaped(threads);
      res := 0;
      for i := 0 to |threads|
        invariant res + Total(AllBlocks(threads[i..])) == Total(AllBlocks(threads))
      {
        var serial := threads[i];
        ThreadHas(serial);
        AllBlocksFrom(threads, i);
        TotalOfConcat(BlocksOf(serial), AllBlocks(threads[i + 1..]));
        res := res + serial.arena.spaceAllocated;
      }
    }

    /** GetDeallocator */
    method Deallocate(mem: Memory, total: nat) returns (sum: nat)
      modifies this`history
      ensures history == old(history) + [Returned(mem)] && sum == total + mem.size
    {
      history := history + [Returned(mem)];
      sum := total + mem.size;
    }

    /** SerialArena::Free: every block but the oldest goes back; the oldest is the caller's to decide. */
    method FreeSerial(blocks: seq<Memory>, total: nat) returns (mem: Memory, sum: nat)
      requires blocks != []
      modifies this`history
      ensures mem == blocks[|blocks| - 1]
      ensures history == old(history) + Returns(blocks[..|blocks| - 1])
      ensures sum + mem.size == total + Total(blocks)
    {
      mem, sum := blocks[0], total;
      for i := 1 to |blocks|
        invariant mem == blocks[i - 1]
        invariant history == old(history) + Returns(blocks[..i - 1])
        invariant sum == total + Total(blocks[..i - 1])
      {
        assert blocks[..i][..i - 1] == blocks[..i - 1];
        SplitLast(blocks[..i]);
        sum := Deallocate(mem, sum);
        assert Returns(blocks[..i]) == Returns(blocks[..i - 1]) + [Returned(mem)];
        mem := blocks[i];
      }
      SplitLast(blocks);
    }

    /** One step over the threads: the block held from the thread before goes back first. */
    method FreeNext(blocks: seq<Memory>, held: Memory, total: nat) returns (mem: Memory, sum: nat)
      requires blocks != [] && (held.ptr == 0 ==> held.size == 0)
      modifies this`history
      ensures mem == blocks[|blocks| - 1]
      ensures history + [Returned(mem)] == old(history) + (if held.ptr == 0 then [] else [Returned(held)]) + Returns(blocks)
      ensures sum + mem.size == total + held.size + Total(blocks)
    {
      sum := total;
      if held.ptr != 0 {
        sum := Deallocate(held, sum);
      }
      mem, sum := FreeSerial(blocks, sum);
      assert Returns(blocks) == Returns(blocks[..|blocks| - 1]) + [Returned(mem)];
    }

    /** Every thread's blocks go back but the initial one, which is handed to the caller. */
    method Free(total: nat) returns (mem: Memory, sum: nat)
      requires Valid()
      modifies this`history
      ensures AllShaped(threads)
      ensures threads == [] ==> mem == Memory(0, 0) && sum == total && history == old(history)
      ensures threads != [] ==> mem == Initial() && mem.ptr != 0
      ensures threads != [] ==> history + [Returned(mem)] == old(history) + Returns(AllBlocks(threads))
      ensures sum + mem.size == total + Total(AllBlocks(threads))
    {
      AreShaped(threads);
      FreedNone(threads, history, total);
      mem, sum := Memory(0, 0), total;
      for i := 0 to |threads|
        invariant Freed(threads, i, old(history), history, mem, total, sum)
      {
        hide ThreadOk, Freed, Returns, Total;
        ThreadHas(threads[i]);
        HeldHasSize(threads, i, old(history), history, mem, total, sum);
        ghost var held, now, subtotal := mem, history, sum;
        mem, sum := FreeNext(BlocksOf(threads[i]), mem, sum);
        FreedNext(threads, i, old(history), now, held, total, subtotal, history, mem, sum);
      }
      AllBlocksEnds(threads);
      assert Returns([]) == [] && Total([]) == 0;
    }

    /** The first pass: the cleanups of every thread, in list order; what CleanupList runs for one thread
        is what SerialArenas proves of it. */
    method CleanupList()
      requires Valid()
      modifies this`history
      ensures AllShaped(threads) && history == old(history) + Rans(AllCleanups(threads))
    {
      AreShaped(threads);
      AllCleanupsEnds(threads);
      assert Rans([]) == [];
      hide ThreadOk, CleanupsOf, AllCleanups, Shaped, Rans;
      for i := 0 to |threads|
        invariant history + Rans(AllCleanups(threads[i..])) == old(history) + Rans(AllCleanups(threads))
      {
        ghost var ran, rest := CleanupsOf(threads[i]), AllCleanups(threads[i + 1..]);
        AllCleanupsFrom(threads, i);
        RansOfConcat(ran, rest);
        Arena.Append(history, Rans(ran), Rans(rest));
        history := history + Rans(CleanupsOf(threads[i]));
      }
    }

    /** The first half of Reset, with the user's block, if there is one, for the second. */
    method CleanAndFree() returns (mem: Memory, total: nat)
      requires Valid()
      modifies this`history
      ensures AllShaped(threads) && total == Total(AllBlocks(threads))
      ensures mem == if userOwnsInitialBlock then Initial() else Memory(0, 0)
      ensures userOwnsInitialBlock ==> mem.ptr != 0
      ensures var all := old(history) + Rans(AllCleanups(threads)) + Returns(AllBlocks(threads));
              && (userOwnsInitialBlock ==> history + [Returned(mem)] == all)
              && (!userOwnsInitialBlock && threads != [] ==> history == all)
    {
      AreShaped(threads);
      hide ThreadOk, AllCleanups, AllBlocks, Returns, Rans, Total, Shaped, Oldest;
      CleanupList();
      mem, total := Free(0);
      if userOwnsInitialBlock {
        total := total + mem.size;
      } else {
        total := Deallocate(mem, total);
        mem := Memory(0, 0);
      }
    }

    /** Reset runs the cleanups of all threads before anything goes back, gives every block back once, but
        never the user's, reports exactly what SpaceAllocated reported before it, and leaves the arena as
        it was first set up. */
    method Reset(address: nat) returns (total: nat)
      requires Valid() && address != 0
      modifies this
      ensures policy == old(policy) && userOwnsInitialBlock == old(userOwnsInitialBlock)
      ensures Valid() && AllShaped(old(threads)) && AllShaped(threads)
      ensures total == Total(AllBlocks(old(threads)))
      ensures old(userOwnsInitialBlock) ==>
                && history + [Returned(old(Initial()))]
                   == old(history) + Rans(AllCleanups(old(threads))) + Returns(AllBlocks(old(threads)))
                && threads == Begun(Some(old(Initial())), policy, address)
      ensures !old(userOwnsInitialBlock) && old(threads) != [] ==>
                history == old(history) + Rans(AllCleanups(old(threads))) + Returns(AllBlocks(old(threads)))
      ensures !old(userOwnsInitialBlock) ==> threads == Begun(None, policy, address)
    {
      hide ThreadOk, AllShaped, AllCleanups, AllBlocks, Returns, Rans, Total, Shaped, SetUp, Oldest, Arena.BlockSize;
      var mem;
      mem, total := CleanAndFree();
      Reinitialize(mem, address);
    }

    /** The second half. */
    method Reinitialize(mem: Memory, address: nat)
      requires address != 0
      requires if userOwnsInitialBlock then mem.ptr != 0 && mem.size >= Least(policy) else mem == Memory(0, 0)
      modifies this`threads, this`userOwnsInitialBlock
      ensures Valid() && AllShaped(threads) && userOwnsInitialBlock == old(userOwnsInitialBlock)
      ensures threads == Begun(if userOwnsInitialBlock then Some(mem) else None, policy, address)
    {
      assert policy.Some? ==> Arena.BlockSize(policy.value, 0, MINIMUM) >= MINIMUM;
      hide ThreadOk, Shaped, SetUp, Oldest, Arena.BlockSize;
      if policy.Some? {
        InitializeWithPolicy(mem, address);
      } else if userOwnsInitialBlock {
        InitializeFrom(mem);
      } else {
        threads := [];
      }
      if policy.Some? || userOwnsInitialBlock {
        SetUpIsOk(if userOwnsInitialBlock then mem else Memory(address, Arena.BlockSize(policy.value, 0, MINIMUM)), policy);
        assert AllShaped([threads[0]]);
      }
    }

    /** Called where there is no policy. */
    method InitializeFrom(mem: Memory)
      requires policy.None?
      modifies this`threads, this`userOwnsInitialBlock
      ensures mem.ptr != 0 && mem.size >= Arena.HEADER + Arena.SERIAL ==>
                userOwnsInitialBlock && threads == [SetUp(mem, None)]
      ensures !(mem.ptr != 0 && mem.size >= Arena.HEADER + Arena.SERIAL) ==>
                userOwnsInitialBlock == old(userOwnsInitialBlock) && threads == []
    {
      threads := [];
      if mem.ptr != 0 && mem.size >= Arena.HEADER + Arena.SERIAL {
        userOwnsInitialBlock := true;
        threads := [Thread(Arena.Start(mem.size), [mem.ptr])];
      }
    }

    /** Without a big enough initial block, a new one at the address `address` holds the policy. */
    method InitializeWithPolicy(mem: Memory, address: nat)
      requires policy.Some?
      modifies this`threads, this`userOwnsInitialBlock
      ensures userOwnsInitialBlock <==> mem.ptr != 0 && mem.size >= MINIMUM
      ensures var first := if userOwnsInitialBlock then mem else Memory(address, Arena.BlockSize(policy.value, 0, MINIMUM));
              threads == [SetUp(first, policy)]
    {
      var first := mem;
      userOwnsInitialBlock := mem.ptr != 0 && mem.size >= MINIMUM;
      if !userOwnsInitialBlock {
        first := Memory(address, Arena.BlockSize(policy.value, 0, MINIMUM));
      }
      threads := [Thread(Arena.Take(Arena.Start(first.size), POLICY), [first.ptr])];
    }
  }

  lemma AreShaped(threads: seq<Thread>)
    requires forall i :: 0 <= i < |threads| ==> ThreadOk(threads[i])
    ensures AllShaped(threads)
  {
  }
}
