/**
 * The arena as the code runs it: the fast paths and their fallbacks, the cleanup pass, and the freeing
 * of every thread's blocks.
 */
module SerialArenas {
  import opened Arena

  class SerialArena {
    var blocks: seq<Block> // head_ and the list behind it, oldest first
    var ptr: nat
    var limit: nat
    var spaceUsed: int
    var spaceAllocated: nat
    ghost var objects: seq<Slice>
    ghost var log: seq<seq<Cleanup>>

    ghost function S(): State
      reads this
    {
      State(blocks, ptr, limit, spaceUsed, spaceAllocated, objects, log)
    }

    constructor (size: nat)
      requires size >= HEADER + SERIAL
      ensures S() == Start(size)
    {
      blocks, ptr, limit := [Block(size, 0, map[])], HEADER + SERIAL, Mask8(size);
      spaceUsed, spaceAllocated := 0, size;
      objects, log := [], [[]];
    }

    method AllocateNewBlock(n: nat, policy: Policy)
      requires blocks != []
      modifies this
      ensures S() == NewBlock(old(S()), n, policy)
    {
      var head := blocks[|blocks| - 1];
      blocks := blocks[|blocks| - 1 := head.(start := limit)];
      spaceUsed := spaceUsed + ptr - HEADER;
      var size := BlockSize(policy, head.size, n);
      spaceAllocated := spaceAllocated + size;
      blocks := blocks + [Block(size, 0, map[])];
      ptr, limit := HEADER, size;
      log := log + [[]];
    }

    /** The fallback makes room and tries again; the second try does not fall back. */
    method AllocateAligned(n: nat, policy: Policy) returns (at: Slice)
      requires Inv(S())
      modifies this
      ensures S() == Take(Room(old(S()), n, policy), n)
      ensures objects == old(objects) + [at]
      decreases if ptr + n <= limit then 0 else 2
    {
      if !(ptr + n <= limit) {
        at := AllocateAlignedFallback(n, policy);
      } else {
        at := Slice(|blocks| - 1, ptr, n);
        ptr := ptr + n;
        objects := objects + [at];
      }
    }

    method AllocateAlignedFallback(n: nat, policy: Policy) returns (at: Slice)
      requires Inv(S()) && !HasSpace(S(), n)
      modifies this
      ensures S() == Take(NewBlock(old(S()), n, policy), n)
      ensures objects == old(objects) + [at]
      decreases 1
    {
      NewBlockKeeps(S(), n, policy);
      AllocateNewBlock(n, policy);
      at := AllocateAligned(n, policy);
    }

    /** Callers fill the node they are given at once; here the cleanup is passed along. */
    method AllocateAlignedWithCleanup(n: nat, c: Cleanup, policy: Policy) returns (at: Slice)
      requires Inv(S())
      modifies this
      ensures S() == Step(old(S()), WithCleanup(n, c), policy)
      ensures objects == old(objects) + [at]
      decreases if ptr + n + CLEANUP <= limit then 0 else 2
    {
      if !(ptr + n + CLEANUP <= limit) {
        at := AllocateAlignedWithCleanupFallback(n, c, policy);
      } else {
        at := Slice(|blocks| - 1, ptr, n);
        ptr := ptr + n;
        objects := objects + [at];
        limit := limit - CLEANUP;
        var head := blocks[|blocks| - 1];
        blocks := blocks[|blocks| - 1 := head.(nodes := head.nodes[limit := c])];
        log := log[|blocks| - 1 := log[|blocks| - 1] + [c]];
      }
    }

    method AllocateAlignedWithCleanupFallback(n: nat, c: Cleanup, policy: Policy) returns (at: Slice)
      requires Inv(S()) && !HasSpace(S(), n + CLEANUP)
      modifies this
      ensures S() == Step(old(S()), WithCleanup(n, c), policy)
      ensures objects == old(objects) + [at]
      decreases 1
    {
      NewBlockKeeps(S(), n + CLEANUP, policy);
      AllocateNewBlock(n + CLEANUP, policy);
      at := AllocateAlignedWithCleanup(n, c, policy);
    }

    method AddCleanup(c: Cleanup, policy: Policy)
      requires Inv(S())
      modifies this
      ensures S() == Step(old(S()), WithCleanup(0, c), policy)
    {
      var at := AllocateAlignedWithCleanup(0, c, policy);
    }

    /** Runs the nodes of every block, newest block first. */
    method CleanupList() returns (ran: seq<Cleanup>)
      requires Inv(S())
      modifies this`blocks
      ensures ran == CleanupsRun(old(S()), |old(blocks)|)
    {
      hide ObjectOk, NodesAre, Reverse;
      ghost var s := S();
      var i := |blocks| - 1;
      blocks := blocks[i := blocks[i].(start := limit)];
      ran := [];
      while i >= 0
        invariant -1 <= i < |blocks|
        invariant blocks == s.blocks[|s.blocks| - 1 := s.blocks[|s.blocks| - 1].(start := limit)]
        invariant ran + CleanupsRun(s, i + 1) == CleanupsRun(s, |s.blocks|)
      {
        assert BlockOk(s, i);
        var ranHere := RunBlock(blocks[i], Top(s, i), s.log[i]);
        Append(ran, ranHere, CleanupsRun(s, i));
        ran := ran + ranHere;
        i := i - 1;
      }
    }
  }

  /** Pointer subtraction: the distance in whole nodes, towards zero. */
  function Nodes(from: nat, to: nat): int {
    if from <= to then (to - from) / CLEANUP else -((from - to) / CLEANUP)
  }

  /** CleanupList's work on one block: every node, last registered first, unless the block's nodes end
      above its rounded end and there is only one. */
  method RunBlock(b: Block, ghost top: nat, ghost log: seq<Cleanup>) returns (ran: seq<Cleanup>)
    requires b.start + CLEANUP * |log| == top && NodesAre(b.nodes, top, log)
    requires top == b.size || top == Mask8(b.size)
    ensures ran == if top % 8 != 0 && |log| == 1 then [] else Reverse(log)
  {
    ReverseIsOnto(log);
    var limit := Mask8(b.size);
    var it: nat := b.start;
    ran := [];
    if Nodes(it, limit) > 0 {
      ghost var j := 0;
      while it < limit
        invariant 0 <= j <= |log| && it == b.start + CLEANUP * j
        invariant ran == Reverse(log)[..j]
      {
        assert NodeIs(b.nodes, top - CLEANUP * ((|log| - 1 - j) + 1), log[|log| - 1 - j]);
        ran := ran + [b.nodes[it]];
        it := it + CLEANUP;
        j := j + 1;
      }
    }
  }
}
