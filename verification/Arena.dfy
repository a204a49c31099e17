/**
 * One thread's arena: blocks in a list, objects growing up from the start of the newest block,
 * cleanup nodes growing down from its end.
 *
 * Addresses are offsets from the start of a block.  Blocks are listed oldest first; the source links
 * them newest first, `head_` being the newest.
 */
module Arena {
  const HEADER: nat := 24  // kBlockHeaderSize
  const CLEANUP: nat := 16 // kCleanupSize
  const SERIAL: nat := 56  // kSerialArenaSize, kept at the start of the first block

  datatype Policy = Policy(startBlockSize: nat, maxBlockSize: nat)
  datatype Cleanup = Cleanup(elem: nat, cleanup: nat)
  datatype Slice = Slice(block: nat, from: nat, len: nat)

  /** A block: its size, the synced limit in its header, and the cleanup nodes written in it. */
  datatype Block = Block(size: nat, start: nat, nodes: map<nat, Cleanup>)

  /** The fields of the arena, and what has been asked of it: every slice handed out, in order, and
      the cleanups registered in each block, in order. */
  datatype State = State(blocks: seq<Block>, ptr: nat, limit: nat, spaceUsed: int, spaceAllocated: nat,
                         objects: seq<Slice>, log: seq<seq<Cleanup>>)
  {
    function Head(): nat
      requires blocks != []
    {
      |blocks| - 1
    }
  }

  /** n & -8 */
  function Mask8(n: nat): nat { n - n % 8 }

  function Min(a: nat, b: nat): nat { if a < b then a else b }
  function Max(a: nat, b: nat): nat { if a < b then b else a }

  /** AllocateMemory's choice of size. */
  function BlockSize(policy: Policy, last: nat, min: nat): nat {
    Max(if last != 0 then Min(2 * last, policy.maxBlockSize) else policy.startBlockSize, HEADER + min)
  }

  function Start(size: nat): State
    requires size >= HEADER + SERIAL
  {
    State([Block(size, 0, map[])], HEADER + SERIAL, Mask8(size), 0, size, [], [[]])
  }

  predicate HasSpace(s: State, n: nat) { s.ptr + n <= s.limit }

  function NewBlock(s: State, n: nat, policy: Policy): State
    requires s.blocks != []
  {
    var head := s.blocks[s.Head()];
    var size := BlockSize(policy, head.size, n);
    State(s.blocks[s.Head() := head.(start := s.limit)] + [Block(size, 0, map[])],
          HEADER, size, s.spaceUsed + s.ptr - HEADER, s.spaceAllocated + size, s.objects, s.log + [[]])
  }

  /** The state from which `n` bytes can be taken. */
  function Room(s: State, n: nat, policy: Policy): State
    requires s.blocks != []
  {
    if HasSpace(s, n) then s else NewBlock(s, n, policy)
  }

  function Take(s: State, n: nat): State
    requires s.blocks != []
  {
    s.(ptr := s.ptr + n, objects := s.objects + [Slice(s.Head(), s.ptr, n)])
  }

  function Register(s: State, c: Cleanup): State
    requires s.blocks != [] && |s.log| == |s.blocks| && CLEANUP <= s.limit
  {
    var at := s.limit - CLEANUP;
    var head := s.blocks[s.Head()];
    s.(limit := at,
       blocks := s.blocks[s.Head() := head.(nodes := head.nodes[at := c])],
       log := s.log[s.Head() := s.log[s.Head()] + [c]])
  }

  // ---- The invariant ------------------------------------------------------------------------

  /** Where a block's contents may begin, and where its cleanup nodes end. */
  function Low(i: nat): nat { if i == 0 then HEADER + SERIAL else HEADER }

  function Top(s: State, i: nat): nat
    requires i < |s.blocks|
  {
    if i == 0 then Mask8(s.blocks[0].size) else s.blocks[i].size
  }

  /** Where the block's objects end at the latest, and where its nodes begin. */
  function ObjectsTo(s: State, i: nat): nat
    requires i < |s.blocks|
  {
    if i == s.Head() then s.ptr else s.blocks[i].start
  }

  function NodesFrom(s: State, i: nat): nat
    requires i < |s.blocks|
  {
    if i == s.Head() then s.limit else s.blocks[i].start
  }

  /** The j-th cleanup registered lies j + 1 nodes below the top. */
  ghost predicate NodeIs(nodes: map<nat, Cleanup>, at: int, c: Cleanup) {
    at in nodes && nodes[at] == c
  }

  ghost predicate NodesAre(nodes: map<nat, Cleanup>, top: nat, log: seq<Cleanup>) {
    forall j :: 0 <= j < |log| ==> NodeIs(nodes, top - CLEANUP * (j + 1), log[j])
  }

  lemma NodesGrow(nodes: map<nat, Cleanup>, top: nat, log: seq<Cleanup>, c: Cleanup)
    requires NodesAre(nodes, top, log) && CLEANUP * (|log| + 1) <= top
    ensures NodesAre(nodes[top - CLEANUP * (|log| + 1) := c], top, log + [c])
  {
    var after := nodes[top - CLEANUP * (|log| + 1) := c];
    forall j | 0 <= j < |log| + 1
      ensures NodeIs(after, top - CLEANUP * (j + 1), (log + [c])[j])
    {
      assert j < |log| ==> NodeIs(nodes, top - CLEANUP * (j + 1), log[j]);
    }
  }

  ghost predicate BlockOk(s: State, i: nat)
    requires i < |s.blocks| && |s.log| == |s.blocks|
  {
    && Low(i) <= ObjectsTo(s, i) <= NodesFrom(s, i)
    && NodesFrom(s, i) + CLEANUP * |s.log[i]| == Top(s, i)
    && NodesAre(s.blocks[i].nodes, Top(s, i), s.log[i])
  }

  ghost predicate ObjectOk(s: State, o: Slice) {
    o.block < |s.blocks| && Low(o.block) <= o.from && o.from + o.len <= ObjectsTo(s, o.block) && o.from % 8 == 0
  }

  ghost predicate Inv(s: State) {
    && s.blocks != [] && |s.log| == |s.blocks|
    && (forall i :: 0 <= i < |s.blocks| ==> BlockOk(s, i))
    && s.ptr % 8 == 0
    && (forall k :: 0 <= k < |s.objects| ==> ObjectOk(s, s.objects[k]))
    && (forall k, l :: 0 <= k < l < |s.objects| && s.objects[k].block == s.objects[l].block ==>
          s.objects[k].from + s.objects[k].len <= s.objects[l].from)
  }

  lemma StartIsOk(size: nat)
    requires size >= HEADER + SERIAL
    ensures Inv(Start(size))
  {
  }

  lemma TakeKeeps(s: State, n: nat)
    requires Inv(s) && HasSpace(s, n) && n % 8 == 0
    ensures Inv(Take(s, n))
  {
    var t := Take(s, n);
    forall i | 0 <= i < |t.blocks|
      ensures BlockOk(t, i)
    {
      assert BlockOk(s, i);
    }
    forall k | 0 <= k < |t.objects|
      ensures ObjectOk(t, t.objects[k])
    {
      assert k < |s.objects| ==> ObjectOk(s, s.objects[k]);
      assert BlockOk(s, s.Head());
    }
    forall k, l | 0 <= k < l < |t.objects| && t.objects[k].block == t.objects[l].block
      ensures t.objects[k].from + t.objects[k].len <= t.objects[l].from
    {
      assert ObjectOk(s, s.objects[k]);
    }
  }

  lemma RegisterKeeps(s: State, c: Cleanup)
    requires Inv(s) && HasSpace(s, CLEANUP)
    ensures Inv(Register(s, c))
  {
    var t := Register(s, c);
    assert BlockOk(s, s.Head());
    NodesGrow(s.blocks[s.Head()].nodes, Top(s, s.Head()), s.log[s.Head()], c);
    forall i | 0 <= i < |t.blocks|
      ensures BlockOk(t, i)
    {
      assert BlockOk(s, i);
    }
    forall k | 0 <= k < |t.objects|
      ensures ObjectOk(t, t.objects[k])
    {
      assert ObjectOk(s, s.objects[k]);
    }
  }

  /** A new block has room for what did not fit, so a fallback recurses once. */
  lemma NewBlockKeeps(s: State, n: nat, policy: Policy)
    requires Inv(s)
    ensures Inv(NewBlock(s, n, policy)) && HasSpace(NewBlock(s, n, policy), n)
  {
    var t := NewBlock(s, n, policy);
    forall i | 0 <= i < |t.blocks|
      ensures BlockOk(t, i)
    {
      if i < |s.blocks| {
        assert BlockOk(s, i);
      }
    }
    forall k | 0 <= k < |t.objects|
      ensures ObjectOk(t, t.objects[k])
    {
      assert ObjectOk(s, s.objects[k]);
      assert BlockOk(s, s.objects[k].block);
    }
  }

  // ---- Runs of allocations ------------------------------------------------------------------

  /** AllocateAligned, or AllocateAlignedWithCleanup whose node the caller fills at once; AddCleanup is
      the latter with no bytes. */
  datatype Op = Allocate(n: nat) | WithCleanup(n: nat, c: Cleanup)

  function Step(s: State, op: Op, policy: Policy): State
    requires Inv(s)
    ensures Step(s, op, policy).blocks != []
  {
    match op
    case Allocate(n) => Take(Room(s, n, policy), n)
    case WithCleanup(n, c) =>
      RoomKeeps(s, n + CLEANUP, policy);
      Register(Take(Room(s, n + CLEANUP, policy), n), c)
  }

  lemma RoomKeeps(s: State, n: nat, policy: Policy)
    requires Inv(s)
    ensures Inv(Room(s, n, policy)) && HasSpace(Room(s, n, policy), n)
  {
    NewBlockKeeps(s, n, policy);
  }

  /** Callers round sizes up to 8. */
  predicate Aligned(op: Op) { op.n % 8 == 0 }

  lemma StepKeepsInv(s: State, op: Op, policy: Policy)
    requires Inv(s) && Aligned(op)
    ensures Inv(Step(s, op, policy))
  {
    hide NewBlock, HasSpace, BlockOk, ObjectOk;
    match op
    case Allocate(n) =>
      RoomKeeps(s, n, policy);
      TakeKeeps(Room(s, n, policy), n);
    case WithCleanup(n, c) =>
      RoomKeeps(s, n + CLEANUP, policy);
      var room := Room(s, n + CLEANUP, policy);
      TakeKeeps(room, n);
      RegisterKeeps(Take(room, n), c);
  }

  ghost predicate Run(s: State, ops: seq<Op>, policy: Policy, end: State)
    decreases |ops|
  {
    if ops == [] then end == s
    else Inv(s) && Aligned(ops[0]) && Run(Step(s, ops[0], policy), ops[1..], policy, end)
  }

  lemma {:induction false} RunKeepsInv(s: State, ops: seq<Op>, policy: Policy, end: State)
    requires Inv(s) && Run(s, ops, policy, end)
    ensures Inv(end)
    decreases |ops|
  {
    hide Inv, Step;
    if ops != [] {
      StepKeepsInv(s, ops[0], policy);
      RunKeepsInv(Step(s, ops[0], policy), ops[1..], policy, end);
    }
  }

  // ---- When and how it grows ----------------------------------------------------------------

  /** The bytes an operation must find free. */
  function Need(op: Op): nat {
    match op
    case Allocate(n) => n
    case WithCleanup(n, _) => n + CLEANUP
  }

  /** A block is made exactly when the newest has too little room between its objects and its nodes.  It holds
      the need, is twice the one before it or as large as the policy allows, whichever is less, and no larger
      than the one or the other asks; the blocks there were keep their sizes. */
  lemma MakesBlockIff(s: State, op: Op, policy: Policy)
    requires Inv(s)
    ensures var t, n := Step(s, op, policy), |s.blocks|;
            && |t.blocks| == (if s.limit - s.ptr < Need(op) then n + 1 else n)
            && (forall i :: 0 <= i < n ==> t.blocks[i].size == s.blocks[i].size)
            && (|t.blocks| > n ==>
                  var size, twice := t.blocks[n].size, 2 * s.blocks[n - 1].size;
                  && HEADER + Need(op) <= size && (twice <= size || policy.maxBlockSize <= size)
                  && size in {HEADER + Need(op), twice, policy.maxBlockSize}
                  && (HEADER + Need(op) < size ==> size <= twice && size <= policy.maxBlockSize))
  {
    assert BlockOk(s, s.Head());
    hide BlockOk, ObjectOk;
  }

  /** The size doubled `i` times. */
  function Doubled(size: nat, i: nat): nat {
    if i == 0 then size else 2 * Doubled(size, i - 1)
  }

  predicate Doubling(s: State, size: nat, policy: Policy) {
    && s.blocks != []
    && forall i :: 0 <= i < |s.blocks| ==> s.blocks[i].size == Min(Doubled(size, i), policy.maxBlockSize)
  }

  lemma {:induction false} DoubledGrows(size: nat, i: nat)
    ensures size <= Doubled(size, i)
  {
    if i > 0 {
      DoubledGrows(size, i - 1);
    }
  }

  lemma StepKeepsDoubling(s: State, op: Op, policy: Policy, size: nat)
    requires Inv(s) && Doubling(s, size, policy) && 0 < size <= policy.maxBlockSize && HEADER + Need(op) <= size
    ensures Doubling(Step(s, op, policy), size, policy)
  {
    var n := |s.blocks|;
    MakesBlockIff(s, op, policy);
    DoubledGrows(size, n);
    DoubledGrows(size, n - 1);
    hide Step, Inv;
    assert Doubled(size, n) == 2 * Doubled(size, n - 1);
    assert s.blocks[n - 1].size == Min(Doubled(size, n - 1), policy.maxBlockSize);
  }

  lemma {:induction false} RunKeepsDoubling(s: State, ops: seq<Op>, policy: Policy, end: State, size: nat)
    requires Inv(s) && Doubling(s, size, policy) && 0 < size <= policy.maxBlockSize && Run(s, ops, policy, end)
    requires forall k :: 0 <= k < |ops| ==> HEADER + Need(ops[k]) <= size
    ensures Doubling(end, size, policy)
    decreases |ops|
  {
    hide Inv, Step, Doubling, Need;
    if ops != [] {
      StepKeepsInv(s, ops[0], policy);
      StepKeepsDoubling(s, ops[0], policy, size);
      RunKeepsDoubling(Step(s, ops[0], policy), ops[1..], policy, end, size);
    }
  }

  /** Over every run whose requests would fit the first block, block sizes double until the policy's maximum. */
  lemma BlocksDouble(size: nat, ops: seq<Op>, policy: Policy, end: State)
    requires HEADER + SERIAL <= size <= policy.maxBlockSize && Run(Start(size), ops, policy, end)
    requires forall k :: 0 <= k < |ops| ==> HEADER + Need(ops[k]) <= size
    ensures forall i :: 0 <= i < |end.blocks| ==> end.blocks[i].size == Min(Doubled(size, i), policy.maxBlockSize)
  {
    hide Run, Inv;
    StartIsOk(size);
    RunKeepsDoubling(Start(size), ops, policy, end, size);
  }

  // ---- Nothing overlaps ---------------------------------------------------------------------

  /** Everything that occupies bytes of a block: its header (with the arena itself in the first), the
      objects, the cleanup nodes. */
  datatype Region = Header(i: nat) | Object(k: nat) | Node(i: nat, j: nat)

  predicate IsRegion(s: State, r: Region)
    requires |s.log| == |s.blocks|
  {
    match r
    case Header(i) => i < |s.blocks|
    case Object(k) => k < |s.objects|
    case Node(i, j) => i < |s.blocks| && j < |s.log[i]|
  }

  function Extent(s: State, r: Region): Slice
    requires Inv(s) && IsRegion(s, r)
  {
    match r
    case Header(i) => Slice(i, 0, Low(i))
    case Object(k) => s.objects[k]
    case Node(i, j) =>
      assert BlockOk(s, i);
      Slice(i, Top(s, i) - CLEANUP * (j + 1), CLEANUP)
  }

  predicate Apart(a: Slice, b: Slice) {
    a.block != b.block || a.from + a.len <= b.from || b.from + b.len <= a.from
  }

  /** The header, the objects and the nodes lie inside their blocks, and no two share a byte. */
  lemma NothingOverlaps(s: State, a: Region, b: Region)
    requires Inv(s) && IsRegion(s, a) && IsRegion(s, b)
    ensures Extent(s, a).block < |s.blocks|
    ensures Extent(s, a).from + Extent(s, a).len <= s.blocks[Extent(s, a).block].size
    ensures a != b ==> Apart(Extent(s, a), Extent(s, b))
  {
    hide NodesAre;
    InItsPart(s, a);
    InItsPart(s, b);
    assert a.Object? && b.Object? && a.k < b.k && s.objects[a.k].block == s.objects[b.k].block ==>
        s.objects[a.k].from + s.objects[a.k].len <= s.objects[b.k].from;
    assert a.Object? && b.Object? && b.k < a.k && s.objects[a.k].block == s.objects[b.k].block ==>
        s.objects[b.k].from + s.objects[b.k].len <= s.objects[a.k].from;
  }

  /** Header, objects and nodes each have their own part of the block. */
  lemma InItsPart(s: State, r: Region)
    requires Inv(s) && IsRegion(s, r)
    ensures var e := Extent(s, r);
            && e.block < |s.blocks|
            && Low(e.block) <= ObjectsTo(s, e.block) <= NodesFrom(s, e.block) <= Top(s, e.block) <= s.blocks[e.block].size
            && (r.Header? ==> e.from + e.len == Low(e.block))
            && (r.Object? ==> Low(e.block) <= e.from && e.from + e.len <= ObjectsTo(s, e.block))
            && (r.Node? ==> NodesFrom(s, e.block) <= e.from && e.from + e.len <= Top(s, e.block))
  {
    hide NodesAre;
    if r.Object? {
      assert ObjectOk(s, s.objects[r.k]);
      assert BlockOk(s, s.objects[r.k].block);
    } else {
      assert BlockOk(s, r.i);
    }
  }

  // ---- Space --------------------------------------------------------------------------------

  function Sizes(blocks: seq<Block>): nat {
    if blocks == [] then 0 else Sizes(blocks[..|blocks| - 1]) + blocks[|blocks| - 1].size
  }

  function Bytes(objects: seq<Slice>): nat {
    if objects == [] then 0 else Bytes(objects[..|objects| - 1]) + objects[|objects| - 1].len
  }

  /** SpaceUsed() */
  function SpaceUsed(s: State): int { s.ptr - HEADER + s.spaceUsed - SERIAL }

  ghost predicate SpaceOk(s: State) {
    s.spaceAllocated == Sizes(s.blocks) && SpaceUsed(s) == Bytes(s.objects)
  }

  lemma {:induction false} SizesOfUpdate(blocks: seq<Block>, i: nat, b: Block)
    requires i < |blocks| && b.size == blocks[i].size
    ensures Sizes(blocks[i := b]) == Sizes(blocks)
  {
    var init := blocks[..|blocks| - 1];
    if i < |blocks| - 1 {
      SizesOfUpdate(init, i, b);
      assert blocks[i := b][..|blocks| - 1] == init[i := b];
    } else {
      assert blocks[i := b][..|blocks| - 1] == init;
    }
  }

  /** The counters stay what they are named for: the sizes of the blocks, and the bytes handed out. */
  lemma {:induction false} StepKeepsSpace(s: State, op: Op, policy: Policy)
    requires Inv(s) && SpaceOk(s)
    ensures SpaceOk(Step(s, op, policy))
  {
    hide NewBlock, HasSpace, BlockOk, ObjectOk, SpaceOk, Take, Register;
    var need := match op case Allocate(n) => n case WithCleanup(n, c) => n + CLEANUP;
    RoomKeepsSpace(s, need, policy);
    RoomKeeps(s, need, policy);
    var room := Room(s, need, policy);
    TakeKeepsSpace(room, op.n);
    if op.WithCleanup? {
      RegisterKeepsSpace(room, op.n, op.c);
    }
  }

  lemma TakeKeepsSpace(s: State, n: nat)
    requires s.blocks != [] && SpaceOk(s)
    ensures SpaceOk(Take(s, n))
  {
    assert Take(s, n).objects[..|s.objects|] == s.objects;
  }

  lemma RegisterKeepsSpace(s: State, n: nat, c: Cleanup)
    requires Inv(s) && HasSpace(s, n + CLEANUP) && SpaceOk(Take(s, n))
    ensures SpaceOk(Register(Take(s, n), c))
  {
    hide BlockOk, ObjectOk;
    var head := s.blocks[s.Head()];
    SizesOfUpdate(s.blocks, s.Head(), head.(nodes := head.nodes[s.limit - CLEANUP := c]));
  }

  lemma RoomKeepsSpace(s: State, n: nat, policy: Policy)
    requires Inv(s) && SpaceOk(s)
    ensures SpaceOk(Room(s, n, policy))
  {
    hide NodesAre;
    assert BlockOk(s, s.Head());
    var head := s.blocks[s.Head()];
    SizesOfUpdate(s.blocks, s.Head(), head.(start := s.limit));
    var t := NewBlock(s, n, policy);
    assert t.blocks[..|t.blocks| - 1] == s.blocks[s.Head() := head.(start := s.limit)];
  }

  lemma {:induction false} RunKeepsSpace(s: State, ops: seq<Op>, policy: Policy, end: State)
    requires Inv(s) && SpaceOk(s) && Run(s, ops, policy, end)
    ensures SpaceOk(end)
    decreases |ops|
  {
    hide Inv, Step, SpaceOk;
    if ops != [] {
      StepKeepsInv(s, ops[0], policy);
      StepKeepsSpace(s, ops[0], policy);
      RunKeepsSpace(Step(s, ops[0], policy), ops[1..], policy, end);
    }
  }

  /** The bytes a run asks for, without its cleanup nodes. */
  function Requested(ops: seq<Op>): nat
    decreases |ops|
  {
    if ops == [] then 0 else ops[0].n + Requested(ops[1..])
  }

  lemma StepHandsOut(s: State, op: Op, policy: Policy)
    requires Inv(s)
    ensures Bytes(Step(s, op, policy).objects) == Bytes(s.objects) + op.n
  {
    hide BlockOk, ObjectOk;
    var after := Step(s, op, policy).objects;
    assert after[..|after| - 1] == s.objects;
  }

  lemma {:induction false} RunHandsOut(s: State, ops: seq<Op>, policy: Policy, end: State)
    requires Inv(s) && Run(s, ops, policy, end)
    ensures Bytes(end.objects) == Bytes(s.objects) + Requested(ops)
    decreases |ops|
  {
    hide Inv, Step, Bytes;
    if ops != [] {
      StepKeepsInv(s, ops[0], policy);
      StepHandsOut(s, ops[0], policy);
      RunHandsOut(Step(s, ops[0], policy), ops[1..], policy, end);
    }
  }

  /** Over every run of a fresh arena, SpaceAllocated is the size of all its blocks and SpaceUsed is what
      the run asked for. */
  lemma SpaceIsTrue(size: nat, ops: seq<Op>, policy: Policy, end: State)
    requires size >= HEADER + SERIAL && Run(Start(size), ops, policy, end)
    ensures end.spaceAllocated == Sizes(end.blocks)
    ensures SpaceUsed(end) == Requested(ops)
  {
    hide Run;
    StartIsOk(size);
    assert Sizes(Start(size).blocks) == size by {
      assert Start(size).blocks[..0] == [];
    }
    RunKeepsSpace(Start(size), ops, policy, end);
    RunHandsOut(Start(size), ops, policy, end);
  }

  // ---- Cleanups -----------------------------------------------------------------------------

  function Reverse<T>(s: seq<T>): seq<T> {
    if s == [] then [] else Reverse(s[1..]) + [s[0]]
  }

  function Flatten<T>(s: seq<seq<T>>): seq<T> {
    if s == [] then [] else Flatten(s[..|s| - 1]) + s[|s| - 1]
  }

  /** CleanupList rounds the end of every block down to 8, but only the first block's nodes were laid
      out from a rounded end.  In any other block whose size is not a multiple of 8 the distance from
      the first node to the rounded end, counted in whole nodes, is one short, and a single node is
      taken for none. */
  predicate Lost(s: State, i: nat)
    requires i < |s.blocks| && |s.log| == |s.blocks|
  {
    i > 0 && s.blocks[i].size % 8 != 0 && |s.log[i]| == 1
  }

  /** What CleanupList runs: newest block first, last registered first, without the lost nodes. */
  function CleanupsRun(s: State, n: nat): seq<Cleanup>
    requires n <= |s.blocks| && |s.log| == |s.blocks|
  {
    if n == 0 then []
    else (if Lost(s, n - 1) then [] else Reverse(s.log[n - 1])) + CleanupsRun(s, n - 1)
  }

  lemma {:induction false} ReverseIsOnto<T>(s: seq<T>)
    ensures |Reverse(s)| == |s|
    ensures forall k :: 0 <= k < |s| ==> Reverse(s)[k] == s[|s| - 1 - k]
  {
    if s != [] {
      ReverseIsOnto(s[1..]);
    }
  }

  lemma {:induction false} ReverseOfConcat<T>(a: seq<T>, b: seq<T>)
    ensures Reverse(a + b) == Reverse(b) + Reverse(a)
  {
    ReverseIsOnto(a);
    ReverseIsOnto(b);
    ReverseIsOnto(a + b);
  }

  /** Every registered cleanup runs exactly once, last registered first, if and only if no block has
      lost its node. */
  lemma {:induction false} AllRunIff(s: State, n: nat)
    requires n <= |s.blocks| && |s.log| == |s.blocks|
    ensures |CleanupsRun(s, n)| <= |Flatten(s.log[..n])|
    ensures CleanupsRun(s, n) == Reverse(Flatten(s.log[..n])) <==> forall i :: 0 <= i < n ==> !Lost(s, i)
  {
    if n > 0 {
      AllRunIff(s, n - 1);
      assert s.log[..n][..n - 1] == s.log[..n - 1] && s.log[..n][n - 1] == s.log[n - 1];
      var before := Flatten(s.log[..n - 1]);
      ReverseOfConcat(before, s.log[n - 1]);
      ReverseIsOnto(s.log[n - 1]);
      ReverseIsOnto(before);
      ReverseIsOnto(Flatten(s.log[..n]));
      if !Lost(s, n - 1) {
        SameTail(Reverse(s.log[n - 1]), CleanupsRun(s, n - 1), Reverse(before));
      }
    }
  }

  lemma Append<T>(a: seq<T>, b: seq<T>, c: seq<T>)
    ensures a + b + c == a + (b + c)
  {
  }

  lemma SameTail<T>(a: seq<T>, b: seq<T>, c: seq<T>)
    ensures a + b == a + c <==> b == c
  {
    if a + b == a + c {
      assert b == (a + b)[|a|..] && c == (a + c)[|a|..];
    }
  }

  /** The cleanups a run registers, in order. */
  function CleanupsOf(ops: seq<Op>): seq<Cleanup>
    decreases |ops|
  {
    if ops == [] then []
    else (match ops[0] case Allocate(_) => [] case WithCleanup(_, c) => [c]) + CleanupsOf(ops[1..])
  }

  lemma StepLogs(s: State, op: Op, policy: Policy)
    requires Inv(s)
    ensures Flatten(Step(s, op, policy).log) == Flatten(s.log) + CleanupsOf([op])
  {
    hide BlockOk, ObjectOk;
    var need := match op case Allocate(n) => n case WithCleanup(n, c) => n + CLEANUP;
    var room := Room(s, need, policy);
    assert Flatten(room.log) == Flatten(s.log) by {
      assert (s.log + [[]])[..|s.log|] == s.log;
    }
    if op.WithCleanup? {
      RoomKeeps(s, need, policy);
      var last := |room.log| - 1;
      assert room.log[last := room.log[last] + [op.c]][..last] == room.log[..last];
    }
  }

  lemma {:induction false} RunLogs(s: State, ops: seq<Op>, policy: Policy, end: State)
    requires Inv(s) && Run(s, ops, policy, end)
    ensures Flatten(end.log) == Flatten(s.log) + CleanupsOf(ops)
    decreases |ops|
  {
    hide Inv, Step;
    if ops != [] {
      StepKeepsInv(s, ops[0], policy);
      StepLogs(s, ops[0], policy);
      RunLogs(Step(s, ops[0], policy), ops[1..], policy, end);
      assert CleanupsOf([ops[0]]) + CleanupsOf(ops[1..]) == CleanupsOf(ops);
    }
  }

  /** Over every run of a fresh arena, CleanupList runs each registered cleanup exactly once, in
      reverse order of registration, if and only if no block has lost its node. */
  lemma ArenaCleansUpIff(size: nat, ops: seq<Op>, policy: Policy, end: State)
    requires size >= HEADER + SERIAL && Run(Start(size), ops, policy, end)
    ensures |end.log| == |end.blocks|
    ensures CleanupsRun(end, |end.blocks|) == Reverse(CleanupsOf(ops)) <==>
            forall i :: 0 <= i < |end.blocks| ==> !Lost(end, i)
  {
    hide BlockOk, ObjectOk, Run, Lost, CleanupsRun, Reverse, CleanupsOf;
    StartIsOk(size);
    RunKeepsInv(Start(size), ops, policy, end);
    RunLogs(Start(size), ops, policy, end);
    assert Flatten(Start(size).log) == [];
    assert [] + CleanupsOf(ops) == CleanupsOf(ops);
    assert Flatten(end.log) == CleanupsOf(ops);
    assert end.log[..|end.blocks|] == end.log;
    AllRunIff(end, |end.blocks|);
  }

  /** Every block after the first is a whole number of words, and the newest can be doubled into one. */
  ghost predicate WholeBlocks(s: State) {
    && s.blocks != [] && s.blocks[s.Head()].size % 4 == 0
    && forall i :: 0 < i < |s.blocks| ==> s.blocks[i].size % 8 == 0
  }

  lemma StepKeepsWhole(s: State, op: Op, policy: Policy)
    requires Inv(s) && Aligned(op) && WholeBlocks(s) && policy.maxBlockSize % 8 == 0 && policy.startBlockSize % 8 == 0
    ensures WholeBlocks(Step(s, op, policy))
  {
    hide BlockOk, ObjectOk, NewBlock, Register, WholeBlocks;
    var need := match op case Allocate(n) => n case WithCleanup(n, c) => n + CLEANUP;
    RoomKeeps(s, need, policy);
    NewBlockIsWhole(s, need, policy);
    var taken := Take(Room(s, need, policy), op.n);
    assert WholeBlocks(taken) by {
      TakeKeepsBlocks(Room(s, need, policy), op.n);
    }
    if op.WithCleanup? {
      RegisterKeepsSizes(taken, op.c);
    }
  }

  lemma NewBlockIsWhole(s: State, n: nat, policy: Policy)
    requires WholeBlocks(s) && n % 8 == 0 && policy.maxBlockSize % 8 == 0 && policy.startBlockSize % 8 == 0
    ensures WholeBlocks(NewBlock(s, n, policy))
  {
    SizeIsWhole(policy, s.blocks[s.Head()].size, n);
    hide BlockSize;
  }

  lemma SizeIsWhole(policy: Policy, last: nat, n: nat)
    requires last % 4 == 0 && n % 8 == 0 && policy.maxBlockSize % 8 == 0 && policy.startBlockSize % 8 == 0
    ensures BlockSize(policy, last, n) % 8 == 0 && BlockSize(policy, last, n) % 4 == 0
  {
    TwiceIsWhole(last);
    HeaderIsWhole(n);
    EighthIsQuarter(BlockSize(policy, last, n));
  }

  lemma TwiceIsWhole(n: nat)
    requires n % 4 == 0
    ensures (2 * n) % 8 == 0
  {
  }

  lemma HeaderIsWhole(n: nat)
    requires n % 8 == 0
    ensures (HEADER + n) % 8 == 0
  {
  }

  lemma EighthIsQuarter(n: nat)
    requires n % 8 == 0
    ensures n % 4 == 0
  {
  }

  lemma TakeKeepsBlocks(s: State, n: nat)
    requires WholeBlocks(s)
    ensures WholeBlocks(Take(s, n))
  {
  }

  lemma RegisterKeepsSizes(s: State, c: Cleanup)
    requires WholeBlocks(s) && |s.log| == |s.blocks| && CLEANUP <= s.limit
    ensures WholeBlocks(Register(s, c))
  {
  }

  lemma {:induction false} RunKeepsWhole(s: State, ops: seq<Op>, policy: Policy, end: State)
    requires Inv(s) && WholeBlocks(s) && policy.maxBlockSize % 8 == 0 && policy.startBlockSize % 8 == 0
    requires Run(s, ops, policy, end)
    ensures WholeBlocks(end)
    decreases |ops|
  {
    hide Inv, Step, WholeBlocks;
    if ops != [] {
      StepKeepsInv(s, ops[0], policy);
      StepKeepsWhole(s, ops[0], policy);
      RunKeepsWhole(Step(s, ops[0], policy), ops[1..], policy, end);
    }
  }

  /** With an initial block of a multiple of 4 bytes and a policy in multiples of 8, nothing is lost. */
  lemma WholeBlocksLoseNothing(size: nat, ops: seq<Op>, policy: Policy, end: State)
    requires size >= HEADER + SERIAL && size % 4 == 0
    requires policy.maxBlockSize % 8 == 0 && policy.startBlockSize % 8 == 0
    requires Run(Start(size), ops, policy, end)
    ensures |end.log| == |end.blocks| && CleanupsRun(end, |end.blocks|) == Reverse(CleanupsOf(ops))
  {
    StartIsOk(size);
    RunKeepsWhole(Start(size), ops, policy, end);
    ArenaCleansUpIff(size, ops, policy, end);
  }

  /** With an initial block of 81 bytes and the default policy, the one cleanup registered never runs. */
  lemma OddBlockLosesItsCleanup(c: Cleanup)
    ensures exists end :: Run(Start(81), [WithCleanup(0, c)], Policy(256, 8192), end)
                          && |end.log| == |end.blocks| && CleanupsRun(end, |end.blocks|) == [] && CleanupsOf([WithCleanup(0, c)]) == [c]
  {
    StartIsOk(81);
    var s, policy := Start(81), Policy(256, 8192);
    var op := WithCleanup(0, c);
    RoomKeeps(s, CLEANUP, policy);
    var end := Step(s, op, policy);
    assert |end.blocks| == 2 && end.blocks[1].size == 162;
    assert |end.log| == 2 && end.log[0] == [] && end.log[1] == [] + [c];
    assert Lost(end, 1) && CleanupsRun(end, 1) == [];
    assert CleanupsRun(end, 2) == [];
    assert [op][1..] == [] && CleanupsOf([]) == [];
    assert Run(end, [], policy, end);
    assert Run(s, [op], policy, end);
  }
}
